/** The Phong lighting model of lighting.js: the `Material` and `Light`
    constructors with their checks and defaults, the three per-channel
    terms, `reflect`, and the clamped sum. An argument that JavaScript may
    leave out is an Option, and each `throw` is a Failure carrying the
    source's message. `Math.pow` is a parameter; IsPow states the only facts
    about it that the proofs use. */
module Lighting {
  import opened Wrappers
  import opened Colors
  import opened Vectors

  datatype Material = Material(ambient: Color, diffuse: Color, specular: Color, shininess: real)

  datatype Light = Light(position: Vec3, ambient: Color, diffuse: Color, specular: Color)

  datatype Error = Error(message: string)

  const MaterialMessage := "Material requires ambient, diffuse, and specular properties"
  const LightMessage := "Light requires position"
  const AmbientMessage := "Material and light are required for ambient calculation"
  const DiffuseMessage := "All parameters are required for diffuse calculation"
  const SpecularMessage := "All parameters are required for specular calculation"
  const ReflectMessage := "Incident and normal vectors are required"
  const PhongMessage := "All parameters are required for Phong calculation"

  const DefaultShininess := 32.0
  const DefaultLightAmbient := Color(0.2, 0.2, 0.2)
  const DefaultLightDiffuse := Color(0.8, 0.8, 0.8)
  const DefaultLightSpecular := Color(1.0, 1.0, 1.0)

  /** What `Math.pow` is assumed to satisfy: zero to a positive power is
      zero, and a non-negative base gives a non-negative power. */
  ghost predicate IsPow(pow: (real, real) -> real)
  {
    && (forall s :: s > 0.0 ==> pow(0.0, s) == 0.0)
    && (forall x, s :: x >= 0.0 ==> pow(x, s) >= 0.0)
  }

  function Max(x: real, y: real): real
  {
    if x >= y then x else y
  }

  function Min(x: real, y: real): real
  {
    if x <= y then x else y
  }

  /** The `Material` constructor: fails unless ambient, diffuse and specular
      are all given; `shininess || 32.0` keeps a given non-zero shininess and
      otherwise uses 32. */
  function NewMaterial(ambient: Option<Color>, diffuse: Option<Color>, specular: Option<Color>,
                       shininess: Option<real>): (r: Result<Material, Error>)
    ensures r.Failure? <==> ambient.None? || diffuse.None? || specular.None?
    ensures r.Failure? ==> r.error == Error(MaterialMessage)
    ensures ambient.Some? && diffuse.Some? && specular.Some? ==>
              && r.Success?
              && r.value.ambient == ambient.value
              && r.value.diffuse == diffuse.value
              && r.value.specular == specular.value
              && r.value.shininess != 0.0
              && (shininess.Some? && shininess.value != 0.0 ==> r.value.shininess == shininess.value)
              && (shininess.None? || shininess.value == 0.0 ==> r.value.shininess == DefaultShininess)
  {
    if ambient.None? || diffuse.None? || specular.None? then
      Failure(Error(MaterialMessage))
    else
      var s := if shininess.Some? && shininess.value != 0.0 then shininess.value else DefaultShininess;
      Success(Material(ambient.value, diffuse.value, specular.value, s))
  }

  /** A material with non-zero shininess is rebuilt unchanged from its own fields. */
  lemma NewMaterialRoundTrip(m: Material)
    requires m.shininess != 0.0
    ensures NewMaterial(Some(m.ambient), Some(m.diffuse), Some(m.specular), Some(m.shininess)) == Success(m)
  {
  }

  /** The `Light` constructor: fails without a position; each absent colour
      gets its default (0.2, 0.8 and 1.0 in every channel). */
  function NewLight(position: Option<Vec3>, ambient: Option<Color>, diffuse: Option<Color>,
                    specular: Option<Color>): (r: Result<Light, Error>)
    ensures r.Failure? <==> position.None?
    ensures r.Failure? ==> r.error == Error(LightMessage)
    ensures position.Some? ==>
              && r.Success?
              && r.value.position == position.value
              && r.value.ambient == (if ambient.Some? then ambient.value else DefaultLightAmbient)
              && r.value.diffuse == (if diffuse.Some? then diffuse.value else DefaultLightDiffuse)
              && r.value.specular == (if specular.Some? then specular.value else DefaultLightSpecular)
  {
    if position.None? then
      Failure(Error(LightMessage))
    else
      Success(Light(position.value,
                    if ambient.Some? then ambient.value else DefaultLightAmbient,
                    if diffuse.Some? then diffuse.value else DefaultLightDiffuse,
                    if specular.Some? then specular.value else DefaultLightSpecular))
  }

  /** A light is rebuilt unchanged from its own fields. */
  lemma NewLightRoundTrip(l: Light)
    ensures NewLight(Some(l.position), Some(l.ambient), Some(l.diffuse), Some(l.specular)) == Success(l)
  {
  }

  /** `calculateAmbient`: per channel, material ambient times light ambient. */
  function CalculateAmbient(material: Option<Material>, light: Option<Light>): (r: Result<Color, Error>)
    ensures r.Success? <==> material.Some? && light.Some?
    ensures r.Failure? ==> r.error == Error(AmbientMessage)
    ensures r.Success? ==>
              forall ch :: Component(r.value, ch)
                             == Component(material.value.ambient, ch) * Component(light.value.ambient, ch)
  {
    if material.None? || light.None? then
      Failure(Error(AmbientMessage))
    else
      var m, l := material.value, light.value;
      Success(Color(m.ambient.r * l.ambient.r, m.ambient.g * l.ambient.g, m.ambient.b * l.ambient.b))
  }

  /** `calculateDiffuse`: per channel, material diffuse times light diffuse
      times the cosine term, which is gated at zero. */
  function CalculateDiffuse(material: Option<Material>, light: Option<Light>,
                            normal: Option<Vec3>, lightDir: Option<Vec3>): (r: Result<Color, Error>)
    ensures r.Success? <==> material.Some? && light.Some? && normal.Some? && lightDir.Some?
    ensures r.Failure? ==> r.error == Error(DiffuseMessage)
    ensures r.Success? ==>
              var cosine := Dot(normal.value, lightDir.value);
              && (cosine <= 0.0 ==> r.value == Black)
              && (cosine > 0.0 ==>
                    forall ch :: Component(r.value, ch)
                                   == Component(material.value.diffuse, ch) * Component(light.value.diffuse, ch) * cosine)
  {
    if material.None? || light.None? || normal.None? || lightDir.None? then
      Failure(Error(DiffuseMessage))
    else
      var m, l := material.value, light.value;
      var dotProduct := Max(Dot(normal.value, lightDir.value), 0.0);
      Success(Color(m.diffuse.r * l.diffuse.r * dotProduct,
                    m.diffuse.g * l.diffuse.g * dotProduct,
                    m.diffuse.b * l.diffuse.b * dotProduct))
  }

  /** The arithmetic of `reflect`: 2 * dot(incident, normal) * normal - incident.
      The normal bisects the incident vector and its reflection: their sum
      lies along the normal. */
  function Reflection(incident: Vec3, normal: Vec3): (r: Vec3)
    ensures Add(r, incident) == Scale(normal, 2.0 * Dot(incident, normal))
  {
    Subtract(Scale(normal, 2.0 * Dot(incident, normal)), incident)
  }

  /** `reflect`: fails when either vector is absent. */
  function Reflect(incident: Option<Vec3>, normal: Option<Vec3>): (r: Result<Vec3, Error>)
    ensures r.Success? <==> incident.Some? && normal.Some?
    ensures r.Failure? ==> r.error == Error(ReflectMessage)
    ensures r.Success? ==> r.value == Reflection(incident.value, normal.value)
  {
    if incident.None? || normal.None? then Failure(Error(ReflectMessage))
    else Success(Reflection(incident.value, normal.value))
  }

  /** The specular factor max(dot(viewDir, reflect(lightDir, normal)), 0) ^ shininess. */
  function SpecularFactor(normal: Vec3, lightDir: Vec3, viewDir: Vec3, shininess: real,
                          pow: (real, real) -> real): (r: real)
    ensures IsPow(pow) ==> r >= 0.0
    ensures IsPow(pow) && shininess > 0.0 && Dot(viewDir, Reflection(lightDir, normal)) <= 0.0 ==> r == 0.0
  {
    pow(Max(Dot(viewDir, Reflection(lightDir, normal)), 0.0), shininess)
  }

  /** `calculateSpecular`: per channel, material specular times light
      specular times the specular factor. */
  function CalculateSpecular(material: Option<Material>, light: Option<Light>, normal: Option<Vec3>,
                             lightDir: Option<Vec3>, viewDir: Option<Vec3>,
                             pow: (real, real) -> real): (r: Result<Color, Error>)
    ensures r.Success? <==> material.Some? && light.Some? && normal.Some? && lightDir.Some? && viewDir.Some?
    ensures r.Failure? ==> r.error == Error(SpecularMessage)
    ensures r.Success? ==>
              var spec := SpecularFactor(normal.value, lightDir.value, viewDir.value,
                                         material.value.shininess, pow);
              forall ch :: Component(r.value, ch)
                             == Component(material.value.specular, ch) * Component(light.value.specular, ch) * spec
  {
    if material.None? || light.None? || normal.None? || lightDir.None? || viewDir.None? then
      Failure(Error(SpecularMessage))
    else
      var reflectDir := Reflect(lightDir, normal).value;
      var m, l := material.value, light.value;
      var spec := pow(Max(Dot(viewDir.value, reflectDir), 0.0), m.shininess);
      Success(Color(m.specular.r * l.specular.r * spec,
                    m.specular.g * l.specular.g * spec,
                    m.specular.b * l.specular.b * spec))
  }

  /** `calculatePhongColor`: the three terms summed per channel and clamped
      from above at 1.0 (there is no lower clamp). */
  function CalculatePhongColor(material: Option<Material>, light: Option<Light>, normal: Option<Vec3>,
                               lightDir: Option<Vec3>, viewDir: Option<Vec3>,
                               pow: (real, real) -> real): (r: Result<Color, Error>)
    ensures r.Success? <==> material.Some? && light.Some? && normal.Some? && lightDir.Some? && viewDir.Some?
    ensures r.Failure? ==> r.error == Error(PhongMessage)
    ensures r.Success? ==> forall ch :: Component(r.value, ch) <= 1.0
    ensures r.Success? ==>
              var a := CalculateAmbient(material, light).value;
              var d := CalculateDiffuse(material, light, normal, lightDir).value;
              var s := CalculateSpecular(material, light, normal, lightDir, viewDir, pow).value;
              forall ch ::
                var sum := Component(a, ch) + Component(d, ch) + Component(s, ch);
                && (sum <= 1.0 ==> Component(r.value, ch) == sum)
                && (sum > 1.0 ==> Component(r.value, ch) == 1.0)
  {
    if material.None? || light.None? || normal.None? || lightDir.None? || viewDir.None? then
      Failure(Error(PhongMessage))
    else
      // The arguments are all present, so none of these calls throws.
      var ambient := CalculateAmbient(material, light).value;
      var diffuse := CalculateDiffuse(material, light, normal, lightDir).value;
      var specular := CalculateSpecular(material, light, normal, lightDir, viewDir, pow).value;
      Success(Color(Min(ambient.r + diffuse.r + specular.r, 1.0),
                    Min(ambient.g + diffuse.g + specular.g, 1.0),
                    Min(ambient.b + diffuse.b + specular.b, 1.0)))
  }

  /** For a unit normal, the normal reflects to itself. */
  lemma ReflectionOfNormal(n: Vec3)
    requires Dot(n, n) == 1.0
    ensures Reflection(n, n) == n
  {
  }

  /** Reflection about a unit normal keeps the component along the normal. */
  lemma ReflectionKeepsNormalComponent(i: Vec3, n: Vec3)
    requires Dot(n, n) == 1.0
    ensures Dot(Reflection(i, n), n) == Dot(i, n)
  {
    var k := 2.0 * Dot(i, n);
    DotLinear(Scale(n, k), i, n, 1.0);
    DotLinear(n, n, n, k);
  }

  /** Reflection about a unit normal keeps the length of the vector. */
  lemma ReflectionKeepsLength(i: Vec3, n: Vec3)
    requires Dot(n, n) == 1.0
    ensures Dot(Reflection(i, n), Reflection(i, n)) == Dot(i, i)
  {
    var k := 2.0 * Dot(i, n);
    var r := Reflection(i, n);
    var w := Scale(n, k);
    DotLinear(w, i, r, 1.0);
    DotLinear(n, n, r, k);
    ReflectionKeepsNormalComponent(i, n);
    DotSymmetric(r, n);
    DotSymmetric(i, r);
    DotLinear(w, i, i, 1.0);
    DotLinear(n, n, i, k);
    assert Dot(r, r) == k * Dot(n, r) - Dot(i, r);
    assert Dot(i, r) == k * Dot(n, i) - Dot(i, i);
  }

  /** Reflecting twice about the same unit normal gives the vector back. */
  lemma ReflectionIsInvolution(i: Vec3, n: Vec3)
    requires Dot(n, n) == 1.0
    ensures Reflection(Reflection(i, n), n) == i
  {
    ReflectionKeepsNormalComponent(i, n);
  }

  /** When the view direction is on the far side of the reflected light and
      the shininess is positive, the specular term is black. */
  lemma SpecularVanishesWhenViewedAway(m: Material, l: Light, normal: Vec3, lightDir: Vec3, viewDir: Vec3,
                                       pow: (real, real) -> real)
    requires IsPow(pow) && m.shininess > 0.0
    requires Dot(viewDir, Reflection(lightDir, normal)) <= 0.0
    ensures CalculateSpecular(Some(m), Some(l), Some(normal), Some(lightDir), Some(viewDir), pow) == Success(Black)
  {
    SpecularIsScaledByFactor(m, l, normal, lightDir, viewDir, pow, 0.0);
    var s := CalculateSpecular(Some(m), Some(l), Some(normal), Some(lightDir), Some(viewDir), pow).value;
    assert Component(s, Red) == 0.0 && Component(s, Green) == 0.0 && Component(s, Blue) == 0.0;
  }

  /** The diffuse term is black whenever the light is behind the surface. */
  lemma DiffuseVanishesWhenLitFromBehind(m: Material, l: Light, normal: Vec3, lightDir: Vec3)
    requires Dot(normal, lightDir) <= 0.0
    ensures CalculateDiffuse(Some(m), Some(l), Some(normal), Some(lightDir)) == Success(Black)
  {
  }

  /** The diffuse term is black whenever the light is behind the surface,
      but the specular term is not gated by that: when the view direction
      lies on the side of the reflected light, the specular term keeps its
      full value. */
  lemma SpecularIgnoresLightSide(m: Material, l: Light, normal: Vec3, lightDir: Vec3, viewDir: Vec3,
                                 pow: (real, real) -> real)
    requires Dot(normal, lightDir) <= 0.0
    requires Dot(viewDir, Reflection(lightDir, normal)) > 0.0
    ensures CalculateDiffuse(Some(m), Some(l), Some(normal), Some(lightDir)) == Success(Black)
    ensures var s := CalculateSpecular(Some(m), Some(l), Some(normal), Some(lightDir), Some(viewDir), pow);
            var f := pow(Dot(viewDir, Reflection(lightDir, normal)), m.shininess);
            forall ch :: Component(s.value, ch) == Component(m.specular, ch) * Component(l.specular, ch) * f
  {
    DiffuseVanishesWhenLitFromBehind(m, l, normal, lightDir);
    SpecularIsScaledByFactor(m, l, normal, lightDir, viewDir, pow,
                             pow(Dot(viewDir, Reflection(lightDir, normal)), m.shininess));
  }

  /** Such configurations exist for every unit normal n: light direction
      and view direction -n put the light straight behind the surface, yet
      the view lies along the reflected light. */
  lemma LightBehindWithHighlight(n: Vec3)
    requires Dot(n, n) == 1.0
    ensures Dot(n, Scale(n, -1.0)) < 0.0
    ensures Dot(Scale(n, -1.0), Reflection(Scale(n, -1.0), n)) > 0.0
  {
    var back := Scale(n, -1.0);
    DotLinear(n, n, n, -1.0);
    assert Dot(back, n) == -1.0;
    ScaleLaws(n, 2.0 * Dot(back, n), 1.0);
    assert Reflection(back, n) == back;
    DotLinear(n, n, back, -1.0);
    assert Dot(back, back) == 1.0;
  }

  lemma SpecularIsScaledByFactor(m: Material, l: Light, normal: Vec3, lightDir: Vec3, viewDir: Vec3,
                                 pow: (real, real) -> real, factor: real)
    requires SpecularFactor(normal, lightDir, viewDir, m.shininess, pow) == factor
    ensures var s := CalculateSpecular(Some(m), Some(l), Some(normal), Some(lightDir), Some(viewDir), pow);
            forall ch :: Component(s.value, ch) == Component(m.specular, ch) * Component(l.specular, ch) * factor
  {
  }

  /** With non-negative colours every channel of the Phong colour lies in
      [0, 1]. */
  lemma PhongColorInUnitRange(m: Material, l: Light, normal: Vec3, lightDir: Vec3, viewDir: Vec3,
                              pow: (real, real) -> real)
    requires IsPow(pow)
    requires NonNegative(m.ambient) && NonNegative(m.diffuse) && NonNegative(m.specular)
    requires NonNegative(l.ambient) && NonNegative(l.diffuse) && NonNegative(l.specular)
    ensures var r := CalculatePhongColor(Some(m), Some(l), Some(normal), Some(lightDir), Some(viewDir), pow);
            r.Success? && forall ch :: 0.0 <= Component(r.value, ch) <= 1.0
  {
    var spec := SpecularFactor(normal, lightDir, viewDir, m.shininess, pow);
    assert spec >= 0.0;
    var cosine := Max(Dot(normal, lightDir), 0.0);
    forall ch ensures 0.0 <= Component(CalculateAmbient(Some(m), Some(l)).value, ch)
                   && 0.0 <= Component(CalculateDiffuse(Some(m), Some(l), Some(normal), Some(lightDir)).value, ch)
                   && 0.0 <= Component(CalculateSpecular(Some(m), Some(l), Some(normal), Some(lightDir), Some(viewDir), pow).value, ch)
    {
      ProductNonNegative(Component(m.ambient, ch), Component(l.ambient, ch), 1.0);
      ProductNonNegative(Component(m.diffuse, ch), Component(l.diffuse, ch), cosine);
      ProductNonNegative(Component(m.specular, ch), Component(l.specular, ch), spec);
    }
  }

  lemma ProductNonNegative(x: real, y: real, z: real)
    requires x >= 0.0 && y >= 0.0 && z >= 0.0
    ensures x * y >= 0.0 && x * y * z >= 0.0
  {
  }

  /** A surface lit from behind and seen away from the reflected light shows
      only the (clamped) ambient term. */
  lemma UnlitSurfaceShowsAmbientOnly(m: Material, l: Light, normal: Vec3, lightDir: Vec3, viewDir: Vec3,
                                     pow: (real, real) -> real)
    requires IsPow(pow) && m.shininess > 0.0
    requires Dot(normal, lightDir) <= 0.0
    requires Dot(viewDir, Reflection(lightDir, normal)) <= 0.0
    ensures var r := CalculatePhongColor(Some(m), Some(l), Some(normal), Some(lightDir), Some(viewDir), pow);
            r.Success? && forall ch :: Component(r.value, ch) == Min(Component(m.ambient, ch) * Component(l.ambient, ch), 1.0)
  {
    DiffuseVanishesWhenLitFromBehind(m, l, normal, lightDir);
    SpecularVanishesWhenViewedAway(m, l, normal, lightDir, viewDir, pow);
  }

  /** The ambient term depends on nothing but the ambient colours of the
      material and the light. */
  lemma AmbientDependsOnlyOnAmbientColors(m1: Material, l1: Light, m2: Material, l2: Light)
    requires m1.ambient == m2.ambient && l1.ambient == l2.ambient
    ensures CalculateAmbient(Some(m1), Some(l1)) == CalculateAmbient(Some(m2), Some(l2))
  {
    var a1, a2 := CalculateAmbient(Some(m1), Some(l1)).value, CalculateAmbient(Some(m2), Some(l2)).value;
    assert Component(a1, Red) == Component(a2, Red);
    assert Component(a1, Green) == Component(a2, Green);
    assert Component(a1, Blue) == Component(a2, Blue);
  }

  /** Materials and lights that agree on one channel of every colour. */
  predicate AgreeOn(ch: Channel, m1: Material, l1: Light, m2: Material, l2: Light)
  {
    && Component(m1.ambient, ch) == Component(m2.ambient, ch)
    && Component(m1.diffuse, ch) == Component(m2.diffuse, ch)
    && Component(m1.specular, ch) == Component(m2.specular, ch)
    && Component(l1.ambient, ch) == Component(l2.ambient, ch)
    && Component(l1.diffuse, ch) == Component(l2.diffuse, ch)
    && Component(l1.specular, ch) == Component(l2.specular, ch)
  }

  /** The channels are independent: one channel of the Phong colour depends
      only on that channel of the six colours (and on the shared geometry
      and shininess). */
  lemma PhongChannelsAreIndependent(ch: Channel, m1: Material, l1: Light, m2: Material, l2: Light,
                                    normal: Vec3, lightDir: Vec3, viewDir: Vec3, pow: (real, real) -> real)
    requires AgreeOn(ch, m1, l1, m2, l2) && m1.shininess == m2.shininess
    ensures var r1 := CalculatePhongColor(Some(m1), Some(l1), Some(normal), Some(lightDir), Some(viewDir), pow);
            var r2 := CalculatePhongColor(Some(m2), Some(l2), Some(normal), Some(lightDir), Some(viewDir), pow);
            Component(r1.value, ch) == Component(r2.value, ch)
  {
    TermsAgreeOn(ch, m1, l1, m2, l2, normal, lightDir, viewDir, pow);
  }

  lemma TermsAgreeOn(ch: Channel, m1: Material, l1: Light, m2: Material, l2: Light,
                     normal: Vec3, lightDir: Vec3, viewDir: Vec3, pow: (real, real) -> real)
    requires AgreeOn(ch, m1, l1, m2, l2) && m1.shininess == m2.shininess
    ensures Component(CalculateAmbient(Some(m1), Some(l1)).value, ch)
         == Component(CalculateAmbient(Some(m2), Some(l2)).value, ch)
    ensures Component(CalculateDiffuse(Some(m1), Some(l1), Some(normal), Some(lightDir)).value, ch)
         == Component(CalculateDiffuse(Some(m2), Some(l2), Some(normal), Some(lightDir)).value, ch)
    ensures Component(CalculateSpecular(Some(m1), Some(l1), Some(normal), Some(lightDir), Some(viewDir), pow).value, ch)
         == Component(CalculateSpecular(Some(m2), Some(l2), Some(normal), Some(lightDir), Some(viewDir), pow).value, ch)
  {
  }
}
