/** The scene record (`SceneModel`): plain immutable records built from the
    loaded cloud, and copy-with-changes updates written as object spreads.
    A sub-record that callers may extend with their own keys is a map from
    key to value; `{...a, ...b}` is the right-biased union `a + b`. */
module SceneModel {
  import opened PointCloud

  /** A JSON-like field value. */
  datatype Value =
    | Null
    | Bool(b: bool)
    | Num(x: real)
    | Str(s: string)
    | Arr(items: seq<Value>)
    | Obj(fields: map<string, Value>)

  type Record = map<string, Value>

  /** JavaScript truthiness (a NaN number is not modelled). */
  predicate Truthy(v: Value)
  {
    match v
    case Null => false
    case Bool(b) => b
    case Num(x) => x != 0.0
    case Str(s) => s != ""
    case _ => true
  }

  /** The keys `{...v}` contributes: an object's own fields, nothing for
      `null`, a boolean or a number (strings and arrays, which JavaScript
      spreads into index keys, are taken to contribute nothing as well). */
  function Spread(v: Value): Record
  {
    if v.Obj? then v.fields else map[]
  }

  function VecValue(v: Vec3): Value
  {
    Arr([Num(v.x), Num(v.y), Num(v.z)])
  }

  datatype Meta = Meta(title: string, createdAt: int, source: string)

  datatype Entity = Entity(id: string, name: string, components: Record)

  datatype Settings = Settings(camera: Record, rendering: Record, dynamics: Record, training: Record)

  datatype Scene = Scene(id: string, meta: Meta, entities: seq<Entity>, settings: Settings)

  const RenderingFactors: set<string> :=
    {"gaussianFill", "gaussianEdgeBoost", "gaussianDensityBoost", "meshVisibility", "splatVisibility"}

  /** `createEmptyScene()`, given the clock reading `Date.now()`. */
  function EmptyScene(now: int): (s: Scene)
    ensures s.id == "scene-root" && s.meta == Meta("Untitled Scene", now, "manual")
    ensures s.entities == []
    ensures s.settings.camera == map["suggestedCenter" := Null]
    ensures s.settings.rendering.Keys == RenderingFactors
    ensures forall k :: k in s.settings.rendering ==> s.settings.rendering[k] == Num(1.0)
    ensures s.settings.dynamics.Keys == {"enabled", "timeScale", "time", "mode"}
    ensures s.settings.dynamics["enabled"] == Bool(false) && s.settings.dynamics["mode"] == Str("orbit")
    ensures s.settings.dynamics["timeScale"] == Num(1.0) && s.settings.dynamics["time"] == Null
    ensures s.settings.training == map["enabled" := Bool(false), "mode" := Str("none"), "reconstructionId" := Null]
  {
    Scene("scene-root", Meta("Untitled Scene", now, "manual"), [],
          Settings(
            map["suggestedCenter" := Null],
            map["gaussianFill" := Num(1.0), "gaussianEdgeBoost" := Num(1.0), "gaussianDensityBoost" := Num(1.0),
                "meshVisibility" := Num(1.0), "splatVisibility" := Num(1.0)],
            map["enabled" := Bool(false), "timeScale" := Num(1.0), "time" := Null, "mode" := Str("orbit")],
            map["enabled" := Bool(false), "mode" := Str("none"), "reconstructionId" := Null]))
  }

  /** The animation component an entity starts with, and the one
      `toggleEntityAnimation` falls back to. */
  const DefaultAnimation: Record :=
    map["enabled" := Bool(false), "clip" := Str("idle"), "speed" := Num(1.0), "amplitude" := Num(1.0)]

  const IdentityTransform: Value :=
    Obj(map["position" := Arr([Num(0.0), Num(0.0), Num(0.0)]),
            "rotationEuler" := Arr([Num(0.0), Num(0.0), Num(0.0)]),
            "scale" := Arr([Num(1.0), Num(1.0), Num(1.0)])])

  /** `(bboxMin[k] + bboxMax[k]) / 2` per axis when both corners exist, else the origin. */
  function SceneCenter(d: Cloud): (c: Vec3)
    ensures d.bboxMin.None? || d.bboxMax.None? ==> c == Vec3(0.0, 0.0, 0.0)
    ensures d.bboxMin.Some? && d.bboxMax.Some? ==>
      var lo, hi := d.bboxMin.value, d.bboxMax.value;
      c.x - lo.x == hi.x - c.x && c.y - lo.y == hi.y - c.y && c.z - lo.z == hi.z - c.z
  {
    if d.bboxMin.Some? && d.bboxMax.Some? then
      var lo, hi := d.bboxMin.value, d.bboxMax.value;
      Vec3((lo.x + hi.x) / 2.0, (lo.y + hi.y) / 2.0, (lo.z + hi.z) / 2.0)
    else Vec3(0.0, 0.0, 0.0)
  }

  function CornerValue(corner: Option<Vec3>): Value
  {
    if corner.Some? then VecValue(corner.value) else Null
  }

  function GaussianEntity(d: Cloud, center: Vec3): Entity
  {
    Entity("gaussian-cloud-0", "Gaussian Cloud",
           map["transform" := IdentityTransform,
               "gaussianCloud" := Obj(map["source" := Str("gaussianData"), "dataKey" := Str("primary"),
                                          "bboxMin" := CornerValue(d.bboxMin), "bboxMax" := CornerValue(d.bboxMax),
                                          "center" := VecValue(center)]),
               "animation" := Obj(DefaultAnimation),
               "physics" := Obj(map["enabled" := Bool(false), "mode" := Str("floating"),
                                    "mass" := Num(1.0), "restitution" := Num(0.4)])])
  }

  /** `meshType || null`. */
  function MeshTypeValue(meshType: Option<string>): Value
  {
    if meshType.Some? && meshType.value != "" then Str(meshType.value) else Null
  }

  function MeshEntity(url: string, meshType: Option<string>): Entity
  {
    Entity("mesh-surface-0", "Reconstructed Mesh",
           map["transform" := IdentityTransform,
               "meshSurface" := Obj(map["url" := Str(url), "type" := MeshTypeValue(meshType)]),
               "animation" := Obj(DefaultAnimation)])
  }

  /** A truthy mesh URL (`undefined`, `null` and `""` are not). */
  predicate HasMesh(meshUrl: Option<string>)
  {
    meshUrl.Some? && meshUrl.value != ""
  }

  /** `buildSceneFromGaussianData(gaussianData, meshUrl, meshType)`. */
  function BuildScene(now: int, gaussianData: Option<Cloud>, meshUrl: Option<string>, meshType: Option<string>): Scene
  {
    var scene := EmptyScene(now);
    if gaussianData.None? then scene
    else
      var center := SceneCenter(gaussianData.value);
      var cloud := GaussianEntity(gaussianData.value, center);
      var entities := if HasMesh(meshUrl) then [cloud, MeshEntity(meshUrl.value, meshType)] else [cloud];
      var camera := scene.settings.camera + map["suggestedCenter" := VecValue(center)];
      scene.(entities := entities, settings := scene.settings.(camera := camera))
  }

  /** Without data the scene is the empty scene. */
  lemma BuildWithoutData(now: int, meshUrl: Option<string>, meshType: Option<string>)
    ensures BuildScene(now, None, meshUrl, meshType) == EmptyScene(now)
    ensures BuildScene(now, None, meshUrl, meshType).entities == []
  {
  }

  /** With data: the cloud entity first, then a mesh entity exactly when a
      mesh URL is given, typed `meshType || null`; only the camera settings
      differ from the empty scene. */
  lemma BuildEntities(now: int, d: Cloud, meshUrl: Option<string>, meshType: Option<string>)
    ensures var s := BuildScene(now, Some(d), meshUrl, meshType);
            |s.entities| == (if HasMesh(meshUrl) then 2 else 1)
            && s.entities[0].id == "gaussian-cloud-0"
            && (HasMesh(meshUrl) ==>
                  s.entities[1].id == "mesh-surface-0"
                  && s.entities[1].components["meshSurface"]
                     == Obj(map["url" := Str(meshUrl.value), "type" := MeshTypeValue(meshType)]))
            && s.id == EmptyScene(now).id && s.meta == EmptyScene(now).meta
            && s.settings.(camera := EmptyScene(now).settings.camera) == EmptyScene(now).settings
  {
  }

  /** The one centre appears both in the cloud component and as the
      camera's suggested centre. */
  lemma BuildCenterShared(now: int, d: Cloud, meshUrl: Option<string>, meshType: Option<string>)
    ensures var s := BuildScene(now, Some(d), meshUrl, meshType);
            var cloud := s.entities[0].components["gaussianCloud"];
            cloud.Obj? && "center" in cloud.fields
            && cloud.fields["center"] == s.settings.camera["suggestedCenter"] == VecValue(SceneCenter(d))
  {
  }

  /** `enableDynamics(scene, enabled, options)`: `enabled` then `options`
      spread over the dynamics record. */
  function EnableDynamics(scene: Scene, enabled: bool, options: Record): Scene
  {
    var dynamics := scene.settings.dynamics + map["enabled" := Bool(enabled)] + options;
    scene.(settings := scene.settings.(dynamics := dynamics))
  }

  /** `options.enabled` wins over `enabled`; every other dynamics key is kept
      unless `options` names it; nothing outside the dynamics record changes. */
  lemma EnableDynamicsFields(scene: Scene, enabled: bool, options: Record)
    ensures var n := EnableDynamics(scene, enabled, options);
            var dyn := n.settings.dynamics;
            dyn["enabled"] == (if "enabled" in options then options["enabled"] else Bool(enabled))
            && (forall k :: k in options ==> k in dyn && dyn[k] == options[k])
            && (forall k :: k in scene.settings.dynamics && k != "enabled" && k !in options ==>
                  k in dyn && dyn[k] == scene.settings.dynamics[k])
            && dyn.Keys == scene.settings.dynamics.Keys + {"enabled"} + options.Keys
            && n.(settings := n.settings.(dynamics := scene.settings.dynamics)) == scene
  {
  }

  /** Which settings sub-record an update writes. */
  datatype Section = Rendering | Dynamics | Training

  function SectionOf(s: Settings, section: Section): Record
  {
    match section
    case Rendering => s.rendering
    case Dynamics => s.dynamics
    case Training => s.training
  }

  function WithSection(s: Settings, section: Section, r: Record): Settings
  {
    match section
    case Rendering => s.(rendering := r)
    case Dynamics => s.(dynamics := r)
    case Training => s.(training := r)
  }

  /** `updateRenderingSettings`, `updateDynamicsSettings` and
      `updateTrainingSettings`: `partial` spread over one sub-record. */
  function UpdateSettings(scene: Scene, section: Section, partial: Record): (n: Scene)
    ensures n.id == scene.id && n.meta == scene.meta && n.entities == scene.entities
    ensures n.settings.camera == scene.settings.camera
    ensures forall other :: other != section ==> SectionOf(n.settings, other) == SectionOf(scene.settings, other)
    ensures var before, after := SectionOf(scene.settings, section), SectionOf(n.settings, section);
            after.Keys == before.Keys + partial.Keys
            && (forall k :: k in partial ==> k in after && after[k] == partial[k])
            && (forall k :: k in before && k !in partial ==> k in after && after[k] == before[k])
  {
    var before := SectionOf(scene.settings, section);
    var settings := WithSection(scene.settings, section, before + partial);
    SpreadFields(before, partial);
    WithSectionFrames(scene.settings, section, before + partial);
    scene.(settings := settings)
  }

  /** `{...before, ...partial}` key by key. */
  lemma SpreadFields(before: Record, partial: Record)
    ensures var after := before + partial;
            after.Keys == before.Keys + partial.Keys
            && (forall k :: k in partial ==> k in after && after[k] == partial[k])
            && (forall k :: k in before && k !in partial ==> k in after && after[k] == before[k])
  {
  }

  /** Writing one section leaves the camera and the other sections alone. */
  lemma WithSectionFrames(s: Settings, section: Section, r: Record)
    ensures SectionOf(WithSection(s, section, r), section) == r
    ensures WithSection(s, section, r).camera == s.camera
    ensures forall other :: other != section ==> SectionOf(WithSection(s, section, r), other) == SectionOf(s, other)
  {
  }

  function UpdateRenderingSettings(scene: Scene, partial: Record): Scene
  {
    UpdateSettings(scene, Rendering, partial)
  }

  function UpdateDynamicsSettings(scene: Scene, partial: Record): Scene
  {
    UpdateSettings(scene, Dynamics, partial)
  }

  function UpdateTrainingSettings(scene: Scene, partial: Record): Scene
  {
    UpdateSettings(scene, Training, partial)
  }

  /** Applying the same partial update twice is applying it once, and two
      updates of one section are one update with the merged partial. */
  lemma {:induction false} UpdateSettingsComposes(scene: Scene, section: Section, p: Record, q: Record)
    ensures UpdateSettings(UpdateSettings(scene, section, p), section, p) == UpdateSettings(scene, section, p)
    ensures UpdateSettings(UpdateSettings(scene, section, p), section, q) == UpdateSettings(scene, section, p + q)
  {
    var r := SectionOf(scene.settings, section);
    assert r + p + p == r + p;
    assert r + p + q == r + (p + q);
  }

  /** `enableDynamics` is a dynamics update with `{enabled, ...options}`. */
  lemma EnableDynamicsIsUpdate(scene: Scene, enabled: bool, options: Record)
    ensures EnableDynamics(scene, enabled, options)
            == UpdateDynamicsSettings(scene, map["enabled" := Bool(enabled)] + options)
  {
    var r := scene.settings.dynamics;
    assert r + map["enabled" := Bool(enabled)] + options == r + (map["enabled" := Bool(enabled)] + options);
  }

  /** The animation record a matching entity ends up with. */
  function ToggledAnimation(components: Record, enabled: bool, overrides: Record): Record
  {
    var current := if "animation" in components && Truthy(components["animation"])
                   then Spread(components["animation"]) else DefaultAnimation;
    current + map["enabled" := Bool(enabled)] + overrides
  }

  function ToggleOne(e: Entity, entityId: string, enabled: bool, overrides: Record): Entity
  {
    if e.id != entityId then e
    else e.(components := e.components["animation" := Obj(ToggledAnimation(e.components, enabled, overrides))])
  }

  /** `toggleEntityAnimation(scene, entityId, enabled, overrides)`. */
  function ToggleEntityAnimation(scene: Scene, entityId: string, enabled: bool, overrides: Record): (n: Scene)
    ensures n.id == scene.id && n.meta == scene.meta && n.settings == scene.settings
    ensures |n.entities| == |scene.entities|
    ensures forall i :: 0 <= i < |n.entities| ==> n.entities[i].id == scene.entities[i].id
    ensures forall i :: 0 <= i < |n.entities| && scene.entities[i].id != entityId ==> n.entities[i] == scene.entities[i]
  {
    scene.(entities := seq(|scene.entities|, i requires 0 <= i < |scene.entities| =>
                             ToggleOne(scene.entities[i], entityId, enabled, overrides)))
  }

  /** `{...current, enabled, ...overrides}` key by key. */
  lemma AnimationSpread(current: Record, enabled: bool, overrides: Record)
    ensures var anim := current + map["enabled" := Bool(enabled)] + overrides;
            anim.Keys == current.Keys + {"enabled"} + overrides.Keys
            && anim["enabled"] == (if "enabled" in overrides then overrides["enabled"] else Bool(enabled))
            && (forall k :: k in overrides ==> anim[k] == overrides[k])
            && (forall k :: k in current && k != "enabled" && k !in overrides ==> anim[k] == current[k])
  {
  }

  /** The toggled animation: the current one when it is truthy, else the
      default, then `enabled`, then `overrides`. */
  lemma ToggledAnimationFields(components: Record, enabled: bool, overrides: Record)
    ensures var anim := ToggledAnimation(components, enabled, overrides);
            var cur := if "animation" in components && Truthy(components["animation"])
                       then Spread(components["animation"]) else DefaultAnimation;
            anim.Keys == cur.Keys + {"enabled"} + overrides.Keys
            && anim["enabled"] == (if "enabled" in overrides then overrides["enabled"] else Bool(enabled))
            && (forall k :: k in overrides ==> anim[k] == overrides[k])
            && (forall k :: k in cur && k != "enabled" && k !in overrides ==> anim[k] == cur[k])
  {
    var cur := if "animation" in components && Truthy(components["animation"])
               then Spread(components["animation"]) else DefaultAnimation;
    AnimationSpread(cur, enabled, overrides);
  }

  /** A matching entity keeps its name and its other components; its
      animation is the current one (or the default when it has none), then
      `enabled`, then `overrides`. */
  lemma ToggleMatching(scene: Scene, entityId: string, enabled: bool, overrides: Record, i: nat)
    requires i < |scene.entities| && scene.entities[i].id == entityId
    ensures var e, e2 := scene.entities[i], ToggleEntityAnimation(scene, entityId, enabled, overrides).entities[i];
            e2.name == e.name && e2.components.Keys == e.components.Keys + {"animation"}
            && (forall c :: c in e.components && c != "animation" ==> e2.components[c] == e.components[c])
            && e2.components["animation"].Obj?
            && var anim := e2.components["animation"].fields;
               anim["enabled"] == (if "enabled" in overrides then overrides["enabled"] else Bool(enabled))
               && (forall k :: k in overrides ==> anim[k] == overrides[k])
               && ("animation" !in e.components || !Truthy(e.components["animation"]) ==>
                     anim.Keys == DefaultAnimation.Keys + {"enabled"} + overrides.Keys
                     && forall k :: k in DefaultAnimation && k != "enabled" && k !in overrides ==>
                          anim[k] == DefaultAnimation[k])
               && ("animation" in e.components && Truthy(e.components["animation"]) ==>
                     var cur := Spread(e.components["animation"]);
                     anim.Keys == cur.Keys + {"enabled"} + overrides.Keys
                     && forall k :: k in cur && k != "enabled" && k !in overrides ==> anim[k] == cur[k])
  {
    var e := scene.entities[i];
    var e2 := ToggleEntityAnimation(scene, entityId, enabled, overrides).entities[i];
    assert e2 == ToggleOne(e, entityId, enabled, overrides);
    assert e2.components == e.components["animation" := Obj(ToggledAnimation(e.components, enabled, overrides))];
    ToggledAnimationFields(e.components, enabled, overrides);
  }

  /** Spreading the same two records again changes nothing. */
  lemma SpreadAgain(a: Record, b: Record, c: Record)
    ensures a + b + c + b + c == a + b + c
  {
  }

  lemma {:induction false} ToggleOneIdempotent(e: Entity, entityId: string, enabled: bool, overrides: Record)
    ensures ToggleOne(ToggleOne(e, entityId, enabled, overrides), entityId, enabled, overrides)
            == ToggleOne(e, entityId, enabled, overrides)
  {
    if e.id == entityId {
      var anim := ToggledAnimation(e.components, enabled, overrides);
      var comps := e.components["animation" := Obj(anim)];
      var current := if "animation" in e.components && Truthy(e.components["animation"])
                     then Spread(e.components["animation"]) else DefaultAnimation;
      var on := map["enabled" := Bool(enabled)];
      assert anim == current + on + overrides;
      assert comps["animation"] == Obj(anim);
      assert ToggledAnimation(comps, enabled, overrides) == anim + on + overrides;
      SpreadAgain(current, on, overrides);
      assert comps["animation" := Obj(anim)] == comps;
    }
  }

  /** Toggling twice with the same arguments is toggling once. */
  lemma ToggleIdempotent(scene: Scene, entityId: string, enabled: bool, overrides: Record)
    ensures var once := ToggleEntityAnimation(scene, entityId, enabled, overrides);
            ToggleEntityAnimation(once, entityId, enabled, overrides) == once
  {
    var once := ToggleEntityAnimation(scene, entityId, enabled, overrides);
    var twice := ToggleEntityAnimation(once, entityId, enabled, overrides);
    forall i | 0 <= i < |once.entities|
      ensures twice.entities[i] == once.entities[i]
    {
      ToggleOneIdempotent(scene.entities[i], entityId, enabled, overrides);
    }
    assert twice.entities == once.entities;
  }
}
