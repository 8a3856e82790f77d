/**
  Applying a persisted serving profile to a request: which overrides are taken, which are refused, and
  when the measurement behind them no longer counts.
  */
module ServingProfiles {
  import opened Wrappers
  import opened JsonValues

  type Settings = map<string, Json>

  datatype Status = Selected | Disabled | NotFound | RuntimeMismatch | Stale | Unavailable

  datatype Application = Application(
    status: Status,
    workloadClass: string,
    preset: string,
    staleInputs: map<string, (string, string)>,
    accepted: map<string, Json>,
    rejected: map<string, Json>,
    effective: Settings)

  datatype Runtime = Runtime(name: string, continuousBatching: bool, features: set<string>)

  /** The stored payload: the runtime and workload it was measured on, its fingerprint and its overrides. */
  datatype Profile = Profile(
    runtime: Option<string>,
    workloadClass: Option<string>,
    fingerprint: Option<Members>,
    overrides: Members)

  /** One input of a fingerprint, None where it is unknown. */
  datatype Input = Input(name: string, value: Option<string>)

  datatype Manifest = Manifest(revision: Option<string>, quantization: Option<string>, weightPrecision: Option<string>)

  /** What a fingerprint is taken of, besides the runtime's name: the host's digest, the engine and the model. */
  datatype Surroundings = Surroundings(
    hostDigest: string,
    engineProfile: Option<string>,
    engineServer: Option<string>,
    manifest: Option<Manifest>)

  /**
    `str(value)` on stored inputs, what settings validation makes of one value, and the text that names
    of workload classes and of presets are compared by.
    */
  datatype Host = Host(
    text: Json -> string,
    validated: (string, Json) -> Option<Json>,
    foldedClass: string -> string,
    foldedPreset: string -> string)

  datatype ProfileError = InvalidSettings | UnknownPreset

  const SETTING_KEYS: set<string> := {
    "runtime_policy", "continuous_batch_window_milliseconds", "continuous_batch_max_batch_size",
    "kv_cache_page_size", "kv_cache_max_pages", "kv_cache_quantization_bits", "gpu_offload_layers",
    "prefill_token_batch_size", "mlx_graph_compile_enabled", "mlx_attention_kernel_mode"
  }

  // ---------------------------------------------------------------- fingerprints

  const TEXT_ONLY := "text_only"
  const TEXT_ONLY_MULTIMODAL := "text_only_multimodal"
  const SINGLE_IMAGE := "single_image"
  const REPEATED_IMAGE := "repeated_image"
  const FRAME_BUNDLE_VIDEO := "frame_bundle_video"
  const AUDIO_CONDITIONED := "audio_conditioned"
  const INTERACTIVE := "interactive"
  const THROUGHPUT := "throughput"

  /** The class a name is an alias of. */
  function ClassNamed(name: string): string {
    if name in {"text", "text_only", "text-only"} then TEXT_ONLY
    else if name in {"text_only_multimodal", "text-only-multimodal"} then TEXT_ONLY_MULTIMODAL
    else if name in {"single_image", "single-image"} then SINGLE_IMAGE
    else if name in {"repeated_image", "repeated-image"} then REPEATED_IMAGE
    else if name in {"frame_bundle_video", "frame-bundle-video", "frame_bundle", "frame-bundle", "video"}
      then FRAME_BUNDLE_VIDEO
    else if name in {"audio_conditioned", "audio-conditioned", "audio"} then AUDIO_CONDITIONED
    else name
  }

  /** `normalize_serving_profile_workload_class`. */
  function NormalizedClass(host: Host, name: Option<string>): Option<string> {
    if name.None? || host.foldedClass(name.value) == "" then None else Some(ClassNamed(host.foldedClass(name.value)))
  }

  function ClassOrDefault(class_: Option<string>): string {
    if class_.None? then TEXT_ONLY else class_.value
  }

  /** `normalize_serving_profile_preset`. */
  function NormalizedPreset(host: Host, name: Option<string>): Result<string, ProfileError> {
    if name.None? then Success(INTERACTIVE)
    else if host.foldedPreset(name.value) in {INTERACTIVE, THROUGHPUT} then Success(host.foldedPreset(name.value))
    else Failure(UnknownPreset)
  }

  function Precision(manifest: Option<Manifest>): Option<string> {
    if manifest.None? then None
    else if manifest.value.quantization.Some? then manifest.value.quantization
    else manifest.value.weightPrecision
  }

  /** `serving_profile_fingerprint`, of a preset already normalised. */
  function Fingerprint(host: Host, around: Surroundings, runtime: string, class_: Option<string>, preset: string)
    : seq<Input>
  {
    [Input("host", Some(around.hostDigest)),
     Input("runtime", Some(runtime)),
     Input("engine_profile", around.engineProfile),
     Input("engine_server", around.engineServer),
     Input("model_revision", if around.manifest.Some? then around.manifest.value.revision else None),
     Input("precision", Precision(around.manifest)),
     Input("workload_class", Some(ClassOrDefault(NormalizedClass(host, class_)))),
     Input("preset", Some(preset))]
  }

  lemma FingerprintNamesApart(host: Host, around: Surroundings, runtime: string, class_: Option<string>, preset: string)
    ensures DistinctInputs(Fingerprint(host, around, runtime, class_, preset))
  {
    hide NormalizedClass, Precision;
    var current := Fingerprint(host, around, runtime, class_, preset);
    forall i, j | 0 <= i < j < |current| ensures current[i].name != current[j].name {
      assert |current[i].name| != |current[j].name| || current[i].name[0] != current[j].name[0];
    }
  }

  predicate IsNamedClass(class_: string) {
    class_ in {TEXT_ONLY, TEXT_ONLY_MULTIMODAL, SINGLE_IMAGE, REPEATED_IMAGE, FRAME_BUNDLE_VIDEO, AUDIO_CONDITIONED}
  }

  /** Folding a name twice is folding it once, and the names of the classes are folded. */
  ghost predicate Folds(host: Host) {
    && (forall name {:trigger host.foldedClass(name)} ::
          host.foldedClass(host.foldedClass(name)) == host.foldedClass(name))
    && (forall name | IsNamedClass(name) :: host.foldedClass(name) == name)
  }

  /** A class that a profile can be measured for: what was asked for, normalised, or one of the six. */
  ghost predicate IsClass(host: Host, class_: string) {
    IsNamedClass(class_) || exists name :: NormalizedClass(host, Some(name)) == Some(class_)
  }

  /** Such a class is normalised to itself. */
  lemma NormalizedOnce(host: Host, class_: string)
    requires Folds(host) && IsClass(host, class_)
    ensures NormalizedClass(host, Some(class_)) == Some(class_)
  {
    if !IsNamedClass(class_) {
      var name :| NormalizedClass(host, Some(name)) == Some(class_);
      assert host.foldedClass(host.foldedClass(name)) == host.foldedClass(name);
    }
  }

  // ---------------------------------------------------------------- staleness

  /** What was recorded of an input, None if nothing was. */
  function Recorded(host: Host, stored: Members, name: string): Option<string> {
    match Get(stored, name)
    case None => None
    case Some(Null) => None
    case Some(v) => Some(host.text(v))
  }

  predicate IsStale(host: Host, stored: Members, input: Input) {
    var recorded := Recorded(host, stored, input.name);
    recorded.Some? && input.value.Some? && recorded.value != input.value.value
  }

  function StaleAmong(host: Host, stored: Members, current: seq<Input>, n: nat): map<string, (string, string)>
    requires n <= |current|
  {
    if n == 0 then map[]
    else
      var before := StaleAmong(host, stored, current, n - 1);
      var input := current[n - 1];
      if IsStale(host, stored, input)
      then before[input.name := (Recorded(host, stored, input.name).value, input.value.value)]
      else before
  }

  /** `_stale_fingerprint_inputs`; a profile without a fingerprint stays usable. */
  function StaleInputs(host: Host, stored: Option<Members>, current: seq<Input>): map<string, (string, string)> {
    match stored
    case None => map[]
    case Some(members) => StaleAmong(host, members, current, |current|)
  }

  method StaleFingerprintInputs(host: Host, stored: Option<Members>, current: seq<Input>)
    returns (stale: map<string, (string, string)>)
    ensures stale == StaleInputs(host, stored, current)
  {
    stale := map[];
    if stored.None? { return; }
    for i := 0 to |current|
      invariant stale == StaleAmong(host, stored.value, current, i)
    {
      var Input(name, value) := current[i];
      if name !in Keys(stored.value) { continue; }
      var recorded := Recorded(host, stored.value, name);
      if recorded.None? || value.None? { continue; }
      if recorded.value != value.value { stale := stale[name := (recorded.value, value.value)]; }
    }
  }

  ghost predicate DistinctInputs(current: seq<Input>) {
    forall i, j | 0 <= i < j < |current| :: current[i].name != current[j].name
  }

  /** An input is stale exactly when it is known on both sides and differs. */
  lemma {:induction false} StaleExactlyWhenKnownAndDifferent(host: Host, stored: Members, current: seq<Input>, n: nat,
                                                             i: nat)
    requires i < n <= |current| && DistinctInputs(current)
    ensures current[i].name in StaleAmong(host, stored, current, n) <==> IsStale(host, stored, current[i])
    decreases n
  {
    if i < n - 1 {
      StaleExactlyWhenKnownAndDifferent(host, stored, current, n - 1, i);
    } else if current[i].name in StaleAmong(host, stored, current, n - 1) {
      OnlyNamesAreStale(host, stored, current, n - 1, current[i].name);
    }
  }

  lemma {:induction false} OnlyNamesAreStale(host: Host, stored: Members, current: seq<Input>, n: nat, name: string)
    requires n <= |current| && name in StaleAmong(host, stored, current, n)
    ensures exists i :: 0 <= i < n && current[i].name == name && IsStale(host, stored, current[i])
  {
    if n > 0 && name in StaleAmong(host, stored, current, n - 1) {
      OnlyNamesAreStale(host, stored, current, n - 1, name);
    }
  }

  /** A fingerprint as it is stored. */
  function Stored(current: seq<Input>): Members {
    seq(|current|, i requires 0 <= i < |current| =>
      Member(current[i].name, if current[i].value.Some? then Str(current[i].value.value) else Null))
  }

  /** Against its own record no input is stale. */
  lemma OwnRecordIsNotStale(host: Host, current: seq<Input>)
    requires DistinctInputs(current) && forall s :: host.text(Str(s)) == s
    ensures StaleInputs(host, Some(Stored(current)), current) == map[]
  {
    var stored := Stored(current);
    var stale := StaleInputs(host, Some(stored), current);
    forall name | name in stale ensures false {
      OnlyNamesAreStale(host, stored, current, |current|, name);
      var i :| 0 <= i < |current| && current[i].name == name && IsStale(host, stored, current[i]);
      LookupAt(stored, i);
    }
    assert stale.Keys == {};
  }

  // ---------------------------------------------------------------- overrides

  /** `_setting_rejection_reason` is None. */
  predicate IsSupported(runtime: Runtime, key: string) {
    if key == "runtime_policy" then true
    else if key == "continuous_batch_window_milliseconds" || key == "continuous_batch_max_batch_size" then
      runtime.continuousBatching
    else if key == "kv_cache_page_size" || key == "kv_cache_max_pages" then "paged_kv_cache" in runtime.features
    else if key == "kv_cache_quantization_bits" then "kv_cache_quantization" in runtime.features
    else if key == "gpu_offload_layers" then "kv_offload" in runtime.features
    else if key == "prefill_token_batch_size" then "prefill_optimization" in runtime.features
    else if key == "mlx_graph_compile_enabled" then "graph_compilation" in runtime.features
    else key == "mlx_attention_kernel_mode" && "attention_kernel_acceleration" in runtime.features
  }

  function Sanitized(overrides: Members): Members {
    if |overrides| == 0 then []
    else (if overrides[0].key in SETTING_KEYS then [overrides[0]] else []) + Sanitized(overrides[1..])
  }

  function Requested(overrides: Members): map<string, Json> {
    map k | k in Keys(overrides) :: Lookup(overrides, k)
  }

  function Chosen(runtime: Runtime, overrides: Members, taken: bool): map<string, Json> {
    map k | k in Keys(overrides) && IsSupported(runtime, k) == taken :: Lookup(overrides, k)
  }

  /** The settings with the accepted values in place; validation may coerce a value or refuse it. */
  function Updated(host: Host, current: Settings, accepted: map<string, Json>): Result<Settings, ProfileError> {
    if exists k | k in accepted :: host.validated(k, accepted[k]).None? then Failure(InvalidSettings)
    else Success(map k | k in current :: if k in accepted then host.validated(k, accepted[k]).value else current[k])
  }

  /**
    What is asked for: whether profiles apply, the workload and preset, the store's answer, and the
    circumstances now.
    */
  datatype Request = Request(
    apply: bool,
    storeAvailable: bool,
    workloadClass: Option<string>,
    preset: Option<string>,
    profile: Option<Profile>,
    runtime: Runtime,
    around: Surroundings)

  predicate RuntimeDiffers(profile: Profile, runtime: Runtime) {
    profile.runtime.Some? && profile.runtime.value != "" && profile.runtime.value != runtime.name
  }

  function RequestedClass(host: Host, request: Request): string {
    ClassOrDefault(NormalizedClass(host, request.workloadClass))
  }

  /** The stored workload class replaces the requested one. */
  function ResolvedClass(host: Host, request: Request, profile: Profile): string {
    match NormalizedClass(host, profile.workloadClass)
    case Some(stored) => stored
    case None => RequestedClass(host, request)
  }

  /** The inputs as they are now, for the workload the profile was measured on. */
  function CurrentInputs(host: Host, request: Request, profile: Profile, preset: string): seq<Input> {
    Fingerprint(host, request.around, request.runtime.name, Some(ResolvedClass(host, request, profile)), preset)
  }

  function Unchanged(host: Host, status: Status, request: Request, preset: string, settings: Settings): Application {
    Application(status, RequestedClass(host, request), preset, map[], map[], map[], settings)
  }

  /** The profile's overrides, once the store has answered. */
  function Applied(host: Host, settings: Settings, request: Request, profile: Profile, preset: string)
    : Result<Application, ProfileError>
  {
    var overrides := Sanitized(profile.overrides);
    var class_ := ResolvedClass(host, request, profile);
    if RuntimeDiffers(profile, request.runtime) then
      Success(Application(RuntimeMismatch, class_, preset, map[], map[], Requested(overrides), settings))
    else
      var stale := StaleInputs(host, profile.fingerprint, CurrentInputs(host, request, profile, preset));
      if stale != map[] then Success(Application(Stale, class_, preset, stale, map[], Requested(overrides), settings))
      else
        var accepted := Chosen(request.runtime, overrides, true);
        match Updated(host, settings, accepted)
        case Failure(e) => Failure(e)
        case Success(effective) =>
          Success(Application(Selected, class_, preset, map[], accepted, Chosen(request.runtime, overrides, false),
            effective))
  }

  /** `resolve_serving_profile_application`. */
  function Resolved(host: Host, settings: Settings, request: Request): Result<Application, ProfileError> {
    match NormalizedPreset(host, request.preset)
    case Failure(e) => Failure(e)
    case Success(preset) =>
      if !request.apply then Success(Unchanged(host, Disabled, request, preset, settings))
      else if !request.storeAvailable then Success(Unchanged(host, Unavailable, request, preset, settings))
      else
        match request.profile
        case None => Success(Unchanged(host, NotFound, request, preset, settings))
        case Some(profile) => Applied(host, settings, request, profile, preset)
  }

  lemma PrefixKeys(overrides: Members, i: nat)
    requires i < |overrides| && DistinctKeys(overrides)
    ensures Keys(overrides[..i + 1]) == Keys(overrides[..i]) + {overrides[i].key}
    ensures overrides[i].key !in Keys(overrides[..i])
    ensures Lookup(overrides, overrides[i].key) == overrides[i].value
  {
    KeysOfConcat(overrides[..i], [overrides[i]]);
    assert overrides[..i + 1] == overrides[..i] + [overrides[i]];
    assert Keys([overrides[i]]) == {overrides[i].key} by { assert [overrides[i]][0].key in Keys([overrides[i]]); }
    LookupAt(overrides, i);
  }

  lemma KeysOfConcat(a: Members, b: Members)
    ensures Keys(a + b) == Keys(a) + Keys(b)
  {
    forall k ensures k in Keys(a + b) <==> k in Keys(a) || k in Keys(b) {
      if k in Keys(a) { var i :| 0 <= i < |a| && a[i].key == k; assert (a + b)[i].key == k; }
      if k in Keys(b) { var i :| 0 <= i < |b| && b[i].key == k; assert (a + b)[|a| + i].key == k; }
    }
  }

  /** The part of the overrides up to `n`, as the loop has sorted it. */
  ghost function ChosenSoFar(runtime: Runtime, overrides: Members, n: nat, taken: bool): map<string, Json>
    requires n <= |overrides|
  {
    map k | k in Keys(overrides[..n]) && k in Keys(overrides)
      && IsSupported(runtime, k) == taken :: Lookup(overrides, k)
  }

  lemma NothingChosenYet(runtime: Runtime, overrides: Members)
    ensures forall taken :: ChosenSoFar(runtime, overrides, 0, taken) == map[]
  {
    hide IsSupported;
    assert Keys(overrides[..0]) == {};
  }

  lemma AllChosen(runtime: Runtime, overrides: Members)
    ensures forall taken :: ChosenSoFar(runtime, overrides, |overrides|, taken) == Chosen(runtime, overrides, taken)
  {
    hide IsSupported;
    assert overrides[..|overrides|] == overrides;
  }

  lemma ChosenStep(runtime: Runtime, overrides: Members, i: nat, taken: bool)
    requires i < |overrides| && DistinctKeys(overrides)
    ensures var before := ChosenSoFar(runtime, overrides, i, taken);
      ChosenSoFar(runtime, overrides, i + 1, taken)
      == if IsSupported(runtime, overrides[i].key) == taken then before[overrides[i].key := overrides[i].value]
        else before
  {
    hide IsSupported, DistinctKeys;
    PrefixKeys(overrides, i);
    assert overrides[i].key in Keys(overrides);
  }

  method SplitOverrides(runtime: Runtime, overrides: Members)
    returns (accepted: map<string, Json>, rejected: map<string, Json>)
    requires DistinctKeys(overrides)
    ensures accepted == Chosen(runtime, overrides, true) && rejected == Chosen(runtime, overrides, false)
  {
    hide IsSupported, ChosenSoFar, Chosen;
    NothingChosenYet(runtime, overrides);
    accepted, rejected := map[], map[];
    for i := 0 to |overrides|
      invariant accepted == ChosenSoFar(runtime, overrides, i, true)
      invariant rejected == ChosenSoFar(runtime, overrides, i, false)
    {
      var Member(key, value) := overrides[i];
      ChosenStep(runtime, overrides, i, true);
      ChosenStep(runtime, overrides, i, false);
      if IsSupported(runtime, key) {
        accepted := accepted[key := value];
      } else {
        rejected := rejected[key := value];
      }
    }
    AllChosen(runtime, overrides);
  }

  method RejectAll(overrides: Members) returns (rejected: map<string, Json>)
    requires DistinctKeys(overrides)
    ensures rejected == Requested(overrides)
  {
    rejected := map[];
    for i := 0 to |overrides|
      invariant rejected.Keys == Keys(overrides[..i])
      invariant forall k | k in rejected :: k in Keys(overrides) && rejected[k] == Lookup(overrides, k)
    {
      PrefixKeys(overrides, i);
      assert overrides[i].key in Keys(overrides);
      rejected := rejected[overrides[i].key := overrides[i].value];
    }
    assert overrides[..|overrides|] == overrides;
  }

  lemma {:induction false} SanitizedIs(overrides: Members)
    requires DistinctKeys(overrides)
    ensures DistinctKeys(Sanitized(overrides))
    ensures Keys(Sanitized(overrides)) == Keys(overrides) * SETTING_KEYS
    ensures forall k | k in Keys(Sanitized(overrides)) :: Lookup(Sanitized(overrides), k) == Lookup(overrides, k)
  {
    if |overrides| > 0 {
      Unfold(overrides);
      SanitizedIs(overrides[1..]);
      if overrides[0].key in SETTING_KEYS {
        Unfold(Sanitized(overrides));
        assert Sanitized(overrides)[1..] == Sanitized(overrides[1..]);
      } else {
        assert Sanitized(overrides) == Sanitized(overrides[1..]);
      }
    }
  }

  method ResolveServingProfileApplication(host: Host, settings: Settings, request: Request)
    returns (r: Result<Application, ProfileError>)
    requires request.profile.Some? ==> DistinctKeys(request.profile.value.overrides)
    ensures r == Resolved(host, settings, request)
  {
    hide Requested, Chosen, Updated, Sanitized, StaleInputs, NormalizedClass, NormalizedPreset, Fingerprint;
    var normalized := NormalizedPreset(host, request.preset);
    if normalized.Failure? { return Failure(normalized.error); }
    var preset := normalized.value;
    if !request.apply { return Success(Unchanged(host, Disabled, request, preset, settings)); }
    if !request.storeAvailable { return Success(Unchanged(host, Unavailable, request, preset, settings)); }
    if request.profile.None? { return Success(Unchanged(host, NotFound, request, preset, settings)); }
    var profile := request.profile.value;
    SanitizedIs(profile.overrides);
    var overrides := Sanitized(profile.overrides);
    var class_ := ResolvedClass(host, request, profile);
    if RuntimeDiffers(profile, request.runtime) {
      var refused := RejectAll(overrides);
      return Success(Application(RuntimeMismatch, class_, preset, map[], map[], refused, settings));
    }
    var stale := StaleFingerprintInputs(host, profile.fingerprint, CurrentInputs(host, request, profile, preset));
    if stale != map[] {
      var refused := RejectAll(overrides);
      return Success(Application(Stale, class_, preset, stale, map[], refused, settings));
    }
    var accepted, rejected := SplitOverrides(request.runtime, overrides);
    var effective := Updated(host, settings, accepted);
    if effective.Failure? { return Failure(effective.error); }
    r := Success(Application(Selected, class_, preset, map[], accepted, rejected, effective.value));
  }

  /** `serving_profile_requires_materialization`. */
  predicate RequiresMaterialization(application: Application, settings: Settings) {
    && application.status == Selected && application.accepted != map[]
    && exists k | k in application.accepted :: k !in settings || !PythonEqual(settings[k], application.accepted[k])
  }

  // ---------------------------------------------------------------- what an application says

  /** The settings of the request's own keys, every one of them present. */
  ghost predicate Complete(settings: Settings) { settings.Keys == SETTING_KEYS }

  /**
    A selected profile splits the recognised overrides in two, and the effective settings are overlaid
    with one part.
    */
  lemma SelectedProfilePartitionsOverrides(host: Host, settings: Settings, request: Request)
    requires Complete(settings) && request.profile.Some? && DistinctKeys(request.profile.value.overrides)
    requires Resolved(host, settings, request).Success? && Resolved(host, settings, request).value.status == Selected
    ensures var r := Resolved(host, settings, request).value;
      var overrides := request.profile.value.overrides;
      && r.accepted.Keys + r.rejected.Keys == Keys(overrides) * SETTING_KEYS && r.accepted.Keys !! r.rejected.Keys
      && (forall k | k in r.accepted :: IsSupported(request.runtime, k) && r.accepted[k] == Lookup(overrides, k))
      && (forall k | k in r.rejected :: !IsSupported(request.runtime, k) && r.rejected[k] == Lookup(overrides, k))
      && r.effective.Keys == settings.Keys
      && (forall k | k in r.effective ::
            if k in r.accepted then host.validated(k, r.accepted[k]) == Some(r.effective[k])
              else r.effective[k] == settings[k])
  {
    hide IsSupported, Sanitized, StaleInputs, Requested, NormalizedClass, NormalizedPreset, Fingerprint;
    SanitizedIs(request.profile.value.overrides);
  }

  /** In every other case no setting changes; a mismatch or a stale profile refuses every recognised override. */
  lemma OtherwiseNothingChanges(host: Host, settings: Settings, request: Request)
    requires Resolved(host, settings, request).Success? && Resolved(host, settings, request).value.status != Selected
    requires request.profile.Some? ==> DistinctKeys(request.profile.value.overrides)
    ensures var r := Resolved(host, settings, request).value;
      && r.effective == settings && r.accepted == map[] && !RequiresMaterialization(r, settings)
      && (r.status == RuntimeMismatch || r.status == Stale ==>
            request.profile.Some? && r.rejected.Keys == Keys(request.profile.value.overrides) * SETTING_KEYS)
      && (r.status == Stale <==> r.staleInputs != map[])
  {
    hide Sanitized, StaleInputs, Chosen, Updated, NormalizedClass, NormalizedPreset, Fingerprint;
    if request.profile.Some? { SanitizedIs(request.profile.value.overrides); }
  }

  /** The store answers a request that profiles apply to, with a profile of its own runtime. */
  predicate Answered(host: Host, request: Request) {
    && NormalizedPreset(host, request.preset).Success? && request.apply && request.storeAvailable
    && request.profile.Some? && !RuntimeDiffers(request.profile.value, request.runtime)
  }

  /**
    An answered request finds its profile stale exactly when one of the eight inputs is known on both
    sides and differs.
    */
  lemma StaleExactlyWhenAnInputDiffers(host: Host, settings: Settings, request: Request)
    ensures Resolved(host, settings, request).Success? && Resolved(host, settings, request).value.status == Stale
      <==> && Answered(host, request) && request.profile.value.fingerprint.Some?
           && var current := CurrentInputs(host, request, request.profile.value,
             NormalizedPreset(host, request.preset).value);
              exists i | 0 <= i < |current| :: IsStale(host, request.profile.value.fingerprint.value, current[i])
  {
    hide Sanitized, Chosen, Updated, Requested, NormalizedClass, NormalizedPreset, CurrentInputs, IsStale, StaleAmong;
    if Answered(host, request) && request.profile.value.fingerprint.Some? {
      var stored := request.profile.value.fingerprint.value;
      var preset := NormalizedPreset(host, request.preset).value;
      var current := CurrentInputs(host, request, request.profile.value, preset);
      AnyStale(host, stored, current);
    }
  }

  lemma AnyStale(host: Host, stored: Members, current: seq<Input>)
    ensures StaleAmong(host, stored, current, |current|) != map[]
      <==> exists i | 0 <= i < |current| :: IsStale(host, stored, current[i])
  {
    hide IsStale;
    var stale := StaleAmong(host, stored, current, |current|);
    if stale != map[] {
      var name :| name in stale;
      OnlyNamesAreStale(host, stored, current, |current|, name);
    }
    if i :| 0 <= i < |current| && IsStale(host, stored, current[i]) {
      StaleIsRecorded(host, stored, current, |current|, i);
    }
  }

  lemma {:induction false} StaleIsRecorded(host: Host, stored: Members, current: seq<Input>, n: nat, i: nat)
    requires i < n <= |current| && IsStale(host, stored, current[i])
    ensures current[i].name in StaleAmong(host, stored, current, n)
    decreases n
  {
    hide IsStale;
    if i < n - 1 { StaleIsRecorded(host, stored, current, n - 1, i); }
  }

  /** The profile as it is stored for a workload class, with the fingerprint taken when it was measured. */
  ghost predicate MeasuredHere(host: Host, request: Request, class_: string) {
    && NormalizedPreset(host, request.preset).Success? && request.profile.Some?
    && request.profile.value.workloadClass == Some(class_) && IsClass(host, class_)
    && request.profile.value.fingerprint
       == Some(Stored(Fingerprint(host, request.around, request.runtime.name, Some(class_),
                                  NormalizedPreset(host, request.preset).value)))
  }

  /** In the circumstances it was measured in a profile is never stale, whatever workload class is asked for. */
  lemma OwnFingerprintIsNeverStale(host: Host, settings: Settings, request: Request, class_: string)
    requires MeasuredHere(host, request, class_) && Folds(host) && forall s :: host.text(Str(s)) == s
    ensures Resolved(host, settings, request).Success? ==> Resolved(host, settings, request).value.status != Stale
  {
    NormalizedOnce(host, class_);
    hide Sanitized, Chosen, Updated, Requested, NormalizedClass, NormalizedPreset, Fingerprint, StaleInputs, Stored,
      Folds, IsClass;
    var preset := NormalizedPreset(host, request.preset).value;
    FingerprintNamesApart(host, request.around, request.runtime.name, Some(class_), preset);
    OwnRecordIsNotStale(host, Fingerprint(host, request.around, request.runtime.name, Some(class_), preset));
  }

  ghost predicate Differs(settings: Settings, effective: Settings)
    requires settings.Keys == effective.Keys
  {
    exists k | k in settings :: !PythonEqual(settings[k], effective[k])
  }

  /** Validation makes no given value equal to the current one, or different from it. */
  ghost predicate KeepsDifferences(settings: Settings, application: Application)
    requires application.accepted.Keys <= settings.Keys == application.effective.Keys
  {
    forall k | k in application.accepted ::
      PythonEqual(settings[k], application.accepted[k]) <==> PythonEqual(settings[k], application.effective[k])
  }

  /** The effective settings are the current ones but for the accepted keys. */
  ghost predicate IsOverlay(settings: Settings, r: Application) {
    && r.status == Selected && r.accepted.Keys <= settings.Keys == r.effective.Keys
    && forall k | k in settings && k !in r.accepted :: r.effective[k] == settings[k]
  }

  lemma Overlaid(settings: Settings, r: Application)
    requires IsOverlay(settings, r)
    ensures KeepsDifferences(settings, r) ==> (RequiresMaterialization(r, settings) <==> Differs(settings, r.effective))
    ensures |r.accepted| == 1 && (RequiresMaterialization(r, settings) <==> Differs(settings, r.effective)) ==>
              KeepsDifferences(settings, r)
  {
    hide DeepEqual;
    forall k | k in settings && k !in r.accepted ensures PythonEqual(settings[k], r.effective[k]) {
      EqualReflexive(false, settings[k]);
    }
    if |r.accepted| == 1 {
      var k :| k in r.accepted;
      assert |r.accepted.Keys - {k}| == 0;
      forall other | other in r.accepted ensures other == k {
        assert other !in r.accepted.Keys - {k};
      }
    }
  }

  /**
    Materialisation is required exactly when a setting changes, if validation keeps differences; for a
    single accepted override only if it does.
    */
  lemma MaterializedExactlyWhenChanged(host: Host, settings: Settings, request: Request)
    requires Complete(settings) && request.profile.Some? && DistinctKeys(request.profile.value.overrides)
    requires Resolved(host, settings, request).Success? && Resolved(host, settings, request).value.status == Selected
    ensures var r := Resolved(host, settings, request).value;
      && r.accepted.Keys <= settings.Keys == r.effective.Keys
      && (KeepsDifferences(settings, r) ==> (RequiresMaterialization(r, settings) <==> Differs(settings, r.effective)))
      && (|r.accepted| == 1 && (RequiresMaterialization(r, settings) <==> Differs(settings, r.effective)) ==>
            KeepsDifferences(settings, r))
  {
    SelectedProfilePartitionsOverrides(host, settings, request);
    hide Resolved, IsSupported, DeepEqual, KeepsDifferences, RequiresMaterialization, Differs, NormalizedPreset;
    assert IsOverlay(settings, Resolved(host, settings, request).value);
    Overlaid(settings, Resolved(host, settings, request).value);
  }

  /** A request answered by an old profile, without a fingerprint, that overrides one setting. */
  function OneOverride(runtime: Runtime, around: Surroundings, key: string, given: Json): Request {
    Request(true, true, None, None, Some(Profile(None, None, None, [Member(key, given)])), runtime, around)
  }

  /** Where validation coerces, materialisation can be required although nothing changes: say `"16"` for a 16. */
  lemma CoercionMaterializesNothing(host: Host, settings: Settings, runtime: Runtime, around: Surroundings, key: string,
                                    given: Json)
    requires Complete(settings) && key in SETTING_KEYS && IsSupported(runtime, key)
    requires host.validated(key, given) == Some(settings[key]) && !PythonEqual(settings[key], given)
    ensures var r := Resolved(host, settings, OneOverride(runtime, around, key, given));
      && r.Success? && r.value.status == Selected && r.value.accepted == map[key := given]
        && r.value.effective == settings
      && RequiresMaterialization(r.value, settings) && !Differs(settings, r.value.effective)
  {
    var request := OneOverride(runtime, around, key, given);
    var overrides := [Member(key, given)];
    assert Sanitized(overrides) == overrides;
    assert overrides[0].key in Keys(overrides);
    hide IsSupported, DeepEqual, Sanitized, Fingerprint, NormalizedClass;
    assert Chosen(runtime, overrides, true) == map[key := given];
    assert Updated(host, settings, map[key := given]).value == settings;
    assert NormalizedPreset(host, None) == Success(INTERACTIVE);
    forall k | k in settings ensures PythonEqual(settings[k], settings[k]) { EqualReflexive(false, settings[k]); }
  }
}
