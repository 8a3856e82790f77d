/** Which feature admits which setting, and which circumstances make a profile stale. */
module ServingProfileReadings {
  import opened Wrappers
  import opened JsonValues
  import opened ServingProfiles

  // ---------------------------------------------------------------- settings

  /** What a runtime must offer for a setting to be taken. */
  ghost predicate Admitted(runtime: Runtime, key: string) {
    || key == "runtime_policy"
    || (key in {"continuous_batch_window_milliseconds", "continuous_batch_max_batch_size"}
      && runtime.continuousBatching)
    || (key in {"kv_cache_page_size", "kv_cache_max_pages"} && "paged_kv_cache" in runtime.features)
    || (key == "kv_cache_quantization_bits" && "kv_cache_quantization" in runtime.features)
    || (key == "gpu_offload_layers" && "kv_offload" in runtime.features)
    || (key == "prefill_token_batch_size" && "prefill_optimization" in runtime.features)
    || (key == "mlx_graph_compile_enabled" && "graph_compilation" in runtime.features)
    || (key == "mlx_attention_kernel_mode" && "attention_kernel_acceleration" in runtime.features)
  }

  lemma SupportedIsAdmitted(runtime: Runtime, key: string)
    ensures IsSupported(runtime, key) <==> Admitted(runtime, key)
  {}

  /** The ten settings a profile may override. */
  lemma SettingsSpelledOut(key: string)
    ensures key in SETTING_KEYS <==>
      || key == "runtime_policy"
      || key == "continuous_batch_window_milliseconds" || key == "continuous_batch_max_batch_size"
      || key == "kv_cache_page_size" || key == "kv_cache_max_pages" || key == "kv_cache_quantization_bits"
      || key == "gpu_offload_layers" || key == "prefill_token_batch_size" || key == "mlx_graph_compile_enabled"
      || key == "mlx_attention_kernel_mode"
  {}

  /** A selected profile takes exactly the recognised overrides that the runtime admits, and refuses the others. */
  lemma TakenExactlyWhenAdmitted(host: Host, settings: Settings, request: Request, key: string)
    requires Complete(settings) && request.profile.Some? && DistinctKeys(request.profile.value.overrides)
    requires Resolved(host, settings, request).Success? && Resolved(host, settings, request).value.status == Selected
    ensures var r := Resolved(host, settings, request).value;
      var given := key in SETTING_KEYS && key in Keys(request.profile.value.overrides);
      && (key in r.accepted <==> given && Admitted(request.runtime, key))
      && (key in r.rejected <==> given && !Admitted(request.runtime, key))
  {
    SupportedIsAdmitted(request.runtime, key);
    SelectedProfilePartitionsOverrides(host, settings, request);
    hide IsSupported, Admitted, Resolved, NormalizedPreset;
    var r := Resolved(host, settings, request).value;
    assert key in r.accepted.Keys + r.rejected.Keys <==> key in Keys(request.profile.value.overrides) * SETTING_KEYS;
  }

  // ---------------------------------------------------------------- circumstances

  /** What a profile is measured in. */
  datatype Circumstances = Circumstances(around: Surroundings, runtime: string, workloadClass: string, preset: string)

  ghost predicate Differ(a: Option<string>, b: Option<string>) { a.Some? && b.Some? && a.value != b.value }

  ghost function RevisionOf(around: Surroundings): Option<string> {
    match around.manifest case Some(m) => m.revision case None => None
  }

  /** The quantization, or else the precision of the weights. */
  ghost function PrecisionOf(around: Surroundings): Option<string> {
    match around.manifest
    case Some(Manifest(_, Some(quantization), _)) => Some(quantization)
    case Some(Manifest(_, None, weights)) => weights
    case None => None
  }

  /** One of the eight circumstances is known on both sides and has changed. */
  ghost predicate Changed(a: Circumstances, b: Circumstances) {
    || a.around.hostDigest != b.around.hostDigest
    || a.runtime != b.runtime
    || Differ(a.around.engineProfile, b.around.engineProfile)
    || Differ(a.around.engineServer, b.around.engineServer)
    || Differ(RevisionOf(a.around), RevisionOf(b.around))
    || Differ(PrecisionOf(a.around), PrecisionOf(b.around))
    || a.workloadClass != b.workloadClass
    || a.preset != b.preset
  }

  /** The fingerprint of normal circumstances. */
  ghost function Measured(host: Host, c: Circumstances): seq<Input> {
    Fingerprint(host, c.around, c.runtime, Some(c.workloadClass), c.preset)
  }

  ghost predicate IsNormal(host: Host, c: Circumstances) {
    NormalizedClass(host, Some(c.workloadClass)) == Some(c.workloadClass)
  }

  lemma MeasuredAt(host: Host, a: Circumstances, b: Circumstances, i: nat)
    requires i < 8 && IsNormal(host, a) && IsNormal(host, b)
    ensures |Measured(host, a)| == |Measured(host, b)| == 8
    ensures Measured(host, a)[i].name == Measured(host, b)[i].name
  {
    hide NormalizedClass, Precision;
  }

  lemma AnyDiffers(host: Host, a: Circumstances, b: Circumstances)
    requires IsNormal(host, a) && IsNormal(host, b)
    ensures (exists i | 0 <= i < 8 :: Differ(Measured(host, a)[i].value, Measured(host, b)[i].value)) <==> Changed(a, b)
  {
    hide NormalizedClass, IsNormal;
    assert NormalizedClass(host, Some(a.workloadClass)) == Some(a.workloadClass) by { NormalIs(host, a); }
    assert NormalizedClass(host, Some(b.workloadClass)) == Some(b.workloadClass) by { NormalIs(host, b); }
    var x, y := Measured(host, a), Measured(host, b);
    assert Differ(x[0].value, y[0].value) <==> a.around.hostDigest != b.around.hostDigest;
    assert Differ(x[1].value, y[1].value) <==> a.runtime != b.runtime;
    assert Differ(x[2].value, y[2].value) <==> Differ(a.around.engineProfile, b.around.engineProfile);
    assert Differ(x[3].value, y[3].value) <==> Differ(a.around.engineServer, b.around.engineServer);
    assert Differ(x[4].value, y[4].value) <==> Differ(RevisionOf(a.around), RevisionOf(b.around));
    assert Differ(x[5].value, y[5].value) <==> Differ(PrecisionOf(a.around), PrecisionOf(b.around));
    assert Differ(x[6].value, y[6].value) <==> a.workloadClass != b.workloadClass;
    assert Differ(x[7].value, y[7].value) <==> a.preset != b.preset;
    hide Fingerprint, Measured, Differ, RevisionOf, PrecisionOf;
    forall i | 0 <= i < 8 && Differ(x[i].value, y[i].value) ensures Changed(a, b) {
      assert i == 0 || i == 1 || i == 2 || i == 3 || i == 4 || i == 5 || i == 6 || i == 7;
    }
  }

  lemma NormalIs(host: Host, c: Circumstances)
    requires IsNormal(host, c)
    ensures NormalizedClass(host, Some(c.workloadClass)) == Some(c.workloadClass)
  {}

  /** A stored input is stale exactly when it is known on both sides and differs. */
  lemma StaleIsDiffering(host: Host, stored: seq<Input>, current: seq<Input>, i: nat)
    requires i < |stored| && |current| == |stored| && stored[i].name == current[i].name && DistinctInputs(stored)
    requires forall s :: host.text(Str(s)) == s
    ensures IsStale(host, Stored(stored), current[i]) <==> Differ(stored[i].value, current[i].value)
  {
    var members := Stored(stored);
    assert DistinctKeys(members);
    LookupAt(members, i);
  }

  /** The circumstances of a request for an answered profile: those of its stored workload class. */
  ghost function Now(host: Host, request: Request): Circumstances
    requires Answered(host, request)
  {
    Circumstances(request.around, request.runtime.name, ResolvedClass(host, request, request.profile.value),
      NormalizedPreset(host, request.preset).value)
  }

  /** A profile with the fingerprint of some circumstances is stale exactly when one of the eight has changed. */
  lemma StaleExactlyWhenCircumstancesChange(host: Host, settings: Settings, request: Request, then_: Circumstances)
    requires Answered(host, request) && IsNormal(host, then_) && IsNormal(host, Now(host, request))
    requires request.profile.value.fingerprint == Some(Stored(Measured(host, then_)))
    requires forall s :: host.text(Str(s)) == s
    ensures Resolved(host, settings, request).Success? && Resolved(host, settings, request).value.status == Stale
      <==> Changed(then_, Now(host, request))
  {
    StaleExactlyWhenAnInputDiffers(host, settings, request);
    var now := Now(host, request);
    FingerprintNamesApart(host, then_.around, then_.runtime, Some(then_.workloadClass), then_.preset);
    hide Resolved, NormalizedClass, NormalizedPreset, ResolvedClass, Answered, IsNormal, Fingerprint, Stored, IsStale,
      Differ;
    forall i | 0 <= i < 8
      ensures |Measured(host, then_)| == |Measured(host, now)| == 8
      ensures IsStale(host, Stored(Measured(host, then_)), Measured(host, now)[i])
        <==> Differ(Measured(host, then_)[i].value, Measured(host, now)[i].value)
    {
      MeasuredAt(host, then_, now, i);
      StaleIsDiffering(host, Measured(host, then_), Measured(host, now), i);
    }
    AnyDiffers(host, then_, now);
    MeasuredAt(host, then_, now, 0);
  }

  // ---------------------------------------------------------------- names and statuses

  /** The names a workload class goes by, once folded; any other name stands for itself. */
  lemma AliasesSpelledOut(name: string)
    ensures ClassNamed(name) ==
      if name == "text" || name == "text-only" then "text_only"
      else if name == "text-only-multimodal" then "text_only_multimodal"
      else if name == "single-image" then "single_image"
      else if name == "repeated-image" then "repeated_image"
      else if name == "frame-bundle-video" || name == "frame_bundle" || name == "frame-bundle" || name == "video"
      then "frame_bundle_video"
      else if name == "audio-conditioned" || name == "audio" then "audio_conditioned"
      else name
  {}

  /** A request without a preset is interactive; only two presets are known. */
  lemma PresetsSpelledOut(host: Host, name: string)
    ensures NormalizedPreset(host, None) == Success("interactive")
    ensures NormalizedPreset(host, Some(name)) ==
      if host.foldedPreset(name) == "interactive" then Success("interactive")
      else if host.foldedPreset(name) == "throughput" then Success("throughput")
      else Failure(UnknownPreset)
  {}

  /** The status, case by case; an unknown preset is refused before anything else. */
  lemma StatusExactly(host: Host, settings: Settings, request: Request)
    requires Resolved(host, settings, request).Success?
    ensures NormalizedPreset(host, request.preset).Success?
    ensures var status := Resolved(host, settings, request).value.status;
      && (status == Disabled <==> !request.apply)
      && (status == Unavailable <==> request.apply && !request.storeAvailable)
      && (status == NotFound <==> request.apply && request.storeAvailable && request.profile.None?)
      && (status == RuntimeMismatch <==>
            && request.apply && request.storeAvailable && request.profile.Some?
            && request.profile.value.runtime.Some?
            && request.profile.value.runtime.value !in {"", request.runtime.name})
  {
    hide NormalizedPreset, NormalizedClass, Fingerprint, StaleInputs, Sanitized, Chosen, Requested, Updated;
  }
}
