/** What a normalised bundle holds besides its tensors, and when normalising is asked for, name by name. */
module CheckpointFiles {
  import opened Wrappers
  import opened JsonValues
  import opened Safetensors
  import opened Checkpoint
  import opened CheckpointTheorems

  // ---------------------------------------------------------------- names

  predicate EndsInSafetensors(name: string) { |name| >= 12 && name[|name| - 12..] == ".safetensors" }

  predicate IsHidden(name: string) { |name| > 0 && name[0] == '.' }

  /** The part of a tensor's name before the first dot is `root`. */
  predicate Under(name: string, root: string) { name == root || root + "." <= name }

  predicate HasDot(s: string) { '.' in s }

  lemma {:induction false} RootIsUnder(name: string, root: string)
    requires !HasDot(root)
    ensures Root(name) == root <==> Under(name, root)
  {
    if name != "" && name[0] != '.' && root != "" {
      var rest := root[1..];
      assert root == [root[0]] + rest && name == [name[0]] + name[1..];
      assert forall c | c in rest :: c in root;
      RootIsUnder(name[1..], rest);
      assert root + "." == [root[0]] + (rest + ".");
      assert Under(name, root) <==> name[0] == root[0] && Under(name[1..], rest);
    } else {
      assert "" + "." == ".";
      assert root != "" ==> root[0] in root && (root + ".")[0] == root[0];
    }
  }

  /** The four kinds of backbone tensors get the prefix, and no other tensor does. */
  lemma PrefixedExactly(name: string)
    ensures Prefixed(name) ==
      if Under(name, "embed_tokens") || Under(name, "layers") || Under(name, "norm") || Under(name, "rotary_emb")
      then "model." + name else name
  {
    RootIsUnder(name, "embed_tokens");
    RootIsUnder(name, "layers");
    RootIsUnder(name, "norm");
    RootIsUnder(name, "rotary_emb");
    hide Root, Under;
  }

  predicate AnyUnder(names: seq<string>, root: string) { exists i | 0 <= i < |names| :: Under(names[i], root) }

  lemma AnyRootIsUnder(names: seq<string>, root: string)
    requires !HasDot(root)
    ensures AnyHasRoot(names, root) <==> AnyUnder(names, root)
  {
    hide Root, Under;
    forall i | 0 <= i < |names|
      ensures Root(names[i]) == root <==> Under(names[i], root)
    {
      RootIsUnder(names[i], root);
    }
  }

  // ---------------------------------------------------------------- when there is something to do

  /** Tensors of the backbone are there, and none has the prefix. */
  ghost predicate LacksPrefix(names: seq<string>) {
    && (forall i | 0 <= i < |names| :: !("model." <= names[i]))
    && (AnyUnder(names, "embed_tokens") || AnyUnder(names, "layers") || AnyUnder(names, "norm")
      || AnyUnder(names, "rotary_emb"))
  }

  /** The config says that the embeddings are not tied, and there is no output head. */
  ghost predicate PromisesAHead(config: Members, names: seq<string>) {
    Get(config, "tie_word_embeddings") == Some(Bool(false)) && !AnyUnder(names, "lm_head")
  }

  lemma MissingIsLacking(names: seq<string>)
    ensures Missing(names) <==> LacksPrefix(names)
  {
    AnyRootIsUnder(names, "embed_tokens");
    AnyRootIsUnder(names, "layers");
    AnyRootIsUnder(names, "norm");
    AnyRootIsUnder(names, "rotary_emb");
    hide Under, Root, AnyUnder;
    assert AnyHasPrefix(names) <==> exists i | 0 <= i < |names| :: "model." <= names[i] by {
      assert BACKBONE_TENSOR_PREFIX == "model.";
    }
  }

  /** Normalising is asked for exactly when the prefix is missing or the config promises a head that is not there. */
  lemma NeedsExactly(host: Host, bundle: Bundle)
    requires ListsAll(host) && Inspect(host, bundle).Success?
    ensures var layout := Inspect(host, bundle).value;
      && (layout.backbonePrefixMissing <==> LacksPrefix(layout.tensorNames))
      && (layout.NeedsTieReconciliation() <==> PromisesAHead(bundle.config, layout.tensorNames))
      && (layout.NeedsNormalization()
          <==> LacksPrefix(layout.tensorNames) || PromisesAHead(bundle.config, layout.tensorNames))
  {
    InspectIs(host, bundle);
    var layout := Inspect(host, bundle).value;
    MissingIsLacking(layout.tensorNames);
    AnyRootIsUnder(layout.tensorNames, "lm_head");
    hide Inspect, ListsAll, TensorInventory, Missing, LacksPrefix, AnyUnder, AnyHasRoot;
    assert layout.hasLmHead <==> AnyUnder(layout.tensorNames, "lm_head");
    assert layout.declaresTied == Some(false) <==> Get(bundle.config, "tie_word_embeddings") == Some(Bool(false));
  }

  /** A decoder has layers and embeddings, bare or under the prefix, if its architecture does not say so already. */
  lemma DecoderExactly(host: Host, layout: Layout)
    ensures IsDecoder(host, layout) <==>
      || (exists i | 0 <= i < |layout.architectures| :: host.marksDecoder(layout.architectures[i]))
      || (&& (AnyUnder(layout.tensorNames, "layers") || AnyUnder(layout.tensorNames, "model.layers"))
          && (AnyUnder(layout.tensorNames, "embed_tokens") || AnyUnder(layout.tensorNames, "model.embed_tokens")))
  {
    NoDots();
    hide HasDecoderRoot, AnyUnder, HasDot;
    DecoderRoot(layout.tensorNames, "layers", "model.layers");
    DecoderRoot(layout.tensorNames, "embed_tokens", "model.embed_tokens");
  }

  lemma NoDots()
    ensures !HasDot("layers") && !HasDot("embed_tokens")
    ensures "model." + "layers" == "model.layers" && "model." + "embed_tokens" == "model.embed_tokens"
  {}

  lemma DecoderRoot(names: seq<string>, root: string, inner: string)
    requires !HasDot(root) && inner == "model." + root
    ensures HasDecoderRoot(names, root) <==> AnyUnder(names, root) || AnyUnder(names, inner)
  {
    AnyRootIsUnder(names, root);
    AnyRootIsUnder(names, MODEL);
    hide Root, HasDecoderRoot;
    forall i | 0 <= i < |names|
      ensures HasPrefix(names[i]) && InnerRoot(names[i]) == root <==> Under(names[i], "model." + root)
      ensures HasPrefix(names[i]) ==> Under(names[i], MODEL)
    {
      InnerIsUnder(names[i], root);
    }
    hide Under, HasPrefix, InnerRoot;
    DecoderRootOf(names, root);
  }

  lemma DecoderRootOf(names: seq<string>, root: string)
    requires AnyHasRoot(names, root) <==> AnyUnder(names, root)
    requires AnyHasRoot(names, MODEL) <==> AnyUnder(names, MODEL)
    requires forall i | 0 <= i < |names| ::
      && (HasPrefix(names[i]) && InnerRoot(names[i]) == root <==> Under(names[i], "model." + root))
      && (HasPrefix(names[i]) ==> Under(names[i], MODEL))
    ensures HasDecoderRoot(names, root) <==> AnyUnder(names, root) || AnyUnder(names, "model." + root)
  {
    hide Under, HasPrefix, InnerRoot, Root, AnyHasRoot;
  }

  lemma InnerIsUnder(name: string, root: string)
    requires !HasDot(root)
    ensures HasPrefix(name) && InnerRoot(name) == root <==> Under(name, "model." + root)
    ensures HasPrefix(name) ==> Under(name, MODEL)
  {
    assert MODEL + "." == BACKBONE_TENSOR_PREFIX == "model.";
    if HasPrefix(name) {
      var rest := name[6..];
      assert name == "model." + rest;
      RootIsUnder(rest, root);
      assert "model." + root + "." == "model." + (root + ".");
      assert Under(name, "model." + root) <==> Under(rest, root);
    } else {
      assert forall s: string :: !("model." + s <= name) by {
        forall s: string ensures "model." + s <= name ==> "model." <= name {}
      }
      assert "model." + root + "." == "model." + (root + ".");
    }
  }

  // ---------------------------------------------------------------- which shards an index may name

  /** A file name of a shard, and no path. */
  predicate IsShardName(v: Json) { v.Str? && EndsInSafetensors(v.s) && '/' !in v.s && '\\' !in v.s }

  lemma SafeNames(v: Json)
    requires v.Str?
    ensures IsSafeName(v.s) <==> IsShardName(v)
  {
    SuffixIs(v.s);
    hide HasWeightSuffix, EndsInSafetensors;
  }

  /** An index is accepted exactly when each of its shards is a file name of the bundle. */
  lemma {:induction false} IndexAcceptedExactly(files: set<string>, weightMap: Members, n: nat)
    requires n <= |weightMap|
    ensures ValidatedShardNames(files, weightMap, n).Success?
      <==> forall i | 0 <= i < n :: IsShardName(weightMap[i].value) && weightMap[i].value.s in files
  {
    hide IsSafeName, IsShardName;
    if n > 0 {
      IndexAcceptedExactly(files, weightMap, n - 1);
      if weightMap[n - 1].value.Str? {
        SafeNames(weightMap[n - 1].value);
      } else {
        NoShardName(weightMap[n - 1].value);
      }
    }
  }

  lemma NoShardName(v: Json)
    requires !v.Str?
    ensures !IsShardName(v)
  {}

  /** Its shards are then listed, each once. */
  lemma {:induction false} ShardsAreListed(files: set<string>, weightMap: Members, n: nat)
    requires n <= |weightMap| && ValidatedShardNames(files, weightMap, n).Success?
    ensures var shards := ValidatedShardNames(files, weightMap, n).value;
      && (forall name :: name in shards <==> exists i | 0 <= i < n :: weightMap[i].value == Str(name))
      && forall i, j | 0 <= i < j < |shards| :: shards[i] != shards[j]
  {
    hide IsSafeName;
    if n > 0 { ShardsAreListed(files, weightMap, n - 1); }
  }

  lemma SuffixIs(name: string)
    ensures HasWeightSuffix(name) <==> EndsInSafetensors(name)
  {}

  // ---------------------------------------------------------------- the other files

  /** Neither a shard nor hidden: tokenizers, templates and the like. */
  predicate IsSupportFile(name: string) { !EndsInSafetensors(name) && !IsHidden(name) }

  /** The weight files: those of the index, or without one every shard that is not hidden. */
  lemma WeightFilesAre(host: Host, bundle: Bundle, layout: Layout, name: string)
    requires ListsAll(host)
    ensures name in WeightFiles(host, bundle, layout) <==>
      && name in bundle.files
      && if |layout.shardNames| > 0 then name in layout.shardNames else EndsInSafetensors(name) && !IsHidden(name)
  {
    SuffixIs(name);
    hide ListsAll, HasWeightSuffix;
  }

  lemma WrittenAre(codec: Codec, prefix: bool, files: map<string, Bytes>, weightFiles: seq<string>)
    requires forall i | 0 <= i < |weightFiles| :: weightFiles[i] in files
    requires WrittenShards(codec, prefix, files, weightFiles, |weightFiles|).Success?
    ensures var written := WrittenShards(codec, prefix, files, weightFiles, |weightFiles|).value;
      && (forall name :: name in written <==> name in weightFiles)
      && forall name | name in written ::
           name in files && NewShard(codec, prefix, files[name]) == Success(written[name])
  {
    hide NewShard;
    WrittenAreUpTo(codec, prefix, files, weightFiles, |weightFiles|);
    assert weightFiles[..|weightFiles|] == weightFiles;
  }

  lemma {:induction false} WrittenAreUpTo(codec: Codec, prefix: bool, files: map<string, Bytes>,
                                          weightFiles: seq<string>,
                                          n: nat)
    requires n <= |weightFiles| && forall i | 0 <= i < |weightFiles| :: weightFiles[i] in files
    requires WrittenShards(codec, prefix, files, weightFiles, n).Success?
    ensures var written := WrittenShards(codec, prefix, files, weightFiles, n).value;
      && (forall name :: name in written <==> name in weightFiles[..n])
      && forall name | name in written ::
           name in files && NewShard(codec, prefix, files[name]) == Success(written[name])
  {
    hide NewShard;
    if n > 0 {
      WrittenAreUpTo(codec, prefix, files, weightFiles, n - 1);
      assert weightFiles[..n] == weightFiles[..n - 1] + [weightFiles[n - 1]];
    }
  }

  lemma WeightFilesAreShards(host: Host, bundle: Bundle, name: string)
    requires ListsAll(host) && Inspect(host, bundle).Success?
    ensures name in WeightFiles(host, bundle, Inspect(host, bundle).value)
      ==> name in bundle.files && EndsInSafetensors(name)
  {
    var layout := Inspect(host, bundle).value;
    WeightFilesAre(host, bundle, layout, name);
    InspectIs(host, bundle);
    var weightMap := WeightMap(bundle.index);
    IndexAcceptedExactly(bundle.files.Keys, weightMap, |weightMap|);
    SuffixIs(name);
    if |weightMap| > 0 { ShardsAreListed(bundle.files.Keys, weightMap, |weightMap|); }
    hide ListsAll, WeightFiles, Inspect, HasWeightSuffix, EndsInSafetensors, ValidatedShardNames, WeightMap,
      NamesInShards;
    if |weightMap| > 0 && name in layout.shardNames {
      var i :| 0 <= i < |weightMap| && weightMap[i].value == Str(name);
      assert IsShardName(weightMap[i].value);
    }
  }

  lemma OutputFilesAre(host: Host, bundle: Bundle)
    requires Sane(host, bundle) && CanNormalize(host, bundle)
    ensures Normalize(host, bundle).Success? && Normalize(host, bundle).value.Some? && Inspect(host, bundle).Success?
    ensures var layout := Inspect(host, bundle).value;
      var weightFiles := WeightFiles(host, bundle, layout);
      var written := WrittenShards(host.codec, layout.backbonePrefixMissing, bundle.files, weightFiles, |weightFiles|);
      written.Success? && Normalize(host, bundle).value.value
        == Bundle(NewConfig(bundle.config, layout), NewIndex(bundle.index, layout),
                  SupportFiles(bundle.files, weightFiles) + written.value)
  {
    hide Faithful, ListsAll, Inspect, WeightFiles, Normalize, CanNormalize, WeightMap, NewConfig, NewIndex,
      SupportFiles, WrittenShards;
    NormalizesExactly(host, bundle);
    NormalizedIs(host, bundle);
  }

  /** Every support file is in the output with its old bytes; what else is there is a weight file. */
  lemma SupportFilesAreKept(host: Host, bundle: Bundle, name: string)
    requires Sane(host, bundle) && CanNormalize(host, bundle)
    ensures Normalize(host, bundle).Success? && Normalize(host, bundle).value.Some?
    ensures var out := Normalize(host, bundle).value.value;
      var weightFiles := WeightFiles(host, bundle, Inspect(host, bundle).value);
      && (name in out.files <==> name in weightFiles || (name in bundle.files && IsSupportFile(name)))
      && (name in bundle.files && IsSupportFile(name) ==> out.files[name] == bundle.files[name])
  {
    OutputFilesAre(host, bundle);
    WeightFilesAreShards(host, bundle, name);
    var layout := Inspect(host, bundle).value;
    var weightFiles := WeightFiles(host, bundle, layout);
    SuffixIs(name);
    hide Faithful, ListsAll, Inspect, WeightFiles, Normalize, CanNormalize, HasWeightSuffix, EndsInSafetensors,
      WeightMap, NewConfig, NewIndex;
    WrittenAre(host.codec, layout.backbonePrefixMissing, bundle.files, weightFiles);
    hide WrittenShards, NewShard;
  }

  /** When only the tie is reconciled, every weight file keeps its bytes. */
  lemma ShardsAreKept(host: Host, bundle: Bundle, name: string)
    requires Sane(host, bundle) && CanNormalize(host, bundle) && !Inspect(host, bundle).value.backbonePrefixMissing
    requires name in WeightFiles(host, bundle, Inspect(host, bundle).value)
    ensures Normalize(host, bundle).Success? && Normalize(host, bundle).value.Some?
    ensures var out := Normalize(host, bundle).value.value;
      name in bundle.files && name in out.files && out.files[name] == bundle.files[name]
  {
    OutputFilesAre(host, bundle);
    var weightFiles := WeightFiles(host, bundle, Inspect(host, bundle).value);
    hide Faithful, ListsAll, Inspect, WeightFiles, Normalize, CanNormalize, WeightMap, NewConfig, NewIndex,
      SupportFiles;
    WrittenAre(host.codec, false, bundle.files, weightFiles);
    hide WrittenShards;
  }

  /** Nothing of the config changes but the tie, and that only where the config promises a head that is not there. */
  lemma ConfigIsKept(host: Host, bundle: Bundle, key: string)
    requires Sane(host, bundle) && CanNormalize(host, bundle)
    ensures Normalize(host, bundle).Success? && Normalize(host, bundle).value.Some?
    ensures var out := Normalize(host, bundle).value.value;
      Get(out.config, key)
      == if key == "tie_word_embeddings" && PromisesAHead(bundle.config, Inspect(host, bundle).value.tensorNames)
         then Some(Bool(true)) else Get(bundle.config, key)
  {
    OutputFilesAre(host, bundle);
    NeedsExactly(host, bundle);
    var layout := Inspect(host, bundle).value;
    EmptyHasNothing(key);
    hide Faithful, ListsAll, Inspect, WeightFiles, Normalize, CanNormalize, WeightMap, NewIndex, SupportFiles,
      WrittenShards, AnyUnder, LacksPrefix, Get, Put;
    if layout.NeedsTieReconciliation() {
      PutThenGet(bundle.config, TIE_KEY, Bool(true), key);
      EmptyHasNothing("tie_word_embeddings");
    }
  }

  lemma EmptyHasNothing(key: string)
    ensures Get([], key) == None
  {}

  /** Nor of the index but the weight map; a bundle whose index lists nothing gets none. */
  lemma IndexIsKept(host: Host, bundle: Bundle, key: string)
    requires Sane(host, bundle) && CanNormalize(host, bundle) && key != "weight_map"
    ensures Normalize(host, bundle).Success? && Normalize(host, bundle).value.Some?
    ensures var out := Normalize(host, bundle).value.value;
      if ListsTensors(bundle.index) then Get(out.index, key) == Get(bundle.index, key) else out.index == []
  {
    OutputFilesAre(host, bundle);
    InspectIs(host, bundle);
    var layout := Inspect(host, bundle).value;
    var weightMap := WeightMap(bundle.index);
    assert ListsTensors(bundle.index) <==> |weightMap| > 0;
    hide Faithful, ListsAll, Inspect, WeightFiles, Normalize, CanNormalize, NewConfig, SupportFiles, WrittenShards,
      Get, Put, WeightMap, ValidatedShardNames, NamesInShards, ListsTensors, RenamedMap;
    assert layout.hasIndex <==> |weightMap| > 0;
    PutThenGet(bundle.index, WEIGHT_MAP_KEY, Obj(RenamedMap(layout.backbonePrefixMissing, weightMap, |weightMap|)),
      key);
  }

  /** The index maps at least one tensor. */
  ghost predicate ListsTensors(index: Members) {
    match Get(index, "weight_map") case Some(Obj(weightMap)) => |weightMap| > 0 case _ => false
  }

  // ---------------------------------------------------------------- configs and headers

  /** The strings of a list, the keys of a dictionary, the characters of a string; anything else cannot be iterated. */
  ghost predicate Names(architectures: Option<Json>, names: seq<string>) {
    match architectures
    case None => names == []
    case Some(Arr(items)) => names == StringsOf(items)
    case Some(Obj(members)) => |names| == |members| && forall i | 0 <= i < |names| :: names[i] == members[i].key
    case Some(Str(s)) => |names| == |s| && forall i | 0 <= i < |names| :: names[i] == [s[i]]
    case Some(_) => false
  }

  ghost function StringsOf(items: seq<Json>): seq<string> {
    if |items| == 0 then []
    else
      var last := items[|items| - 1];
      StringsOf(items[..|items| - 1]) + if last.Str? then [last.s] else []
  }

  lemma {:induction false} TextsSnoc(items: seq<Json>, last: Json)
    ensures Texts(items + [last]) == Texts(items) + if last.Str? then [last.s] else []
  {
    var all := items + [last];
    if |items| == 0 {
      assert all == [last] && all[1..] == [];
    } else {
      assert all[0] == items[0] && all[1..] == items[1..] + [last];
      TextsSnoc(items[1..], last);
    }
  }

  lemma {:induction false} TextsAreStrings(items: seq<Json>)
    ensures Texts(items) == StringsOf(items)
  {
    if |items| > 0 {
      var front, last := items[..|items| - 1], items[|items| - 1];
      TextsAreStrings(front);
      TextsSnoc(front, last);
      assert items == front + [last];
    }
  }

  lemma ArchitecturesExactly(config: Members, names: seq<string>)
    ensures Architectures(config) == Success(names) <==> Names(Get(config, "architectures"), names)
    ensures Architectures(config).Failure? <==> forall any :: !Names(Get(config, "architectures"), any)
  {
    hide Texts, StringsOf;
    match Get(config, "architectures")
    case None => assert Names(Get(config, "architectures"), []);
    case Some(Arr(items)) =>
      TextsAreStrings(items);
      assert Names(Get(config, "architectures"), StringsOf(items));
    case Some(Obj(members)) =>
      var keys := seq(|members|, i requires 0 <= i < |members| => members[i].key);
      assert Names(Get(config, "architectures"), keys);
      assert Names(Get(config, "architectures"), names) ==> names == keys;
    case Some(Str(s)) =>
      var letters := seq(|s|, i requires 0 <= i < |s| => [s[i]]);
      assert Names(Get(config, "architectures"), letters);
      assert Names(Get(config, "architectures"), names) ==> names == letters;
    case Some(_) =>
  }

  /** The tensors of a header are its keys but for the metadata, in order. */
  lemma {:induction false} TensorsAreKeys(entries: Members, name: string)
    ensures name in TensorKeys(entries) <==> name != "__metadata__" && name in Keys(entries)
  {
    if |entries| > 0 {
      Unfold(entries);
      TensorsAreKeys(entries[1..], name);
    }
  }

  /**
    A shard's header is read exactly when the file holds as many bytes as its first eight announce, and
    they are a dictionary.
    */
  lemma HeaderReadExactly(codec: Codec, file: Bytes)
    ensures ReadHeader(codec, file) == Failure(Truncated) <==> |file| < 8
    ensures |file| >= 8 ==>
      var length := FromLittleEndian(file[..8]);
      && (ReadHeader(codec, file) == Failure(HeaderTooLarge) <==> 8 + length > |file|)
      && (8 + length <= |file| ==>
            var decoded := codec.loads(file[8..8 + length]);
            && (ReadHeader(codec, file) == Failure(Unreadable) <==> decoded.None?)
            && (ReadHeader(codec, file) == Failure(NotAnObject) <==> decoded.Some? && !decoded.value.Obj?)
            && forall entries ::
                 ReadHeader(codec, file) == Success(Header(entries, 8 + length)) <==> decoded == Some(Obj(entries)))
  {
    hide FromLittleEndian;
  }
}
