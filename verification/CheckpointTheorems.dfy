/** One normalisation is enough, and it loses no tensor and moves none to another shard. */
module CheckpointTheorems {
  import opened Wrappers
  import opened JsonValues
  import opened Safetensors
  import opened Checkpoint

  // ---------------------------------------------------------------- names

  lemma {:induction false} RootOf(root: string, rest: string)
    requires '.' !in root
    ensures Root(root + "." + rest) == root
  {
    var name := root + "." + rest;
    if root != "" {
      RootOf(root[1..], rest);
      assert name[1..] == root[1..] + "." + rest;
      assert name[0] == root[0] && root[0] in root;
    }
  }

  lemma PrefixHasModelRoot(name: string)
    requires HasPrefix(name)
    ensures Root(name) == MODEL
  {
    assert BACKBONE_TENSOR_PREFIX == MODEL + ".";
    assert name == MODEL + "." + name[|BACKBONE_TENSOR_PREFIX|..];
    RootOf(MODEL, name[|BACKBONE_TENSOR_PREFIX|..]);
  }

  lemma RootsApart()
    ensures !IsBackboneRoot(MODEL) && !IsBackboneRoot(LM_HEAD) && MODEL != LM_HEAD
    ensures IsBackboneRoot("layers") && IsBackboneRoot("embed_tokens")
  {
    assert MODEL[0] == 'm' && LM_HEAD[0] == 'l' && LM_HEAD[1] == 'm';
    assert "embed_tokens"[0] == 'e' && "layers"[1] == 'a' && "norm"[0] == 'n' && "rotary_emb"[0] == 'r';
  }

  lemma PrefixedIs(name: string)
    ensures IsBackboneRoot(Root(name)) ==>
      HasPrefix(Prefixed(name)) && Root(Prefixed(name)) == MODEL && InnerRoot(Prefixed(name)) == Root(name)
    ensures !IsBackboneRoot(Root(name)) ==> Prefixed(name) == name
  {
    hide IsBackboneRoot;
    if IsBackboneRoot(Root(name)) {
      var p := Prefixed(name);
      assert p[|BACKBONE_TENSOR_PREFIX|..] == name;
      assert p[..|BACKBONE_TENSOR_PREFIX|] == BACKBONE_TENSOR_PREFIX;
      PrefixHasModelRoot(p);
    }
  }

  /** Two names meet exactly when one is the other, a backbone name, under the prefix. */
  lemma NamesMeetExactly(a: string, b: string)
    ensures Prefixed(a) == Prefixed(b) <==>
      || a == b
      || (IsBackboneRoot(Root(a)) && b == BACKBONE_TENSOR_PREFIX + a)
      || (IsBackboneRoot(Root(b)) && a == BACKBONE_TENSOR_PREFIX + b)
  {
    RootsApart();
    hide IsBackboneRoot;
    PrefixedIs(a);
    PrefixedIs(b);
    if IsBackboneRoot(Root(a)) && IsBackboneRoot(Root(b)) && Prefixed(a) == Prefixed(b) {
      assert Prefixed(a)[|BACKBONE_TENSOR_PREFIX|..] == a;
      assert Prefixed(b)[|BACKBONE_TENSOR_PREFIX|..] == b;
    }
  }

  /** So the renaming is injective on an inventory without the prefix. */
  lemma PrefixingIsInjective(a: string, b: string)
    requires !HasPrefix(a) && !HasPrefix(b) && Prefixed(a) == Prefixed(b)
    ensures a == b
  {
    hide IsBackboneRoot;
    NamesMeetExactly(a, b);
  }

  lemma PrefixKeepsMetadataApart()
    ensures KeepsMetadataApart(Prefixed)
  {
    forall key | key != METADATA_KEY ensures Prefixed(key) != METADATA_KEY {
      assert METADATA_KEY[0] == '_' && BACKBONE_TENSOR_PREFIX[0] == 'm';
    }
  }

  /** A shard's renaming fails exactly when its header holds a backbone name both bare and prefixed. */
  lemma ShardCollidesExactly(entries: Members)
    requires DistinctKeys(entries)
    ensures RenamedEntries(Prefixed, entries, |entries|).Failure? <==> exists name :: BareAndPrefixed(entries, name)
  {
    hide RenamedEntries, Prefixed, BareAndPrefixed, NewKey;
    PrefixKeepsMetadataApart();
    RenamingSucceedsExactly(Prefixed, entries, |entries|);
    if RenamedEntries(Prefixed, entries, |entries|).Failure? {
      var i, j :| 0 <= i < j < |entries| && NewKey(Prefixed, entries[i].key) == NewKey(Prefixed, entries[j].key);
      CollisionIsBareAndPrefixed(entries, i, j);
    }
    if name :| BareAndPrefixed(entries, name) { BareAndPrefixedCollide(entries, name); }
  }

  ghost predicate BareAndPrefixed(entries: Members, name: string) {
    name in Keys(entries) && IsBackboneRoot(Root(name)) && BACKBONE_TENSOR_PREFIX + name in Keys(entries)
  }

  lemma NewKeyIsPrefixed(key: string)
    ensures NewKey(Prefixed, key) == Prefixed(key)
  {
    MetadataIsNoBackbone();
  }

  lemma CollisionIsBareAndPrefixed(entries: Members, i: nat, j: nat)
    requires i < j < |entries| && DistinctKeys(entries)
    requires NewKey(Prefixed, entries[i].key) == NewKey(Prefixed, entries[j].key)
    ensures exists name :: BareAndPrefixed(entries, name)
  {
    hide IsBackboneRoot, Prefixed, Root, NewKey;
    NewKeyIsPrefixed(entries[i].key);
    NewKeyIsPrefixed(entries[j].key);
    NamesMeetExactly(entries[i].key, entries[j].key);
    assert entries[i].key in Keys(entries) && entries[j].key in Keys(entries);
    assert BareAndPrefixed(entries, entries[i].key) || BareAndPrefixed(entries, entries[j].key);
  }

  lemma BareAndPrefixedCollide(entries: Members, name: string)
    requires BareAndPrefixed(entries, name)
    ensures exists i, j ::
      0 <= i < j < |entries| && NewKey(Prefixed, entries[i].key) == NewKey(Prefixed, entries[j].key)
  {
    hide IsBackboneRoot, Prefixed, Root, NewKey;
    var prefixed := BACKBONE_TENSOR_PREFIX + name;
    var i :| 0 <= i < |entries| && entries[i].key == name;
    var j :| 0 <= j < |entries| && entries[j].key == prefixed;
    NewKeyIsPrefixed(name);
    NewKeyIsPrefixed(prefixed);
    NamesMeetExactly(name, prefixed);
    assert |name| < |prefixed|;
    if i < j { assert NewKey(Prefixed, entries[i].key) == NewKey(Prefixed, entries[j].key); }
    else { assert NewKey(Prefixed, entries[j].key) == NewKey(Prefixed, entries[i].key); }
  }

  lemma MetadataIsNoBackbone()
    ensures !IsBackboneRoot(Root(METADATA_KEY))
    ensures Prefixed(METADATA_KEY) == METADATA_KEY
  {
    assert METADATA_KEY[0] == '_';
    assert Root(METADATA_KEY)[0] == '_';
    assert "embed_tokens"[0] == 'e' && "layers"[0] == 'l' && "norm"[0] == 'n' && "rotary_emb"[0] == 'r';
  }

  // ---------------------------------------------------------------- an inventory and its renaming

  ghost function RenameAll(prefix: bool, names: seq<string>): (r: seq<string>)
    ensures |r| == |names|
  {
    seq(|names|, i requires 0 <= i < |names| => Renamed(prefix, names[i]))
  }

  lemma RenamedAt(names: seq<string>, i: nat)
    requires i < |names|
    ensures RenameAll(true, names)[i] == Prefixed(names[i])
  {}

  ghost predicate Missing(names: seq<string>) { !AnyHasPrefix(names) && AnyIsBackbone(names) }

  /** Once prefixed, the prefix is not missing. */
  lemma NotMissingAfter(names: seq<string>)
    requires AnyIsBackbone(names)
    ensures AnyHasPrefix(RenameAll(true, names))
  {
    hide IsBackboneRoot, HasPrefix;
    var i :| 0 <= i < |names| && IsBackboneRoot(Root(names[i]));
    PrefixedIs(names[i]);
    RenamedAt(names, i);
  }

  lemma SameHead(names: seq<string>)
    requires !AnyHasPrefix(names)
    ensures AnyHasRoot(RenameAll(true, names), LM_HEAD) == AnyHasRoot(names, LM_HEAD)
  {
    RootsApart();
    hide IsBackboneRoot, HasPrefix, Root, InnerRoot, Prefixed;
    forall i | 0 <= i < |names|
      ensures Root(RenameAll(true, names)[i]) == LM_HEAD <==> Root(names[i]) == LM_HEAD
    {
      PrefixedIs(names[i]);
      RenamedAt(names, i);
    }
  }

  lemma SameDecoderRoot(names: seq<string>, root: string)
    requires !AnyHasPrefix(names) && IsBackboneRoot(root)
    ensures HasDecoderRoot(RenameAll(true, names), root) == HasDecoderRoot(names, root)
  {
    RootsApart();
    hide IsBackboneRoot, HasPrefix, Root, InnerRoot, Prefixed;
    var renamed := RenameAll(true, names);
    forall i | 0 <= i < |names|
      ensures Root(renamed[i]) != root
      ensures HasPrefix(renamed[i]) && InnerRoot(renamed[i]) == root <==> Root(names[i]) == root
      ensures HasPrefix(renamed[i]) ==> Root(renamed[i]) == MODEL
    {
      PrefixedIs(names[i]);
      RenamedAt(names, i);
      assert !HasPrefix(names[i]);
    }
    assert !AnyHasInnerRoot(names, root);
    assert !AnyHasRoot(renamed, root);
    if AnyHasRoot(names, root) {
      var i :| 0 <= i < |names| && Root(names[i]) == root;
      assert HasPrefix(renamed[i]) && InnerRoot(renamed[i]) == root && Root(renamed[i]) == MODEL;
    }
  }

  // ---------------------------------------------------------------- shards

  lemma {:induction false} TensorKeysRenamed(entries: Members, renamed: Members)
    requires |renamed| == |entries|
    requires forall i | 0 <= i < |entries| :: renamed[i].key == NewKey(Prefixed, entries[i].key)
    ensures TensorKeys(renamed) == RenameAll(true, TensorKeys(entries))
  {
    hide Prefixed;
    if |entries| > 0 {
      TensorKeysRenamed(entries[1..], renamed[1..]);
      PrefixKeepsMetadataApart();
      var key := entries[0].key;
      assert renamed[0].key == NewKey(Prefixed, key);
      if key == METADATA_KEY {
        assert TensorKeys(entries) == TensorKeys(entries[1..]);
        assert TensorKeys(renamed) == TensorKeys(renamed[1..]);
      } else {
        assert TensorKeys(entries) == [key] + TensorKeys(entries[1..]);
        assert Renamed(true, key) == Prefixed(key);
        assert TensorKeys(renamed) == [Prefixed(key)] + TensorKeys(renamed[1..]);
        RenameAllConcat(true, [key], TensorKeys(entries[1..]));
      }
    }
  }

  lemma RenameAllConcat(prefix: bool, a: seq<string>, b: seq<string>)
    ensures RenameAll(prefix, a + b) == RenameAll(prefix, a) + RenameAll(prefix, b)
  {}

  lemma RenameNothing(names: seq<string>)
    ensures RenameAll(false, names) == names
  {}

  /** The tensors of a written shard are those of its source, renamed. */
  lemma ShardTensorsRenamed(codec: Codec, prefix: bool, data: Bytes)
    requires Faithful(codec) && NewShard(codec, prefix, data).Success?
    ensures ShardTensors(codec, NewShard(codec, prefix, data).value) == RenameAll(prefix, ShardTensors(codec, data))
  {
    hide RewrittenShard, ReadHeader, Faithful, TensorBytes, TensorKeys, Prefixed;
    if prefix {
      PrefixKeepsMetadataApart();
      RewritePreservesTensors(codec, Prefixed, data);
      var entries := ReadHeader(codec, data).value.entries;
      var renamed := ReadHeader(codec, RewrittenShard(codec, Prefixed, data).value).value.entries;
      TensorKeysRenamed(entries, renamed);
    } else {
      RenameNothing(ShardTensors(codec, data));
    }
  }

  lemma {:induction false} WrittenShardsAre(codec: Codec, prefix: bool, files: map<string, Bytes>, names: seq<string>,
                                            n: nat)
    requires n <= |names| && (forall i | 0 <= i < |names| :: names[i] in files)
    requires WrittenShards(codec, prefix, files, names, n).Success?
    ensures var written := WrittenShards(codec, prefix, files, names, n).value;
      && (forall name :: name in written <==> name in names[..n])
      && (forall name | name in written ::
            name in files && NewShard(codec, prefix, files[name]).Success?
            && written[name] == NewShard(codec, prefix, files[name]).value)
  {
    hide NewShard;
    if n > 0 {
      WrittenShardsAre(codec, prefix, files, names, n - 1);
      assert names[..n] == names[..n - 1] + [names[n - 1]];
    }
  }

  /** Every shard of `names` is in `after`, written from its source. */
  ghost predicate AllWritten(codec: Codec, prefix: bool, files: map<string, Bytes>, names: seq<string>,
                             after: map<string, Bytes>) {
    forall i | 0 <= i < |names| ::
      && names[i] in files && names[i] in after
      && NewShard(codec, prefix, files[names[i]]).Success?
      && after[names[i]] == NewShard(codec, prefix, files[names[i]]).value
  }

  lemma {:induction false} NamesInShardsRenamed(codec: Codec, prefix: bool, files: map<string, Bytes>,
                                                shards: seq<string>,
                                               after: map<string, Bytes>, n: nat)
    requires n <= |shards| && Faithful(codec) && AllWritten(codec, prefix, files, shards, after)
    ensures NamesInShards(codec, after, shards, n) == RenameAll(prefix, NamesInShards(codec, files, shards, n))
  {
    hide Faithful, NewShard, ShardTensors, Renamed;
    if n > 0 {
      NamesInShardsRenamed(codec, prefix, files, shards, after, n - 1);
      var shard := shards[n - 1];
      ShardTensorsRenamed(codec, prefix, files[shard]);
      RenameAllConcat(prefix, NamesInShards(codec, files, shards, n - 1), ShardTensors(codec, files[shard]));
    }
  }

  // ---------------------------------------------------------------- the index

  ghost predicate NoneHasPrefix(weightMap: Members) { forall i | 0 <= i < |weightMap| :: !HasPrefix(weightMap[i].key) }

  /** The rebuilt weight map, entry by entry: renamed, in the same shard. */
  ghost predicate SameShards(prefix: bool, weightMap: Members, n: nat, renamed: Members)
    requires n <= |weightMap|
  {
    && |renamed| == n && DistinctKeys(renamed)
    && forall i | 0 <= i < n :: renamed[i] == Member(Renamed(prefix, weightMap[i].key), weightMap[i].value)
  }

  lemma {:induction false} IndexKeepsShards(prefix: bool, weightMap: Members, n: nat)
    requires n <= |weightMap| && DistinctKeys(weightMap) && (prefix ==> NoneHasPrefix(weightMap))
    ensures SameShards(prefix, weightMap, n, RenamedMap(prefix, weightMap, n))
  {
    hide Renamed, HasPrefix;
    if n > 0 {
      IndexKeepsShards(prefix, weightMap, n - 1);
      hide NoneHasPrefix, SameShards;
      IndexStep(prefix, weightMap, n, RenamedMap(prefix, weightMap, n - 1));
    }
  }

  lemma IndexStep(prefix: bool, weightMap: Members, n: nat, before: Members)
    requires 0 < n <= |weightMap| && DistinctKeys(weightMap) && (prefix ==> NoneHasPrefix(weightMap))
    requires SameShards(prefix, weightMap, n - 1, before)
    ensures SameShards(prefix, weightMap, n, Put(before, Renamed(prefix, weightMap[n - 1].key), weightMap[n - 1].value))
  {
    hide Renamed, HasPrefix, Put;
    var key := Renamed(prefix, weightMap[n - 1].key);
    forall i | 0 <= i < n - 1 ensures before[i].key != key { RenamedApart(prefix, weightMap, i, n - 1); }
    PutNew(before, key, weightMap[n - 1].value);
  }

  lemma RenamedApart(prefix: bool, weightMap: Members, i: nat, j: nat)
    requires i < j < |weightMap| && DistinctKeys(weightMap) && (prefix ==> NoneHasPrefix(weightMap))
    ensures Renamed(prefix, weightMap[i].key) != Renamed(prefix, weightMap[j].key)
  {
    hide Prefixed, HasPrefix;
    if prefix && Prefixed(weightMap[i].key) == Prefixed(weightMap[j].key) {
      PrefixingIsInjective(weightMap[i].key, weightMap[j].key);
    }
  }

  /** Looked up under its new name, a tensor is in the shard it was in. */
  lemma TensorStaysInItsShard(prefix: bool, weightMap: Members, name: string)
    requires DistinctKeys(weightMap) && (prefix ==> NoneHasPrefix(weightMap)) && name in Keys(weightMap)
    ensures var renamed := RenamedMap(prefix, weightMap, |weightMap|);
      Renamed(prefix, name) in Keys(renamed) && Lookup(renamed, Renamed(prefix, name)) == Lookup(weightMap, name)
  {
    hide Prefixed, HasPrefix, Renamed;
    IndexKeepsShards(prefix, weightMap, |weightMap|);
    var i :| 0 <= i < |weightMap| && weightMap[i] == Member(name, Lookup(weightMap, name));
    LookupAt(RenamedMap(prefix, weightMap, |weightMap|), i);
  }

  /** Validation looks at the shards of the map and at whether they exist. */
  lemma {:induction false} SameValidation(files: set<string>, weightMap: Members, after: set<string>, renamed: Members,
                                          n: nat)
    requires n <= |weightMap| == |renamed|
    requires forall i | 0 <= i < |weightMap| :: renamed[i].value == weightMap[i].value
    requires ValidatedShardNames(files, weightMap, n).Success?
    requires forall name | name in ValidatedShardNames(files, weightMap, n).value :: name in after
    ensures ValidatedShardNames(after, renamed, n) == ValidatedShardNames(files, weightMap, n)
  {
    hide IsSafeName;
    if n > 0 { SameValidation(files, weightMap, after, renamed, n - 1); }
  }

  lemma {:induction false} ValidatedExist(files: set<string>, weightMap: Members, n: nat)
    requires n <= |weightMap| && ValidatedShardNames(files, weightMap, n).Success?
    ensures forall name | name in ValidatedShardNames(files, weightMap, n).value :: name in files
    ensures n > 0 ==> |ValidatedShardNames(files, weightMap, n).value| > 0
  {
    hide IsSafeName;
    if n > 0 { ValidatedExist(files, weightMap, n - 1); }
  }

  // ---------------------------------------------------------------- the bundle after one pass

  /** The dictionaries of the bundle came from Python. */
  ghost predicate Sane(host: Host, bundle: Bundle) {
    ListsAll(host) && Faithful(host.codec) && DistinctKeys(WeightMap(bundle.index))
  }

  lemma NormalizedIs(host: Host, bundle: Bundle)
    requires ListsAll(host) && Normalize(host, bundle).Success? && Normalize(host, bundle).value.Some?
    ensures Inspect(host, bundle).Success?
    ensures var layout := Inspect(host, bundle).value;
      var weightFiles := WeightFiles(host, bundle, layout);
      var written := WrittenShards(host.codec, layout.backbonePrefixMissing, bundle.files, weightFiles, |weightFiles|);
      && layout.NeedsNormalization() && written.Success?
      && Normalize(host, bundle).value.value
         == Bundle(NewConfig(bundle.config, layout), NewIndex(bundle.index, layout),
                   SupportFiles(bundle.files, weightFiles) + written.value)
  {
    hide Inspect, WeightFiles, WrittenShards, NewConfig, NewIndex, SupportFiles, ListsAll;
  }

  lemma InspectIs(host: Host, bundle: Bundle)
    requires ListsAll(host) && Inspect(host, bundle).Success?
    ensures Architectures(bundle.config).Success? && TensorInventory(host, bundle).Success?
    ensures var layout := Inspect(host, bundle).value;
      var inventory := TensorInventory(host, bundle).value;
      && layout.architectures == Architectures(bundle.config).value
      && layout.declaresTied == DeclaresTied(bundle.config)
      && layout.tensorNames == inventory.names
      && layout.backbonePrefixMissing == Missing(inventory.names)
      && layout.hasLmHead == AnyHasRoot(inventory.names, LM_HEAD)
      && layout.shardNames == (if |inventory.names| == 0 then [] else inventory.shards)
      && layout.hasIndex == (|inventory.names| > 0 && inventory.hasIndex)
  {
    hide Architectures, TensorInventory, DeclaresTied, ListsAll, HasPrefix, IsBackboneRoot, Root;
  }

  lemma InspectSucceeds(host: Host, bundle: Bundle)
    requires ListsAll(host) && Architectures(bundle.config).Success? && TensorInventory(host, bundle).Success?
    ensures Inspect(host, bundle).Success?
  {
    hide Architectures, TensorInventory, DeclaresTied, ListsAll;
  }

  /** The shards are written; nothing else that looks like one reaches the output. */
  lemma OutputShards(codec: Codec, prefix: bool, files: map<string, Bytes>, weightFiles: seq<string>)
    requires forall i | 0 <= i < |weightFiles| :: weightFiles[i] in files
    requires WrittenShards(codec, prefix, files, weightFiles, |weightFiles|).Success?
    ensures var after := SupportFiles(files, weightFiles)
      + WrittenShards(codec, prefix, files, weightFiles, |weightFiles|).value;
      && AllWritten(codec, prefix, files, weightFiles, after)
      && forall name :: name in after && HasWeightSuffix(name) ==> name in weightFiles
  {
    hide NewShard, WrittenShards, HasWeightSuffix;
    WrittenShardsAre(codec, prefix, files, weightFiles, |weightFiles|);
    assert weightFiles[..|weightFiles|] == weightFiles;
    var written := WrittenShards(codec, prefix, files, weightFiles, |weightFiles|).value;
    forall i | 0 <= i < |weightFiles| ensures weightFiles[i] in written { assert weightFiles[i] in weightFiles; }
  }

  lemma IndexedInventory(host: Host, bundle: Bundle)
    requires ListsAll(host) && |WeightMap(bundle.index)| > 0 && TensorInventory(host, bundle).Success?
    ensures ValidatedShardNames(bundle.files.Keys, WeightMap(bundle.index), |WeightMap(bundle.index)|).Success?
    ensures TensorInventory(host, bundle).value
         == Inventory(KeysInOrder(WeightMap(bundle.index)),
                      ValidatedShardNames(bundle.files.Keys, WeightMap(bundle.index),
                        |WeightMap(bundle.index)|).value, true)
  {
    hide ListsAll, ValidatedShardNames, KeysInOrder, WeightMap;
  }

  lemma NewWeightMap(index: Members, layout: Layout)
    requires layout.hasIndex
    ensures WeightMap(NewIndex(index, layout))
         == RenamedMap(layout.backbonePrefixMissing, WeightMap(index), |WeightMap(index)|)
  {
    hide RenamedMap, Put;
    var weightMap := WeightMap(index);
    PutThenGet(index, WEIGHT_MAP_KEY, Obj(RenamedMap(layout.backbonePrefixMissing, weightMap, |weightMap|)),
      WEIGHT_MAP_KEY);
  }

  lemma NoneHasPrefixWhenMissing(weightMap: Members)
    requires Missing(KeysInOrder(weightMap))
    ensures NoneHasPrefix(weightMap)
  {
    hide HasPrefix, IsBackboneRoot;
    forall i | 0 <= i < |weightMap| ensures !HasPrefix(weightMap[i].key) {
      assert KeysInOrder(weightMap)[i] == weightMap[i].key;
    }
  }

  /** With an index the names come from the rebuilt weight map, and its shards are all there. */
  lemma InventoryAfterWithIndex(host: Host, bundle: Bundle)
    requires Sane(host, bundle) && Normalize(host, bundle).Success? && Normalize(host, bundle).value.Some?
    requires |WeightMap(bundle.index)| > 0
    ensures InventoryRenamed(host, bundle)
  {
    hide Faithful, ListsAll, TensorInventory, Inspect, Normalize, WeightMap, ValidatedShardNames, NewConfig, NewIndex,
      WeightFiles, WrittenShards, SupportFiles, Missing, KeysInOrder, RenamedMap, AllWritten, HasPrefix;
    NormalizedIs(host, bundle);
    InspectIs(host, bundle);
    IndexedInventory(host, bundle);
    var layout := Inspect(host, bundle).value;
    var weightMap := WeightMap(bundle.index);
    var prefix := layout.backbonePrefixMissing;
    assert |KeysInOrder(weightMap)| > 0;
    NewWeightMap(bundle.index, layout);
    if prefix { NoneHasPrefixWhenMissing(weightMap); }
    IndexKeepsShards(prefix, weightMap, |weightMap|);
    var renamed := RenamedMap(prefix, weightMap, |weightMap|);
    var out := Normalize(host, bundle).value.value;
    var weightFiles := WeightFiles(host, bundle, layout);
    OutputShards(host.codec, prefix, bundle.files, weightFiles);
    ValidatedExist(bundle.files.Keys, weightMap, |weightMap|);
    IndexedWeightFiles(host, bundle, layout);
    forall name | name in layout.shardNames ensures name in out.files {
      var i :| 0 <= i < |weightFiles| && weightFiles[i] == name;
      WrittenIsThere(host.codec, prefix, bundle.files, weightFiles, out.files, i);
    }
    SameValidation(bundle.files.Keys, weightMap, out.files.Keys, renamed, |weightMap|);
    KeysRenamed(prefix, weightMap, renamed);
    InventoryOfIndex(host, out);
  }

  lemma WrittenIsThere(codec: Codec, prefix: bool, files: map<string, Bytes>, names: seq<string>,
                       after: map<string, Bytes>, i: nat)
    requires AllWritten(codec, prefix, files, names, after) && i < |names|
    ensures names[i] in after
  {}

  lemma IndexedWeightFiles(host: Host, bundle: Bundle, layout: Layout)
    requires ListsAll(host) && |layout.shardNames| > 0
      && forall name | name in layout.shardNames :: name in bundle.files
    ensures forall name | name in layout.shardNames :: name in WeightFiles(host, bundle, layout)
  {
    hide ListsAll;
  }

  lemma KeysRenamed(prefix: bool, weightMap: Members, renamed: Members)
    requires SameShards(prefix, weightMap, |weightMap|, renamed)
    ensures KeysInOrder(renamed) == RenameAll(prefix, KeysInOrder(weightMap))
  {
    hide Renamed;
  }

  lemma InventoryOfIndex(host: Host, bundle: Bundle)
    requires ListsAll(host) && |WeightMap(bundle.index)| > 0
    requires ValidatedShardNames(bundle.files.Keys, WeightMap(bundle.index), |WeightMap(bundle.index)|).Success?
    ensures TensorInventory(host, bundle)
         == Success(Inventory(KeysInOrder(WeightMap(bundle.index)),
              ValidatedShardNames(bundle.files.Keys, WeightMap(bundle.index), |WeightMap(bundle.index)|).value, true))
  {
    hide ListsAll, ValidatedShardNames, KeysInOrder, WeightMap;
  }

  /** The output's inventory is the input's, renamed. */
  ghost predicate InventoryRenamed(host: Host, bundle: Bundle)
    requires ListsAll(host) && Normalize(host, bundle).Success? && Normalize(host, bundle).value.Some?
  {
    var out := Normalize(host, bundle).value.value;
    var before := TensorInventory(host, bundle);
    && before.Success?
    && TensorInventory(host, out)
       == Success(Inventory(RenameAll(Missing(before.value.names), before.value.names), before.value.shards,
         before.value.hasIndex))
  }

  lemma InventoryOfListing(host: Host, bundle: Bundle)
    requires ListsAll(host) && |WeightMap(bundle.index)| == 0
    ensures var shards := ListedShards(host, bundle.files.Keys);
      TensorInventory(host, bundle)
        == Success(Inventory(NamesInShards(host.codec, bundle.files, shards, |shards|), shards, false))
  {
    hide ListsAll, ListedShards, NamesInShards, WeightMap;
  }

  /** Without an index every listed shard is a weight file, and no other is. */
  lemma ListedWeightFiles(host: Host, bundle: Bundle, layout: Layout)
    requires ListsAll(host)
    requires layout.shardNames == [] || layout.shardNames == ListedShards(host, bundle.files.Keys)
    ensures forall name :: name in WeightFiles(host, bundle, layout) <==> name in bundle.files && IsWeightShard(name)
  {
    hide ListsAll, IsWeightShard;
  }

  lemma SameListing(host: Host, files: map<string, Bytes>, after: map<string, Bytes>, weightFiles: seq<string>)
    requires ListsAll(host)
    requires forall name :: name in weightFiles <==> name in files && IsWeightShard(name)
    requires forall name | name in weightFiles :: name in after
    requires forall name :: name in after && HasWeightSuffix(name) ==> name in weightFiles
    ensures ListedShards(host, after.Keys) == ListedShards(host, files.Keys)
  {
    hide ListsAll, HasWeightSuffix;
    assert (set name | name in after.Keys && IsWeightShard(name))
      == (set name | name in files.Keys && IsWeightShard(name));
  }

  lemma AllWrittenSubset(codec: Codec, prefix: bool, files: map<string, Bytes>, names: seq<string>, some: seq<string>,
                         after: map<string, Bytes>)
    requires AllWritten(codec, prefix, files, names, after) && forall name | name in some :: name in names
    ensures AllWritten(codec, prefix, files, some, after)
  {
    hide NewShard;
    forall i | 0 <= i < |some|
      ensures some[i] in files && some[i] in after && NewShard(codec, prefix, files[some[i]]).Success?
           && after[some[i]] == NewShard(codec, prefix, files[some[i]]).value
    {
      assert some[i] in some;
      var j :| 0 <= j < |names| && names[j] == some[i];
    }
  }

  lemma AllWrittenPresent(codec: Codec, prefix: bool, files: map<string, Bytes>, names: seq<string>,
                          after: map<string, Bytes>)
    requires AllWritten(codec, prefix, files, names, after)
    ensures forall name | name in names :: name in after
  {
    hide NewShard;
  }

  lemma InventoryAfterWithoutIndex(host: Host, bundle: Bundle)
    requires Sane(host, bundle) && Normalize(host, bundle).Success? && Normalize(host, bundle).value.Some?
    requires |WeightMap(bundle.index)| == 0
    ensures InventoryRenamed(host, bundle)
  {
    hide Faithful, ListsAll, TensorInventory, Inspect, Normalize, WeightMap, NewConfig, WeightFiles, WrittenShards,
      SupportFiles, Missing, AllWritten, HasPrefix, NamesInShards, ListedShards, IsWeightShard, HasWeightSuffix,
      RenameAll;
    NormalizedIs(host, bundle);
    InspectIs(host, bundle);
    InventoryOfListing(host, bundle);
    var layout := Inspect(host, bundle).value;
    var prefix := layout.backbonePrefixMissing;
    var out := Normalize(host, bundle).value.value;
    var weightFiles := WeightFiles(host, bundle, layout);
    var shards := ListedShards(host, bundle.files.Keys);
    OutputShards(host.codec, prefix, bundle.files, weightFiles);
    ListedWeightFiles(host, bundle, layout);
    AllWrittenPresent(host.codec, prefix, bundle.files, weightFiles, out.files);
    SameListing(host, bundle.files, out.files, weightFiles);
    AllWrittenSubset(host.codec, prefix, bundle.files, weightFiles, shards, out.files);
    NamesInShardsRenamed(host.codec, prefix, bundle.files, shards, out.files, |shards|);
    EmptyWeightMap();
    InventoryOfListing(host, out);
  }

  lemma EmptyWeightMap()
    ensures |WeightMap([])| == 0
  {}

  lemma EmptyDeclaresNothing()
    ensures DeclaresTied([]) == None
  {}

  lemma ConfigAfter(config: Members, layout: Layout)
    requires layout.declaresTied == DeclaresTied(config)
    ensures Architectures(NewConfig(config, layout)) == Architectures(config)
    ensures DeclaresTied(NewConfig(config, layout))
         == if layout.NeedsTieReconciliation() then Some(true) else DeclaresTied(config)
  {
    hide Texts, Keys, Get, Put, DistinctKeys;
    EmptyDeclaresNothing();
    if layout.NeedsTieReconciliation() {
      PutThenGet(config, TIE_KEY, Bool(true), TIE_KEY);
      PutThenGet(config, TIE_KEY, Bool(true), ARCHITECTURES_KEY);
      assert TIE_KEY[0] == 't' && ARCHITECTURES_KEY[0] == 'a';
    }
  }

  /** What the names say of the architecture does not depend on the renaming. */
  lemma NamesAfter(names: seq<string>)
    ensures var renamed := RenameAll(Missing(names), names);
      && !Missing(renamed) && AnyHasRoot(renamed, LM_HEAD) == AnyHasRoot(names, LM_HEAD)
      && HasDecoderRoot(renamed, "layers") == HasDecoderRoot(names, "layers")
      && HasDecoderRoot(renamed, "embed_tokens") == HasDecoderRoot(names, "embed_tokens")
  {
    RootsApart();
    hide HasPrefix, IsBackboneRoot, AnyHasRoot, HasDecoderRoot, AnyHasPrefix, AnyIsBackbone, RenameAll;
    if Missing(names) {
      NotMissingAfter(names);
      SameHead(names);
      SameDecoderRoot(names, "layers");
      SameDecoderRoot(names, "embed_tokens");
    } else {
      RenameNothing(names);
    }
  }

  // ---------------------------------------------------------------- when normalising succeeds

  ghost function PrefixedEntries(entries: Members): (r: Members)
    ensures |r| == |entries|
  {
    seq(|entries|, i requires 0 <= i < |entries| => Member(NewKey(Prefixed, entries[i].key), entries[i].value))
  }

  /** The shard's header can be read, holds no backbone name both bare and prefixed, and its new header fits. */
  ghost predicate Rewritable(codec: Codec, data: Bytes) {
    && ReadHeader(codec, data).Success?
    && (forall name :: !BareAndPrefixed(ReadHeader(codec, data).value.entries, name))
    && |PaddedHeader(codec, PrefixedEntries(ReadHeader(codec, data).value.entries))| < LENGTH_LIMIT
  }

  /** A shard is rewritten exactly when it can be. */
  lemma ShardRewritesExactly(codec: Codec, data: Bytes)
    requires Faithful(codec)
    ensures RewrittenShard(codec, Prefixed, data).Success? <==> Rewritable(codec, data)
  {
    if ReadHeader(codec, data).Success? {
      hide Faithful, PaddedHeader, LittleEndian, BareAndPrefixed, NewKey, RenamedEntries, ReadHeader;
      HeaderIsDictionary(codec, data);
      var entries := ReadHeader(codec, data).value.entries;
      PrefixKeepsMetadataApart();
      ShardCollidesExactly(entries);
      RenamingSucceedsExactly(Prefixed, entries, |entries|);
      var renamed := RenamedEntries(Prefixed, entries, |entries|);
      if renamed.Success? { assert renamed.value == PrefixedEntries(entries); }
    }
  }

  lemma {:induction false} ShardsAreWrittenExactly(codec: Codec, prefix: bool, files: map<string, Bytes>,
                                                   names: seq<string>, n: nat)
    requires n <= |names| && forall i | 0 <= i < |names| :: names[i] in files
    ensures WrittenShards(codec, prefix, files, names, n).Success?
      <==> forall i | 0 <= i < n :: NewShard(codec, prefix, files[names[i]]).Success?
  {
    hide NewShard;
    if n > 0 { ShardsAreWrittenExactly(codec, prefix, files, names, n - 1); }
  }

  ghost predicate AllRewritable(host: Host, bundle: Bundle, layout: Layout)
    requires ListsAll(host)
  {
    var weightFiles := WeightFiles(host, bundle, layout);
    forall i | 0 <= i < |weightFiles| :: Rewritable(host.codec, bundle.files[weightFiles[i]])
  }

  /** There is something to normalise, and if the prefix is missing every weight file can be rewritten. */
  ghost predicate CanNormalize(host: Host, bundle: Bundle)
    requires ListsAll(host)
  {
    var inspected := Inspect(host, bundle);
    && inspected.Success? && inspected.value.NeedsNormalization()
    && (inspected.value.backbonePrefixMissing ==> AllRewritable(host, bundle, inspected.value))
  }

  /** The bundle is normalised exactly when it can be. */
  lemma NormalizesExactly(host: Host, bundle: Bundle)
    requires Sane(host, bundle)
    ensures Normalize(host, bundle).Success? && Normalize(host, bundle).value.Some? <==> CanNormalize(host, bundle)
  {
    hide Faithful, ListsAll, Inspect, Rewritable, WeightFiles, WrittenShards, NewConfig, NewIndex, SupportFiles;
    var inspected := Inspect(host, bundle);
    if inspected.Success? && inspected.value.NeedsNormalization() {
      var prefix := inspected.value.backbonePrefixMissing;
      var weightFiles := WeightFiles(host, bundle, inspected.value);
      ShardsAreWrittenExactly(host.codec, prefix, bundle.files, weightFiles, |weightFiles|);
      forall i | 0 <= i < |weightFiles|
        ensures NewShard(host.codec, prefix, bundle.files[weightFiles[i]]).Success?
          <==> !prefix || Rewritable(host.codec, bundle.files[weightFiles[i]])
      {
        hide RewrittenShard;
        ShardRewritesExactly(host.codec, bundle.files[weightFiles[i]]);
      }
      hide NewShard;
    }
  }

  /**
    One pass reaches a fixpoint: the output needs no normalisation, normalising it again does
    nothing, its tensors are the input's under their new names, and it is a decoder if and only if the
    input was.
    */
  lemma OnePassIsEnough(host: Host, bundle: Bundle)
    requires Sane(host, bundle) && CanNormalize(host, bundle)
    ensures Normalize(host, bundle).Success? && Normalize(host, bundle).value.Some?
    ensures var out := Normalize(host, bundle).value.value;
      var before := Inspect(host, bundle);
      var after := Inspect(host, out);
      && before.Success? && after.Success?
      && after.value.tensorNames == RenameAll(before.value.backbonePrefixMissing, before.value.tensorNames)
      && after.value.hasIndex == before.value.hasIndex && after.value.shardNames == before.value.shardNames
      && !after.value.NeedsNormalization() && Normalize(host, out) == Success(None)
      && IsDecoder(host, after.value) == IsDecoder(host, before.value)
  {
    NormalizesExactly(host, bundle);
    if |WeightMap(bundle.index)| > 0 {
      InventoryAfterWithIndex(host, bundle);
    } else {
      InventoryAfterWithoutIndex(host, bundle);
    }
    hide Faithful, ListsAll, TensorInventory, Inspect, WeightMap, NewConfig, NewIndex, WeightFiles, WrittenShards,
      SupportFiles, RenameAll, Missing, CanNormalize, Normalize, HasDecoderRoot, AnyHasRoot;
    NormalizedIs(host, bundle);
    InspectIs(host, bundle);
    var out := Normalize(host, bundle).value.value;
    var before := Inspect(host, bundle).value;
    ConfigAfter(bundle.config, before);
    NamesAfter(before.tensorNames);
    InspectSucceeds(host, out);
    InspectIs(host, out);
    NothingToDo(host, out);
  }

  lemma NothingToDo(host: Host, bundle: Bundle)
    requires ListsAll(host) && Inspect(host, bundle).Success? && !Inspect(host, bundle).value.NeedsNormalization()
    ensures Normalize(host, bundle) == Success(None)
  {
    hide Inspect, ListsAll, WeightFiles, WrittenShards;
  }

  /**
    Every shard of the normalised bundle holds, under each tensor's new name, the bytes the source
    shard held under the old one.
    */
  lemma EveryTensorKeepsItsBytes(host: Host, bundle: Bundle, name: string)
    requires Sane(host, bundle) && CanNormalize(host, bundle) && Inspect(host, bundle).value.backbonePrefixMissing
    requires name in WeightFiles(host, bundle, Inspect(host, bundle).value)
    ensures Normalize(host, bundle).Success? && Normalize(host, bundle).value.Some?
    ensures var out := Normalize(host, bundle).value.value;
      && name in bundle.files && name in out.files
      && var source := ReadHeader(host.codec, bundle.files[name]);
         var target := ReadHeader(host.codec, out.files[name]);
         && source.Success? && target.Success?
         && RenamedOneByOne(Prefixed, source.value.entries, |source.value.entries|, target.value.entries)
         && forall entry :: TensorBytes(out.files[name], target.value.start, entry)
                         == TensorBytes(bundle.files[name], source.value.start, entry)
  {
    hide Faithful, ListsAll, Inspect, WeightFiles, WrittenShards, SupportFiles, Normalize, RewrittenShard, ReadHeader,
      TensorBytes, NewConfig, NewIndex, RenamedOneByOne, AllRewritable;
    NormalizesExactly(host, bundle);
    NormalizedIs(host, bundle);
    var out := Normalize(host, bundle).value.value;
    var weightFiles := WeightFiles(host, bundle, Inspect(host, bundle).value);
    OutputShards(host.codec, true, bundle.files, weightFiles);
    var i :| 0 <= i < |weightFiles| && weightFiles[i] == name;
    PrefixKeepsMetadataApart();
    RewritePreservesTensors(host.codec, Prefixed, bundle.files[name]);
  }

  // ---------------------------------------------------------------- a shard that inspection skips

  /** Two shards and nothing else. */
  function TwoShards(first: string, readable: Bytes, second: string, unreadable: Bytes): Bundle {
    Bundle([], [], map[first := readable, second := unreadable])
  }

  /** The first shard holds tensors whose prefix is missing and can be rewritten; the second cannot be decoded. */
  ghost predicate OneUnreadable(codec: Codec, readable: Bytes, unreadable: Bytes) {
    && Rewritable(codec, readable) && Missing(ShardTensors(codec, readable))
    && ReadHeader(codec, unreadable) == Failure(Unreadable)
  }

  /** The readable shard alone gives the names. */
  lemma {:induction false} ReadableShardGivesNames(codec: Codec, files: map<string, Bytes>, good: string,
                                                   shards: seq<string>, n: nat)
    requires n <= |shards| && good in files
    requires forall i | 0 <= i < n :: shards[i] in files
    requires forall name | name in files && name != good :: ReadHeader(codec, files[name]).Failure?
    ensures var names := NamesInShards(codec, files, shards, n);
      && (forall name | name in names :: name in ShardTensors(codec, files[good]))
      && (good in shards[..n] ==> forall name | name in ShardTensors(codec, files[good]) :: name in names)
  {
    hide ReadHeader, TensorKeys;
    if n > 0 {
      ReadableShardGivesNames(codec, files, good, shards, n - 1);
      assert shards[..n] == shards[..n - 1] + [shards[n - 1]];
    }
  }

  lemma SameNamesSameMissing(a: seq<string>, b: seq<string>)
    requires forall name :: name in a <==> name in b
    ensures Missing(a) <==> Missing(b)
  {
    hide HasPrefix, IsBackboneRoot, Root;
    forall i | 0 <= i < |a| ensures exists j :: 0 <= j < |b| && b[j] == a[i] { assert a[i] in b; }
    forall i | 0 <= i < |b| ensures exists j :: 0 <= j < |a| && a[j] == b[i] { assert b[i] in a; }
  }

  /** Writing stops at the shard that cannot be decoded. */
  lemma {:induction false} WritingStops(codec: Codec, files: map<string, Bytes>, names: seq<string>, bad: string,
                                        n: nat)
    requires n <= |names| && forall i | 0 <= i < |names| :: names[i] in files
    requires bad in files && NewShard(codec, true, files[bad]) == Failure(Unreadable)
    requires forall name | name in files && name != bad :: NewShard(codec, true, files[name]).Success?
    ensures var written := WrittenShards(codec, true, files, names, n);
      if bad in names[..n] then written == Failure(BadShard(bad, Unreadable)) else written.Success?
  {
    hide NewShard;
    if n > 0 {
      WritingStops(codec, files, names, bad, n - 1);
      assert names[..n] == names[..n - 1] + [names[n - 1]];
    }
  }

  /** A header of no bytes cannot be decoded: eight zero bytes are such a shard. */
  lemma EightZeroBytes(codec: Codec)
    requires codec.loads([]) == None
    ensures ReadHeader(codec, LittleEndian(0, LENGTH_BYTES)) == Failure(Unreadable)
  {
    hide LittleEndian;
    var file := LittleEndian(0, LENGTH_BYTES);
    LengthFits(0);
    assert file[..LENGTH_BYTES] == file && file[LENGTH_BYTES..LENGTH_BYTES + 0] == [];
  }

  lemma TwoShardsInspected(host: Host, first: string, readable: Bytes, second: string, unreadable: Bytes)
    requires ListsAll(host) && OneUnreadable(host.codec, readable, unreadable)
    requires first != second && IsWeightShard(first) && IsWeightShard(second)
    ensures var bundle := TwoShards(first, readable, second, unreadable);
      && Inspect(host, bundle).Success? && Inspect(host, bundle).value.backbonePrefixMissing
      && Inspect(host, bundle).value.shardNames == ListedShards(host, bundle.files.Keys)
      && second in ListedShards(host, bundle.files.Keys)
  {
    hide ListsAll, Rewritable, ReadHeader, IsBackboneRoot, HasPrefix, TensorKeys, IsWeightShard, HasWeightSuffix,
      ShardTensors, ListedShards;
    var bundle := TwoShards(first, readable, second, unreadable);
    var shards := ListedShards(host, bundle.files.Keys);
    ReadableShardGivesNames(host.codec, bundle.files, first, shards, |shards|);
    assert shards[..|shards|] == shards;
    assert first in shards;
    EmptyWeightMap();
    InventoryOfListing(host, bundle);
    var names := NamesInShards(host.codec, bundle.files, shards, |shards|);
    hide NamesInShards, TensorInventory, WeightMap, AnyHasRoot;
    SameNamesSameMissing(names, ShardTensors(host.codec, readable));
  }

  /** Inspection skips a shard it cannot decode and asks for normalisation, which then fails at that shard. */
  lemma UnreadableShardStopsNormalising(host: Host, first: string, readable: Bytes, second: string, unreadable: Bytes)
    requires Faithful(host.codec) && ListsAll(host) && OneUnreadable(host.codec, readable, unreadable)
    requires first != second && IsWeightShard(first) && IsWeightShard(second)
    ensures var bundle := TwoShards(first, readable, second, unreadable);
      && Inspect(host, bundle).Success? && Inspect(host, bundle).value.NeedsNormalization()
      && !CanNormalize(host, bundle) && Normalize(host, bundle) == Failure(BadShard(second, Unreadable))
  {
    var bundle := TwoShards(first, readable, second, unreadable);
    var files := bundle.files;
    ShardRewritesExactly(host.codec, readable);
    assert NewShard(host.codec, true, unreadable) == Failure(Unreadable);
    hide Faithful, ListsAll, ListedShards, RewrittenShard, ReadHeader, IsWeightShard, Inspect, Missing, ShardTensors;
    TwoShardsInspected(host, first, readable, second, unreadable);
    var layout := Inspect(host, bundle).value;
    var weightFiles := WeightFiles(host, bundle, layout);
    WritingStops(host.codec, files, weightFiles, second, |weightFiles|);
    assert weightFiles[..|weightFiles|] == weightFiles;
    var i :| 0 <= i < |weightFiles| && weightFiles[i] == second;
    assert !Rewritable(host.codec, files[weightFiles[i]]);
  }
}
