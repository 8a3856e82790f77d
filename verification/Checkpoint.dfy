/**
  Normalising a checkpoint bundle whose tensors miss the `model.` prefix, or whose config promises an
  `lm_head` the weights lack.
  */
module Checkpoint {
  import opened Wrappers
  import opened JsonValues
  import opened Safetensors

  const MODEL := "model"
  const BACKBONE_TENSOR_PREFIX := "model."
  const LM_HEAD := "lm_head"
  const WEIGHT_SUFFIX := ".safetensors"
  const TIE_KEY := "tie_word_embeddings"
  const ARCHITECTURES_KEY := "architectures"
  const WEIGHT_MAP_KEY := "weight_map"

  /**
    A directory: `config.json` and the safetensors index as dictionaries, empty when the file is
    absent or unreadable, and its other files.
    */
  datatype Bundle = Bundle(config: Members, index: Members, files: map<string, Bytes>)

  /** JSON on bytes, the order of a sorted listing, and whether an architecture's name marks a decoder. */
  datatype Host = Host(codec: Codec, sorted: set<string> -> seq<string>, marksDecoder: string -> bool)

  datatype BundleError = UnsafeShardName | MissingShard | ArchitecturesNotIterable
    | BadShard(name: string, error: ShardError)

  // ---------------------------------------------------------------- tensor names

  /** `name.split(".", 1)[0]`. */
  function Root(name: string): string {
    if name == "" || name[0] == '.' then "" else [name[0]] + Root(name[1..])
  }

  predicate HasPrefix(name: string) { BACKBONE_TENSOR_PREFIX <= name }

  /** `name.split(".")[1]` of a name with the prefix. */
  function InnerRoot(name: string): string
    requires HasPrefix(name)
  {
    Root(name[|BACKBONE_TENSOR_PREFIX|..])
  }

  predicate IsBackboneRoot(root: string) {
    root == "embed_tokens" || root == "layers" || root == "norm" || root == "rotary_emb"
  }

  /** `_prefix_backbone_tensor`. */
  function Prefixed(name: string): string {
    if IsBackboneRoot(Root(name)) then BACKBONE_TENSOR_PREFIX + name else name
  }

  /** The renaming in use: the prefix, or none. */
  function Renamed(prefix: bool, name: string): string {
    if prefix then Prefixed(name) else name
  }

  predicate AnyHasPrefix(names: seq<string>) { exists i | 0 <= i < |names| :: HasPrefix(names[i]) }

  predicate AnyHasRoot(names: seq<string>, root: string) { exists i | 0 <= i < |names| :: Root(names[i]) == root }

  predicate AnyHasInnerRoot(names: seq<string>, root: string) {
    exists i | 0 <= i < |names| :: HasPrefix(names[i]) && InnerRoot(names[i]) == root
  }

  predicate AnyIsBackbone(names: seq<string>) { exists i | 0 <= i < |names| :: IsBackboneRoot(Root(names[i])) }

  // ---------------------------------------------------------------- what a bundle looks like

  datatype Layout = Layout(
    tensorNames: seq<string>,
    shardNames: seq<string>,
    hasIndex: bool,
    backbonePrefixMissing: bool,
    hasLmHead: bool,
    declaresTied: Option<bool>,
    architectures: seq<string>)
  {
    predicate NeedsTieReconciliation() { declaresTied == Some(false) && !hasLmHead }

    predicate NeedsNormalization() { backbonePrefixMissing || NeedsTieReconciliation() }
  }

  predicate HasDecoderRoot(names: seq<string>, root: string) {
    AnyHasRoot(names, root) || (AnyHasRoot(names, MODEL) && AnyHasInnerRoot(names, root))
  }

  predicate IsDecoder(host: Host, layout: Layout) {
    || (exists i | 0 <= i < |layout.architectures| :: host.marksDecoder(layout.architectures[i]))
    || (HasDecoderRoot(layout.tensorNames, "layers") && HasDecoderRoot(layout.tensorNames, "embed_tokens"))
  }

  function Texts(items: seq<Json>): seq<string> {
    if |items| == 0 then [] else (if items[0].Str? then [items[0].s] else []) + Texts(items[1..])
  }

  /** What Python iterates over: a list's items, a dictionary's keys, a string's characters. */
  function Architectures(config: Members): Result<seq<string>, BundleError> {
    match Get(config, ARCHITECTURES_KEY)
    case None => Success([])
    case Some(Arr(items)) => Success(Texts(items))
    case Some(Obj(members)) => Success(seq(|members|, i requires 0 <= i < |members| => members[i].key))
    case Some(Str(s)) => Success(seq(|s|, i requires 0 <= i < |s| => [s[i]]))
    case Some(_) => Failure(ArchitecturesNotIterable)
  }

  function DeclaresTied(config: Members): Option<bool> {
    match Get(config, TIE_KEY)
    case Some(Bool(b)) => Some(b)
    case _ => None
  }

  // ---------------------------------------------------------------- the inventory

  function WeightMap(index: Members): Members {
    match Get(index, WEIGHT_MAP_KEY)
    case Some(Obj(members)) => members
    case _ => []
  }

  predicate HasWeightSuffix(name: string) {
    |WEIGHT_SUFFIX| <= |name| && name[|name| - |WEIGHT_SUFFIX|..] == WEIGHT_SUFFIX
  }

  predicate IsWeightShard(name: string) { HasWeightSuffix(name) && name[0] != '.' }

  predicate IsSafeName(name: string) { HasWeightSuffix(name) && '/' !in name && '\\' !in name }

  /** `_validated_index_shard_names`: the shards of the index, each once, in order of appearance. */
  function ValidatedShardNames(files: set<string>, weightMap: Members, n: nat): Result<seq<string>, BundleError>
    requires n <= |weightMap|
  {
    if n == 0 then Success([])
    else
      match ValidatedShardNames(files, weightMap, n - 1)
      case Failure(e) => Failure(e)
      case Success(shards) =>
        match weightMap[n - 1].value
        case Str(name) =>
          if !IsSafeName(name) then Failure(UnsafeShardName)
          else if name !in files then Failure(MissingShard)
          else Success(if name in shards then shards else shards + [name])
        case _ => Failure(UnsafeShardName)
  }

  function TensorKeys(entries: Members): seq<string> {
    if |entries| == 0 then []
    else (if entries[0].key == METADATA_KEY then [] else [entries[0].key]) + TensorKeys(entries[1..])
  }

  /** A shard whose header cannot be read contributes no names. */
  function ShardTensors(codec: Codec, data: Bytes): seq<string> {
    match ReadHeader(codec, data)
    case Success(header) => TensorKeys(header.entries)
    case Failure(_) => []
  }

  function NamesInShards(codec: Codec, files: map<string, Bytes>, shards: seq<string>, n: nat): seq<string>
    requires n <= |shards|
  {
    if n == 0 then []
    else NamesInShards(codec, files, shards, n - 1)
         + (if shards[n - 1] in files then ShardTensors(codec, files[shards[n - 1]]) else [])
  }

  /** A sorted listing has exactly the entries of the directory. */
  ghost predicate ListsAll(host: Host) {
    forall s: set<string>, name :: name in host.sorted(s) <==> name in s
  }

  function ListedShards(host: Host, files: set<string>): (r: seq<string>)
    requires ListsAll(host)
    ensures forall name :: name in r <==> name in files && IsWeightShard(name)
  {
    host.sorted(set name | name in files && IsWeightShard(name))
  }

  datatype Inventory = Inventory(names: seq<string>, shards: seq<string>, hasIndex: bool)

  function KeysInOrder(members: Members): (r: seq<string>)
    ensures |r| == |members| && forall i | 0 <= i < |r| :: r[i] == members[i].key
  {
    seq(|members|, i requires 0 <= i < |members| => members[i].key)
  }

  /** `_read_tensor_inventory`. */
  function TensorInventory(host: Host, bundle: Bundle): Result<Inventory, BundleError>
    requires ListsAll(host)
  {
    var weightMap := WeightMap(bundle.index);
    if |weightMap| > 0 then
      match ValidatedShardNames(bundle.files.Keys, weightMap, |weightMap|)
      case Failure(e) => Failure(e)
      case Success(shards) => Success(Inventory(KeysInOrder(weightMap), shards, true))
    else
      var shards := ListedShards(host, bundle.files.Keys);
      Success(Inventory(NamesInShards(host.codec, bundle.files, shards, |shards|), shards, false))
  }

  /** `inspect_checkpoint_layout`. Without tensor names nothing but the config is reported. */
  function Inspect(host: Host, bundle: Bundle): Result<Layout, BundleError>
    requires ListsAll(host)
  {
    match Architectures(bundle.config)
    case Failure(e) => Failure(e)
    case Success(architectures) =>
      match TensorInventory(host, bundle)
      case Failure(e) => Failure(e)
      case Success(inventory) =>
        var names := inventory.names;
        if |names| == 0 then Success(Layout([], [], false, false, false, DeclaresTied(bundle.config), architectures))
        else
          Success(Layout(
            names, inventory.shards, inventory.hasIndex,
            !AnyHasPrefix(names) && AnyIsBackbone(names),
            AnyHasRoot(names, LM_HEAD),
            DeclaresTied(bundle.config), architectures))
  }

  // ---------------------------------------------------------------- writing the normalised bundle

  function Existing(files: set<string>, names: seq<string>): (r: seq<string>)
    ensures forall name :: name in r <==> name in names && name in files
  {
    if |names| == 0 then []
    else (if names[0] in files then [names[0]] else []) + Existing(files, names[1..])
  }

  /** `_weight_file_names`. */
  function WeightFiles(host: Host, bundle: Bundle, layout: Layout): (r: seq<string>)
    requires ListsAll(host)
    ensures forall i | 0 <= i < |r| :: r[i] in bundle.files
  {
    if |layout.shardNames| > 0 then
      var r := Existing(bundle.files.Keys, layout.shardNames);
      assert forall i | 0 <= i < |r| :: r[i] in r;
      r
    else
      var r := ListedShards(host, bundle.files.Keys);
      assert forall i | 0 <= i < |r| :: r[i] in r;
      r
  }

  function NewShard(codec: Codec, prefix: bool, data: Bytes): Result<Bytes, ShardError> {
    if prefix then RewrittenShard(codec, Prefixed, data) else Success(data)
  }

  function WrittenShards(codec: Codec, prefix: bool, files: map<string, Bytes>, names: seq<string>, n: nat)
    : Result<map<string, Bytes>, BundleError>
    requires n <= |names| && forall i | 0 <= i < |names| :: names[i] in files
  {
    if n == 0 then Success(map[])
    else
      match WrittenShards(codec, prefix, files, names, n - 1)
      case Failure(e) => Failure(e)
      case Success(written) =>
        match NewShard(codec, prefix, files[names[n - 1]])
        case Failure(e) => Failure(BadShard(names[n - 1], e))
        case Success(data) => Success(written[names[n - 1] := data])
  }

  /** `_copy_support_files`: neither shards nor hidden files. */
  function SupportFiles(files: map<string, Bytes>, weightFiles: seq<string>): map<string, Bytes> {
    map name | name in files && name !in weightFiles && !HasWeightSuffix(name) && (name == "" || name[0] != '.') ::
      files[name]
  }

  /** The rebuilt weight map, name by name. */
  function RenamedMap(prefix: bool, weightMap: Members, n: nat): Members
    requires n <= |weightMap|
  {
    if n == 0 then []
    else Put(RenamedMap(prefix, weightMap, n - 1), Renamed(prefix, weightMap[n - 1].key), weightMap[n - 1].value)
  }

  function NewIndex(index: Members, layout: Layout): Members {
    if !layout.hasIndex then []
    else
      var weightMap := WeightMap(index);
      Put(index, WEIGHT_MAP_KEY, Obj(RenamedMap(layout.backbonePrefixMissing, weightMap, |weightMap|)))
  }

  function NewConfig(config: Members, layout: Layout): Members {
    if config != [] && layout.NeedsTieReconciliation() then Put(config, TIE_KEY, Bool(true)) else config
  }

  /** `normalize_checkpoint_bundle` into a fresh directory; None when nothing is to be done. */
  function Normalize(host: Host, bundle: Bundle): Result<Option<Bundle>, BundleError>
    requires ListsAll(host)
  {
    match Inspect(host, bundle)
    case Failure(e) => Failure(e)
    case Success(layout) =>
      if !layout.NeedsNormalization() then Success(None)
      else
        var weightFiles := WeightFiles(host, bundle, layout);
        match WrittenShards(host.codec, layout.backbonePrefixMissing, bundle.files, weightFiles, |weightFiles|)
        case Failure(e) => Failure(e)
        case Success(written) =>
          Success(Some(Bundle(NewConfig(bundle.config, layout), NewIndex(bundle.index, layout),
                              SupportFiles(bundle.files, weightFiles) + written)))
  }

  // ---------------------------------------------------------------- the loops

  lemma {:induction false} InvalidNameIsFinal(files: set<string>, weightMap: Members, n: nat, m: nat)
    requires n <= m <= |weightMap| && ValidatedShardNames(files, weightMap, n).Failure?
    ensures ValidatedShardNames(files, weightMap, m) == ValidatedShardNames(files, weightMap, n)
  {
    if n < m { InvalidNameIsFinal(files, weightMap, n, m - 1); }
  }

  method ValidatedIndexShardNames(files: set<string>, weightMap: Members) returns (r: Result<seq<string>, BundleError>)
    ensures r == ValidatedShardNames(files, weightMap, |weightMap|)
  {
    var shards: seq<string> := [];
    for i := 0 to |weightMap|
      invariant ValidatedShardNames(files, weightMap, i) == Success(shards)
    {
      var rawName := weightMap[i].value;
      if !rawName.Str? || !IsSafeName(rawName.s) {
        InvalidNameIsFinal(files, weightMap, i + 1, |weightMap|);
        return Failure(UnsafeShardName);
      }
      if rawName.s !in files {
        InvalidNameIsFinal(files, weightMap, i + 1, |weightMap|);
        return Failure(MissingShard);
      }
      if rawName.s !in shards { shards := shards + [rawName.s]; }
    }
    r := Success(shards);
  }

  method ReadTensorInventory(host: Host, bundle: Bundle) returns (r: Result<Inventory, BundleError>)
    requires ListsAll(host)
    ensures r == TensorInventory(host, bundle)
  {
    var weightMap := WeightMap(bundle.index);
    if |weightMap| > 0 {
      var validated := ValidatedIndexShardNames(bundle.files.Keys, weightMap);
      if validated.Failure? { return Failure(validated.error); }
      return Success(Inventory(KeysInOrder(weightMap), validated.value, true));
    }
    var shards := ListedShards(host, bundle.files.Keys);
    var names: seq<string> := [];
    for i := 0 to |shards|
      invariant names == NamesInShards(host.codec, bundle.files, shards, i)
    {
      if shards[i] in bundle.files {
        var read := ReadHeader(host.codec, bundle.files[shards[i]]);
        if read.Success? { names := names + TensorKeys(read.value.entries); }
      }
    }
    r := Success(Inventory(names, shards, false));
  }

  method InspectCheckpointLayout(host: Host, bundle: Bundle) returns (r: Result<Layout, BundleError>)
    requires ListsAll(host)
    ensures r == Inspect(host, bundle)
  {
    hide ListsAll, TensorInventory, Architectures, DeclaresTied;
    var architectures := Architectures(bundle.config);
    if architectures.Failure? { return Failure(architectures.error); }
    var read := ReadTensorInventory(host, bundle);
    if read.Failure? { return Failure(read.error); }
    var declaredTie := DeclaresTied(bundle.config);
    var names := read.value.names;
    if |names| == 0 { return Success(Layout([], [], false, false, false, declaredTie, architectures.value)); }
    var prefixMissing := !AnyHasPrefix(names) && AnyIsBackbone(names);
    r := Success(Layout(names, read.value.shards, read.value.hasIndex, prefixMissing, AnyHasRoot(names, LM_HEAD),
                        declaredTie, architectures.value));
  }

  method RewriteIndex(index: Members, layout: Layout) returns (rewritten: Members)
    ensures rewritten == NewIndex(index, layout)
  {
    if !layout.hasIndex { return []; }
    var weightMap := WeightMap(index);
    var renamed: Members := [];
    for i := 0 to |weightMap|
      invariant renamed == RenamedMap(layout.backbonePrefixMissing, weightMap, i)
    {
      renamed := Put(renamed, Renamed(layout.backbonePrefixMissing, weightMap[i].key), weightMap[i].value);
    }
    rewritten := Put(index, WEIGHT_MAP_KEY, Obj(renamed));
  }

  lemma {:induction false} BadShardIsFinal(codec: Codec, prefix: bool, files: map<string, Bytes>, names: seq<string>,
                                           n: nat, m: nat)
    requires n <= m <= |names| && forall i | 0 <= i < |names| :: names[i] in files
    requires WrittenShards(codec, prefix, files, names, n).Failure?
    ensures WrittenShards(codec, prefix, files, names, m) == WrittenShards(codec, prefix, files, names, n)
  {
    if n < m { BadShardIsFinal(codec, prefix, files, names, n, m - 1); }
  }

  method WriteShards(codec: Codec, prefix: bool, files: map<string, Bytes>, names: seq<string>)
    returns (r: Result<map<string, Bytes>, BundleError>)
    requires forall i | 0 <= i < |names| :: names[i] in files
    ensures r == WrittenShards(codec, prefix, files, names, |names|)
  {
    hide RewrittenShard;
    var written: map<string, Bytes> := map[];
    for i := 0 to |names|
      invariant WrittenShards(codec, prefix, files, names, i) == Success(written)
    {
      var source := files[names[i]];
      if prefix {
        var target := RewriteSafetensorsNames(codec, Prefixed, source);
        if target.Failure? {
          BadShardIsFinal(codec, prefix, files, names, i + 1, |names|);
          return Failure(BadShard(names[i], target.error));
        }
        written := written[names[i] := target.value];
      } else {
        written := written[names[i] := source];
      }
    }
    r := Success(written);
  }

  method NormalizeCheckpointBundle(host: Host, bundle: Bundle) returns (r: Result<Option<Bundle>, BundleError>)
    requires ListsAll(host)
    ensures r == Normalize(host, bundle)
  {
    var inspected := InspectCheckpointLayout(host, bundle);
    if inspected.Failure? { return Failure(inspected.error); }
    var layout := inspected.value;
    if !layout.NeedsNormalization() { return Success(None); }
    var weightFiles := WeightFiles(host, bundle, layout);
    var written := WriteShards(host.codec, layout.backbonePrefixMissing, bundle.files, weightFiles);
    if written.Failure? { return Failure(written.error); }
    var files := SupportFiles(bundle.files, weightFiles) + written.value;
    var index := RewriteIndex(bundle.index, layout);
    r := Success(Some(Bundle(NewConfig(bundle.config, layout), index, files)));
  }
}
