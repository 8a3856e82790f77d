/** Writing a JANG bundle out as plain tensors, one file each, and accounting for every tensor. */
module JangBundle {
  import opened Wrappers
  import opened Numerals
  import opened Dequantize

  type Shard<T> = map<string, Tensor<T>>

  datatype Item = Item(shard: string, tensor: string)

  datatype Group = Group(shard: string, tensors: seq<string>)

  /** The shards on disk, the group size, and a tensor's size in bytes. */
  datatype Source<!T> = Source(shards: map<string, Shard<T>>, groupSize: nat, arithmetic: Arithmetic<T>,
    bytes: Tensor<T> -> nat)

  datatype BundleError = NoWeights | MissingShard(shard: string) | MissingTensor(tensor: string)
    | BadTensor(tensor: string, error: JangError)

  ghost predicate AllShaped<T>(source: Source<T>) {
    forall shard, name | shard in source.shards && name in source.shards[shard] :: Shaped(source.shards[shard][name])
  }

  // ---------------------------------------------------------------- names

  const WEIGHT := ".weight"
  const SCALES := "scales"
  const BIASES := "biases"

  predicate EndsWith(name: string, suffix: string) { |suffix| <= |name| && name[|name| - |suffix|..] == suffix }

  predicate IsSidecar(name: string) { EndsWith(name, "." + SCALES) || EndsWith(name, "." + BIASES) }

  /** `_sibling_tensor_name`. */
  function Sibling(name: string, suffix: string): string {
    (if EndsWith(name, WEIGHT) then name[..|name| - |WEIGHT|] else name) + "." + suffix
  }

  /** A weight whose scales and biases are in the shard beside it. */
  predicate IsPacked<T>(shard: Shard<T>, name: string) {
    EndsWith(name, WEIGHT) && Sibling(name, SCALES) in shard && Sibling(name, BIASES) in shard
  }

  function OutputName(ordinal: nat): string { "model-" + Padded(ordinal, 5) + ".safetensors" }

  lemma OutputNamesApart(a: nat, b: nat)
    requires OutputName(a) == OutputName(b)
    ensures a == b
  {
    hide Padded;
    var x, y := Padded(a, 5), Padded(b, 5);
    assert OutputName(a)[6..][..|x|] == x && OutputName(b)[6..][..|y|] == y;
    assert |x| == |y| by { assert |OutputName(a)| == 6 + |x| + 12 && |OutputName(b)| == 6 + |y| + 12; }
    PaddedInjective(a, b, 5);
  }

  lemma OutputNamesDiffer(a: nat, b: nat)
    requires a != b
    ensures OutputName(a) != OutputName(b)
  {
    hide OutputName;
    if OutputName(a) == OutputName(b) { OutputNamesApart(a, b); }
  }

  // ---------------------------------------------------------------- grouping by shard

  /** `grouped.setdefault(shard, []).append(tensor)`. */
  function AddTo(groups: seq<Group>, item: Item): seq<Group> {
    if |groups| == 0 then [Group(item.shard, [item.tensor])]
    else if groups[0].shard == item.shard then [groups[0].(tensors := groups[0].tensors + [item.tensor])] + groups[1..]
    else [groups[0]] + AddTo(groups[1..], item)
  }

  function Grouped(items: seq<Item>, n: nat): seq<Group>
    requires n <= |items|
  {
    if n == 0 then [] else AddTo(Grouped(items, n - 1), items[n - 1])
  }

  function ItemsOf(shard: string, tensors: seq<string>): (r: seq<Item>)
    ensures |r| == |tensors|
  {
    seq(|tensors|, i requires 0 <= i < |tensors| => Item(shard, tensors[i]))
  }

  /** The order in which the tensors are written. */
  function Flat(groups: seq<Group>): seq<Item> {
    if |groups| == 0 then [] else ItemsOf(groups[0].shard, groups[0].tensors) + Flat(groups[1..])
  }

  method GroupTensorsByFile(items: seq<Item>) returns (groups: seq<Group>)
    ensures groups == Grouped(items, |items|)
  {
    groups := [];
    for i := 0 to |items|
      invariant groups == Grouped(items, i)
    {
      groups := AddTo(groups, items[i]);
    }
  }

  lemma {:induction false} AddedSomewhere(groups: seq<Group>, item: Item) returns (k: nat)
    ensures k <= |Flat(groups)| && Flat(AddTo(groups, item)) == Flat(groups)[..k] + [item] + Flat(groups)[k..]
  {
    if |groups| == 0 {
      k := 0;
      assert Flat(AddTo(groups, item)) == [item];
    } else {
      var first := ItemsOf(groups[0].shard, groups[0].tensors);
      var rest := Flat(groups[1..]);
      var after := AddTo(groups, item);
      if groups[0].shard == item.shard {
        k := |first|;
        assert ItemsOf(item.shard, groups[0].tensors + [item.tensor]) == first + [item];
        assert after[1..] == groups[1..];
        assert Flat(groups)[..k] == first && Flat(groups)[k..] == rest;
      } else {
        var j := AddedSomewhere(groups[1..], item);
        k := |first| + j;
        assert after[1..] == AddTo(groups[1..], item);
        assert Flat(groups)[..k] == first + rest[..j] && Flat(groups)[k..] == rest[j..];
      }
    }
  }

  /** The shards of the first `n` items, each where it first appears. */
  ghost function ShardsInOrder(items: seq<Item>, n: nat): (shards: seq<string>)
    requires n <= |items|
    ensures forall i, j | 0 <= i < j < |shards| :: shards[i] != shards[j]
  {
    if n == 0 then []
    else
      var before := ShardsInOrder(items, n - 1);
      if items[n - 1].shard in before then before else before + [items[n - 1].shard]
  }

  /** The tensors of one shard, in the order of the items. */
  ghost function TensorsOf(items: seq<Item>, n: nat, shard: string): seq<string>
    requires n <= |items|
  {
    if n == 0 then []
    else TensorsOf(items, n - 1, shard) + if items[n - 1].shard == shard then [items[n - 1].tensor] else []
  }

  lemma {:induction false} NoTensorsYet(items: seq<Item>, n: nat, shard: string)
    requires n <= |items| && shard !in ShardsInOrder(items, n)
    ensures TensorsOf(items, n, shard) == []
  {
    if n > 0 { NoTensorsYet(items, n - 1, shard); }
  }

  /** Where an item goes: to the group of its shard, or behind all groups. */
  lemma {:induction false} AddedAt(groups: seq<Group>, item: Item)
    ensures var after := AddTo(groups, item);
      if exists g :: 0 <= g < |groups| && groups[g].shard == item.shard then
        && |after| == |groups|
        && forall g | 0 <= g < |groups| && (forall h | 0 <= h < g :: groups[h].shard != groups[g].shard) ::
             after[g] == if groups[g].shard == item.shard then groups[g].(tensors := groups[g].tensors + [item.tensor])
                         else groups[g]
      else after == groups + [Group(item.shard, [item.tensor])]
  {
    if |groups| > 0 && groups[0].shard != item.shard {
      var rest := groups[1..];
      AddedAt(rest, item);
      assert forall g | 0 <= g < |rest| :: rest[g] == groups[g + 1];
      if exists g :: 0 <= g < |groups| && groups[g].shard == item.shard {
        var g :| 0 <= g < |groups| && groups[g].shard == item.shard;
        assert rest[g - 1].shard == item.shard;
      }
    }
  }

  /** The groups are the shards in the order of their first tensor, each with its tensors in order. */
  lemma {:induction false} GroupsAreInOrder(items: seq<Item>, n: nat)
    requires n <= |items|
    ensures var groups, shards := Grouped(items, n), ShardsInOrder(items, n);
      && |groups| == |shards|
      && forall g | 0 <= g < |groups| :: groups[g] == Group(shards[g], TensorsOf(items, n, shards[g]))
  {
    if n > 0 {
      GroupsAreInOrder(items, n - 1);
      var groups, shards := Grouped(items, n - 1), ShardsInOrder(items, n - 1);
      var item := items[n - 1];
      assert Grouped(items, n) == AddTo(groups, item);
      assert ShardsInOrder(items, n) == if item.shard in shards then shards else shards + [item.shard];
      hide AddTo, Grouped, ShardsInOrder, TensorsOf;
      if item.shard in shards {
        GrownInPlace(items, n, groups, shards);
      } else {
        GrownAtTheEnd(items, n, groups, shards);
      }
    }
  }

  lemma GrownInPlace(items: seq<Item>, n: nat, groups: seq<Group>, shards: seq<string>)
    requires 0 < n <= |items| && |groups| == |shards| && items[n - 1].shard in shards
    requires forall i, j | 0 <= i < j < |shards| :: shards[i] != shards[j]
    requires forall g | 0 <= g < |groups| :: groups[g] == Group(shards[g], TensorsOf(items, n - 1, shards[g]))
    ensures var after := AddTo(groups, items[n - 1]);
      |after| == |shards| && forall g | 0 <= g < |after| :: after[g] == Group(shards[g], TensorsOf(items, n, shards[g]))
  {
    AddedAt(groups, items[n - 1]);
    hide AddTo;
    var g :| 0 <= g < |shards| && shards[g] == items[n - 1].shard;
    assert groups[g].shard == items[n - 1].shard;
  }

  lemma GrownAtTheEnd(items: seq<Item>, n: nat, groups: seq<Group>, shards: seq<string>)
    requires 0 < n <= |items| && |groups| == |shards| && items[n - 1].shard !in shards
    requires forall g | 0 <= g < |groups| :: groups[g] == Group(shards[g], TensorsOf(items, n - 1, shards[g]))
    requires shards == ShardsInOrder(items, n - 1)
    ensures var after, grown := AddTo(groups, items[n - 1]), shards + [items[n - 1].shard];
      |after| == |grown| && forall g | 0 <= g < |after| :: after[g] == Group(grown[g], TensorsOf(items, n, grown[g]))
  {
    AddedAt(groups, items[n - 1]);
    NoTensorsYet(items, n - 1, items[n - 1].shard);
    hide AddTo, ShardsInOrder;
    forall g | 0 <= g < |shards| ensures shards[g] != items[n - 1].shard { assert shards[g] in shards; }
  }

  ghost predicate DistinctTensors(items: seq<Item>) {
    forall i, j | 0 <= i < j < |items| :: items[i].tensor != items[j].tensor
  }

  /** The same items, each still once. */
  ghost predicate SameItems(a: seq<Item>, b: seq<Item>) {
    |a| == |b| && DistinctTensors(a) && forall x :: x in a <==> x in b
  }

  /** Grouping reorders the items and loses none. */
  lemma {:induction false} GroupingKeepsItems(items: seq<Item>, n: nat)
    requires n <= |items| && DistinctTensors(items)
    ensures SameItems(Flat(Grouped(items, n)), items[..n])
  {
    if n > 0 {
      GroupingKeepsItems(items, n - 1);
      var before := Flat(Grouped(items, n - 1));
      var k := AddedSomewhere(Grouped(items, n - 1), items[n - 1]);
      hide Grouped, Flat;
      InsertionKeepsItems(before, items, n, k);
    }
  }

  lemma InsertionKeepsItems(before: seq<Item>, items: seq<Item>, n: nat, k: nat)
    requires 0 < n <= |items| && DistinctTensors(items) && SameItems(before, items[..n - 1]) && k <= |before|
    ensures SameItems(before[..k] + [items[n - 1]] + before[k..], items[..n])
  {
    var item := items[n - 1];
    var after := before[..k] + [item] + before[k..];
    forall i | 0 <= i < |before| ensures before[i].tensor != item.tensor {
      assert before[i] in items[..n - 1];
    }
    assert items[..n] == items[..n - 1] + [item];
    forall i, j | 0 <= i < j < |after| ensures after[i].tensor != after[j].tensor {
      assert i != k ==> after[i] == before[if i < k then i else i - 1];
      assert j != k ==> after[j] == before[if j < k then j else j - 1];
    }
    forall x ensures x in after <==> x in items[..n] {
      assert before == before[..k] + before[k..];
    }
  }

  // ---------------------------------------------------------------- one tensor at a time

  datatype Saved<T> = Saved(tensor: string, value: Tensor<T>)

  datatype Progress<T> = Progress(
    weightMap: map<string, string>,
    files: map<string, Saved<T>>,
    totalSize: nat,
    converted: nat,
    copied: nat,
    skipped: nat,
    ordinal: nat)

  ghost function Produced<T>(source: Source<T>, shard: Shard<T>, name: string): Result<Tensor<T>, BundleError>
    requires forall n | n in shard :: Shaped(shard[n])
  {
    if name !in shard then Failure(MissingTensor(name))
    else if IsPacked(shard, name) then
      match Dequantized(source.arithmetic, shard[name], shard[Sibling(name, SCALES)], shard[Sibling(name, BIASES)],
        source.groupSize)
      case Failure(e) => Failure(BadTensor(name, e))
      case Success(t) => Success(t)
    else Success(shard[name])
  }

  ghost function Step<T>(source: Source<T>, p: Progress<T>, item: Item): Result<Progress<T>, BundleError>
    requires AllShaped(source)
  {
    if item.shard !in source.shards then Failure(MissingShard(item.shard))
    else if IsSidecar(item.tensor) then Success(p.(skipped := p.skipped + 1))
    else
      var shard := source.shards[item.shard];
      match Produced(source, shard, item.tensor)
      case Failure(e) => Failure(e)
      case Success(value) =>
        var packed := IsPacked(shard, item.tensor);
        var output := OutputName(p.ordinal + 1);
        Success(Progress(p.weightMap[item.tensor := output], p.files[output := Saved(item.tensor, value)],
                         p.totalSize + source.bytes(value),
                         if packed then p.converted + 1 else p.converted, if packed then p.copied else p.copied + 1,
                         p.skipped, p.ordinal + 1))
  }

  ghost function Run<T>(source: Source<T>, items: seq<Item>, n: nat): Result<Progress<T>, BundleError>
    requires AllShaped(source) && n <= |items|
  {
    if n == 0 then Success(Progress(map[], map[], 0, 0, 0, 0, 0))
    else
      match Run(source, items, n - 1)
      case Failure(e) => Failure(e)
      case Success(p) => Step(source, p, items[n - 1])
  }

  /** The tensor loop of `normalize_jang_bundle`, over the sorted items of a weight map. */
  ghost function Normalized<T>(source: Source<T>, items: seq<Item>): Result<Progress<T>, BundleError>
    requires AllShaped(source)
  {
    if |items| == 0 then Failure(NoWeights)
    else
      var flat := Flat(Grouped(items, |items|));
      Run(source, flat, |flat|)
  }

  lemma {:induction false} FailureIsFinal<T>(source: Source<T>, items: seq<Item>, n: nat, m: nat)
    requires AllShaped(source) && n <= m <= |items| && Run(source, items, n).Failure?
    ensures Run(source, items, m) == Run(source, items, n)
  {
    if n < m { FailureIsFinal(source, items, n, m - 1); }
  }

  /** What one tensor becomes. */
  method Produce<T(0)>(source: Source<T>, shard: Shard<T>, name: string) returns (r: Result<Tensor<T>, BundleError>)
    requires forall n | n in shard :: Shaped(shard[n])
    ensures r == Produced(source, shard, name)
  {
    if name !in shard { return Failure(MissingTensor(name)); }
    if IsPacked(shard, name) {
      var t := DequantizeJangTensor(source.arithmetic, shard[name], shard[Sibling(name, SCALES)],
        shard[Sibling(name, BIASES)],
                                    source.groupSize);
      if t.Failure? { return Failure(BadTensor(name, t.error)); }
      return Success(t.value);
    }
    r := Success(shard[name]);
  }

  // ---------------------------------------------------------------- the nested loops

  lemma {:induction false} FlatConcat(a: seq<Group>, b: seq<Group>)
    ensures Flat(a + b) == Flat(a) + Flat(b)
  {
    if |a| == 0 {
      assert a + b == b;
    } else {
      assert (a + b)[1..] == a[1..] + b;
      FlatConcat(a[1..], b);
      hide ItemsOf;
      assert Flat(a) == ItemsOf(a[0].shard, a[0].tensors) + Flat(a[1..]);
    }
  }

  /** The items of one shard's tensors stand at `start` in the whole order. */
  ghost predicate StandAt(flat: seq<Item>, start: nat, shard: string, tensors: seq<string>) {
    start + |tensors| <= |flat| && flat[start..start + |tensors|] == ItemsOf(shard, tensors)
  }

  lemma GroupStandsAt(groups: seq<Group>, g: nat)
    requires g < |groups|
    ensures |Flat(groups[..g + 1])| == |Flat(groups[..g])| + |groups[g].tensors|
    ensures StandAt(Flat(groups), |Flat(groups[..g])|, groups[g].shard, groups[g].tensors)
  {
    var before := Flat(groups[..g]);
    var own := ItemsOf(groups[g].shard, groups[g].tensors);
    assert groups[..g + 1] == groups[..g] + [groups[g]];
    FlatConcat(groups[..g], [groups[g]]);
    assert Flat([groups[g]]) == own + [];
    assert groups == groups[..g + 1] + groups[g + 1..];
    FlatConcat(groups[..g + 1], groups[g + 1..]);
    var after := Flat(groups[g + 1..]);
    assert (before + own + after)[|before|..|before| + |own|] == own;
  }

  lemma {:induction false} NoGroupIsEmpty(items: seq<Item>, n: nat)
    requires n <= |items|
    ensures forall g | 0 <= g < |Grouped(items, n)| :: |Grouped(items, n)[g].tensors| > 0
  {
    if n > 0 {
      NoGroupIsEmpty(items, n - 1);
      AddToNonempty(Grouped(items, n - 1), items[n - 1]);
    }
  }

  lemma {:induction false} AddToNonempty(groups: seq<Group>, item: Item)
    requires forall g | 0 <= g < |groups| :: |groups[g].tensors| > 0
    ensures forall g | 0 <= g < |AddTo(groups, item)| :: |AddTo(groups, item)[g].tensors| > 0
  {
    if |groups| > 0 && groups[0].shard != item.shard { AddToNonempty(groups[1..], item); }
  }

  /** One pass of the inner loop. */
  method WriteTensor<T(0)>(source: Source<T>, p: Progress<T>, shardName: string, tensorName: string)
    returns (r: Result<Progress<T>, BundleError>)
    requires AllShaped(source) && shardName in source.shards
    ensures r == Step(source, p, Item(shardName, tensorName))
  {
    var shard := source.shards[shardName];
    if IsSidecar(tensorName) { return Success(p.(skipped := p.skipped + 1)); }
    var tensor := Produce(source, shard, tensorName);
    if tensor.Failure? { return Failure(tensor.error); }
    var converted, copied := p.converted, p.copied;
    if IsPacked(shard, tensorName) { converted := converted + 1; } else { copied := copied + 1; }
    var ordinal := p.ordinal + 1;
    var outputName := OutputName(ordinal);
    r := Success(Progress(p.weightMap[tensorName := outputName], p.files[outputName := Saved(tensorName, tensor.value)],
                          p.totalSize + source.bytes(tensor.value), converted, copied, p.skipped, ordinal));
  }

  /** The inner loop: the tensors of one shard, which stand at `start` in the whole order. */
  method WriteShardTensors<T(0)>(source: Source<T>, p: Progress<T>, shardName: string, tensors: seq<string>,
                                 ghost flat: seq<Item>, ghost start: nat)
    returns (r: Result<Progress<T>, BundleError>)
    requires AllShaped(source) && shardName in source.shards && StandAt(flat, start, shardName, tensors)
    requires Run(source, flat, start) == Success(p)
    ensures r == Run(source, flat, if r.Success? then start + |tensors| else |flat|)
  {
    hide Step, AllShaped, Run;
    var progress := p;
    for i := 0 to |tensors|
      invariant Run(source, flat, start + i) == Success(progress)
    {
      var next := WriteTensor(source, progress, shardName, tensors[i]);
      assert flat[start + i] == flat[start..start + |tensors|][i];
      RunOne(source, flat, start + i);
      if next.Failure? {
        FailureIsFinal(source, flat, start + i + 1, |flat|);
        return next;
      }
      progress := next.value;
    }
    r := Success(progress);
  }

  /** `normalize_jang_bundle`, from the sorted items of the weight map. */
  method NormalizeJangBundle<T(0)>(source: Source<T>, items: seq<Item>) returns (r: Result<Progress<T>, BundleError>)
    requires AllShaped(source)
    ensures r == Normalized(source, items)
  {
    hide *;
    NormalizedIs(source, items);
    if |items| == 0 { return Failure(NoWeights); }
    var groups := GroupTensorsByFile(items);
    NoGroupIsEmpty(items, |items|);
    ghost var flat := Flat(groups);
    RunStart(source, groups);
    var progress: Progress<T> := Progress(map[], map[], 0, 0, 0, 0, 0);
    for g := 0 to |groups|
      invariant |Flat(groups[..g])| <= |flat|
      invariant Run(source, flat, |Flat(groups[..g])|) == Success(progress)
    {
      GroupStandsAt(groups, g);
      ghost var start := |Flat(groups[..g])|;
      var shardName, tensors := groups[g].shard, groups[g].tensors;
      if shardName !in source.shards {
        ShardIsMissing(source, flat, start, shardName, tensors);
        return Failure(MissingShard(shardName));
      }
      var written := WriteShardTensors(source, progress, shardName, tensors, flat, start);
      if written.Failure? { return written; }
      progress := written.value;
    }
    assert groups[..|groups|] == groups;
    r := Success(progress);
  }

  lemma NormalizedIs<T>(source: Source<T>, items: seq<Item>)
    requires AllShaped(source)
    ensures var flat := Flat(Grouped(items, |items|));
      Normalized(source, items) == if |items| == 0 then Failure(NoWeights) else Run(source, flat, |flat|)
  {
    hide AllShaped, Flat, Grouped, Run;
  }

  lemma RunStart<T>(source: Source<T>, groups: seq<Group>)
    requires AllShaped(source)
    ensures Flat(groups[..0]) == [] && Run(source, Flat(groups), 0) == Success(Progress(map[], map[], 0, 0, 0, 0, 0))
  {
    hide AllShaped;
  }

  lemma RunOne<T>(source: Source<T>, items: seq<Item>, n: nat)
    requires AllShaped(source) && n < |items| && Run(source, items, n).Success?
    ensures Run(source, items, n + 1) == Step(source, Run(source, items, n).value, items[n])
  {
    hide AllShaped, Step;
  }

  lemma ShardIsMissing<T>(source: Source<T>, flat: seq<Item>, start: nat, shard: string, tensors: seq<string>)
    requires AllShaped(source) && StandAt(flat, start, shard, tensors) && |tensors| > 0 && shard !in source.shards
    requires Run(source, flat, start).Success?
    ensures Run(source, flat, |flat|) == Failure(MissingShard(shard))
  {
    hide AllShaped, Run;
    assert flat[start] == flat[start..start + |tensors|][0];
    RunOne(source, flat, start);
    FailureIsFinal(source, flat, start + 1, |flat|);
  }

  // ---------------------------------------------------------------- accounting

  /** How many of the first `n` tensors are not sidecars. */
  ghost function Kept(items: seq<Item>, n: nat): (k: nat)
    requires n <= |items|
    ensures k <= n
  {
    if n == 0 then 0 else Kept(items, n - 1) + (if IsSidecar(items[n - 1].tensor) then 0 else 1)
  }

  ghost predicate Expands<T>(source: Source<T>, item: Item) {
    !IsSidecar(item.tensor) && item.shard in source.shards && IsPacked(source.shards[item.shard], item.tensor)
  }

  ghost function Expanded<T>(source: Source<T>, items: seq<Item>, n: nat): nat
    requires n <= |items|
  {
    if n == 0 then 0 else Expanded(source, items, n - 1) + (if Expands(source, items[n - 1]) then 1 else 0)
  }

  /** The bytes written for the first `n` tensors. */
  ghost function BytesWritten<T>(source: Source<T>, items: seq<Item>, n: nat): nat
    requires AllShaped(source) && n <= |items|
  {
    if n == 0 then 0 else BytesWritten(source, items, n - 1) + BytesFor(source, items[n - 1])
  }

  ghost function BytesFor<T>(source: Source<T>, item: Item): nat
    requires AllShaped(source)
  {
    if IsSidecar(item.tensor) || item.shard !in source.shards then 0
    else
      match Produced(source, source.shards[item.shard], item.tensor)
      case Success(value) => source.bytes(value)
      case Failure(_) => 0
  }

  /** Tensor `i` is in the output: the `Kept`-th file holds it, copied or expanded from its own shard. */
  ghost predicate Written<T>(source: Source<T>, items: seq<Item>, p: Progress<T>, i: nat)
    requires AllShaped(source) && i < |items|
  {
    var Item(shard, name) := items[i];
    var output := OutputName(Kept(items, i + 1));
    && name in p.weightMap && p.weightMap[name] == output && output in p.files
    && shard in source.shards
    && Produced(source, source.shards[shard], name).Success?
    && p.files[output] == Saved(name, Produced(source, source.shards[shard], name).value)
  }

  ghost predicate Tallied<T>(source: Source<T>, items: seq<Item>, n: nat, p: Progress<T>)
    requires AllShaped(source) && n <= |items|
  {
    && p.ordinal == Kept(items, n) == p.converted + p.copied
    && p.skipped == n - Kept(items, n)
    && p.converted == Expanded(source, items, n)
    && p.totalSize == BytesWritten(source, items, n)
  }

  lemma {:induction false} RunTallies<T>(source: Source<T>, items: seq<Item>, n: nat)
    requires AllShaped(source) && n <= |items| && Run(source, items, n).Success?
    ensures Tallied(source, items, n, Run(source, items, n).value)
  {
    hide AllShaped, Produced, IsSidecar, IsPacked, OutputName;
    if n > 0 { RunTallies(source, items, n - 1); }
  }

  lemma {:induction false} KeptGrows(items: seq<Item>, i: nat, n: nat)
    requires i <= n <= |items|
    ensures Kept(items, i) <= Kept(items, n)
  {
    if i < n { KeptGrows(items, i, n - 1); }
  }

  lemma KeptApart(items: seq<Item>, i: nat, j: nat)
    requires i < j < |items| && !IsSidecar(items[j].tensor)
    ensures Kept(items, i + 1) < Kept(items, j + 1)
  {
    hide IsSidecar;
    KeptGrows(items, i + 1, j);
  }

  ghost predicate AllWritten<T>(source: Source<T>, items: seq<Item>, n: nat, p: Progress<T>)
    requires AllShaped(source) && n <= |items|
  {
    && (forall i | 0 <= i < n && !IsSidecar(items[i].tensor) :: Written(source, items, p, i))
    && (forall name | name in p.weightMap :: exists i :: 0 <= i < n && items[i].tensor == name && !IsSidecar(name))
  }

  lemma {:induction false} RunWrites<T>(source: Source<T>, items: seq<Item>, n: nat)
    requires AllShaped(source) && n <= |items| && DistinctTensors(items) && Run(source, items, n).Success?
    ensures AllWritten(source, items, n, Run(source, items, n).value)
  {
    hide AllShaped, Step, Written, IsSidecar;
    if n > 0 {
      RunWrites(source, items, n - 1);
      RunTallies(source, items, n - 1);
      var before, after := Run(source, items, n - 1).value, Run(source, items, n).value;
      StepWrites(source, items, n, before, after);
      forall i | 0 <= i < n - 1 && !IsSidecar(items[i].tensor) ensures Written(source, items, after, i) {
        StaysWritten(source, items, n, before, after, i);
      }
      forall name | name in after.weightMap
        ensures exists i :: 0 <= i < n && items[i].tensor == name && !IsSidecar(name)
      {
        if name in before.weightMap {
          var i :| 0 <= i < n - 1 && items[i].tensor == name && !IsSidecar(name);
        }
      }
    }
  }

  lemma StepWrites<T>(source: Source<T>, items: seq<Item>, n: nat, before: Progress<T>, after: Progress<T>)
    requires AllShaped(source) && 0 < n <= |items| && Step(source, before, items[n - 1]) == Success(after)
    requires before.ordinal == Kept(items, n - 1)
    ensures !IsSidecar(items[n - 1].tensor) ==> Written(source, items, after, n - 1)
    ensures forall name | name in after.weightMap ::
      name in before.weightMap || (name == items[n - 1].tensor && !IsSidecar(name))
  {
    hide AllShaped, Produced, IsSidecar, IsPacked, OutputName;
  }

  lemma StaysWritten<T>(source: Source<T>, items: seq<Item>, n: nat, before: Progress<T>, after: Progress<T>, i: nat)
    requires AllShaped(source) && 0 < n <= |items| && Step(source, before, items[n - 1]) == Success(after)
    requires before.ordinal == Kept(items, n - 1) && i < n - 1 && DistinctTensors(items)
    requires Written(source, items, before, i) && !IsSidecar(items[i].tensor)
    ensures Written(source, items, after, i)
  {
    hide AllShaped, Produced, IsSidecar, IsPacked, OutputName;
    KeptGrows(items, i + 1, n - 1);
    OutputNamesDiffer(before.ordinal + 1, Kept(items, i + 1));
  }

  /** The sorted items of a weight map: each tensor once, with its shard. */
  ghost predicate Lists(items: seq<Item>, weightMap: map<string, string>) {
    && |items| == |weightMap| && DistinctTensors(items)
    && forall x :: x in items <==> x.tensor in weightMap && weightMap[x.tensor] == x.shard
  }

  /** The tensor's own file holds it, expanded if it is a packed weight and as it was otherwise. */
  ghost predicate HoldsTensor<T>(source: Source<T>, weightMap: map<string, string>, p: Progress<T>, name: string)
    requires AllShaped(source) && name in weightMap
  {
    && weightMap[name] in source.shards && name in source.shards[weightMap[name]]
    && name in p.weightMap && p.weightMap[name] in p.files
    && var shard := source.shards[weightMap[name]];
       p.files[p.weightMap[name]].tensor == name
       && if IsPacked(shard, name) then
            Dequantized(source.arithmetic, shard[name], shard[Sibling(name, SCALES)], shard[Sibling(name, BIASES)],
              source.groupSize)
            == Success(p.files[p.weightMap[name]].value)
          else p.files[p.weightMap[name]].value == shard[name]
  }

  lemma WrittenHoldsTensor<T>(source: Source<T>, weightMap: map<string, string>, items: seq<Item>, p: Progress<T>,
                              i: nat)
    requires AllShaped(source) && i < |items| && Written(source, items, p, i)
    requires items[i].tensor in weightMap && weightMap[items[i].tensor] == items[i].shard
    ensures HoldsTensor(source, weightMap, p, items[i].tensor)
  {
    hide AllShaped, IsPacked, OutputName, Dequantized, Kept, Sibling;
  }

  lemma SameItemsAreListed(flat: seq<Item>, items: seq<Item>, weightMap: map<string, string>)
    requires SameItems(flat, items) && Lists(items, weightMap)
    ensures Lists(flat, weightMap)
  {}

  lemma OutputFilesApart<T>(source: Source<T>, items: seq<Item>, p: Progress<T>, a: string, b: string)
    requires AllShaped(source) && DistinctTensors(items) && AllWritten(source, items, |items|, p)
    requires a in p.weightMap && b in p.weightMap && a != b
    ensures p.weightMap[a] != p.weightMap[b]
  {
    hide AllShaped, Produced, IsSidecar, OutputName;
    var i :| 0 <= i < |items| && items[i].tensor == a && !IsSidecar(a);
    var j :| 0 <= j < |items| && items[j].tensor == b && !IsSidecar(b);
    assert Written(source, items, p, i) && Written(source, items, p, j);
    if i < j { KeptApart(items, i, j); } else { KeptApart(items, j, i); }
    OutputNamesDiffer(Kept(items, i + 1), Kept(items, j + 1));
  }

  /**
    Every tensor of the weight map is converted, copied or skipped, once. The output's names are those
    that are not sidecars; each has a file of its own, which holds the tensor.
    */
  lemma EveryTensorIsAccountedFor<T>(source: Source<T>, weightMap: map<string, string>, items: seq<Item>)
    requires AllShaped(source) && Lists(items, weightMap) && Normalized(source, items).Success?
    ensures var p := Normalized(source, items).value;
      && p.converted + p.copied + p.skipped == |weightMap|
      && (forall name :: name in p.weightMap <==> name in weightMap && !IsSidecar(name))
      && (forall a, b | a in p.weightMap && b in p.weightMap && a != b :: p.weightMap[a] != p.weightMap[b])
      && (forall name | name in p.weightMap :: name in weightMap && HoldsTensor(source, weightMap, p, name))
      && var flat := Flat(Grouped(items, |items|));
         Lists(flat, weightMap) && p.converted == Expanded(source, flat, |flat|)
           && p.totalSize == BytesWritten(source, flat, |flat|)
  {
    hide AllShaped, IsSidecar, HoldsTensor, Written, Grouped, Flat, Run;
    var flat := Flat(Grouped(items, |items|));
    var p := Normalized(source, items).value;
    GroupingKeepsItems(items, |items|);
    assert items[..|items|] == items;
    SameItemsAreListed(flat, items, weightMap);
    RunTallies(source, flat, |flat|);
    RunWrites(source, flat, |flat|);
    hide Lists, SameItems, DistinctTensors, Expanded, BytesWritten;
    forall name ensures name in p.weightMap <==> name in weightMap && !IsSidecar(name)
      ensures name in p.weightMap ==> name in weightMap && HoldsTensor(source, weightMap, p, name) {
      NameIsAccountedFor(source, weightMap, flat, p, name);
    }
    forall a, b | a in p.weightMap && b in p.weightMap && a != b ensures p.weightMap[a] != p.weightMap[b] {
      assert DistinctTensors(flat) by { ListsAreDistinct(flat, weightMap); }
      OutputFilesApart(source, flat, p, a, b);
    }
  }

  lemma ListsAreDistinct(items: seq<Item>, weightMap: map<string, string>)
    requires Lists(items, weightMap)
    ensures DistinctTensors(items)
  {}

  lemma NameIsAccountedFor<T>(source: Source<T>, weightMap: map<string, string>, items: seq<Item>, p: Progress<T>,
                              name: string)
    requires AllShaped(source) && Lists(items, weightMap) && AllWritten(source, items, |items|, p)
    ensures name in p.weightMap <==> name in weightMap && !IsSidecar(name)
    ensures name in p.weightMap ==> name in weightMap && HoldsTensor(source, weightMap, p, name)
  {
    hide AllShaped, IsSidecar, HoldsTensor, DistinctTensors;
    if name in p.weightMap {
      var i :| 0 <= i < |items| && items[i].tensor == name && !IsSidecar(name);
      NameIsHeld(source, weightMap, items, p, i);
    }
    if name in weightMap && !IsSidecar(name) {
      assert Item(weightMap[name], name) in items;
      var i :| 0 <= i < |items| && items[i] == Item(weightMap[name], name);
      NameIsHeld(source, weightMap, items, p, i);
    }
  }

  lemma NameIsHeld<T>(source: Source<T>, weightMap: map<string, string>, items: seq<Item>, p: Progress<T>, i: nat)
    requires AllShaped(source) && Lists(items, weightMap) && AllWritten(source, items, |items|, p)
    requires i < |items| && !IsSidecar(items[i].tensor)
    ensures items[i].tensor in p.weightMap && items[i].tensor in weightMap
    ensures HoldsTensor(source, weightMap, p, items[i].tensor)
  {
    hide AllShaped, IsSidecar, HoldsTensor, DistinctTensors;
    assert items[i] in items;
    assert Written(source, items, p, i);
    WrittenHoldsTensor(source, weightMap, items, p, i);
  }

  // ---------------------------------------------------------------- skipped tensors

  /** `name` is the scales or the biases that the weight is expanded with. */
  ghost predicate ExpandsWith<T>(source: Source<T>, weight: Item, name: string) {
    Expands(source, weight) && (name == Sibling(weight.tensor, SCALES) || name == Sibling(weight.tensor, BIASES))
  }

  lemma StemOfWeight(stem: string, weight: string, suffix: string)
    requires suffix == SCALES || suffix == BIASES
    ensures EndsWith(weight, WEIGHT)
        ==> (Sibling(weight, SCALES) == stem + "." + suffix || Sibling(weight, BIASES) == stem + "." + suffix
             <==> weight == stem + WEIGHT)
  {
    if EndsWith(weight, WEIGHT) {
      var own := weight[..|weight| - |WEIGHT|];
      assert weight == own + WEIGHT;
      SameStem(own, stem, suffix);
      if weight == stem + WEIGHT { assert own == stem; }
    }
  }

  lemma SameStem(a: string, b: string, suffix: string)
    requires suffix == SCALES || suffix == BIASES
    ensures a + "." + SCALES == b + "." + suffix || a + "." + BIASES == b + "." + suffix ==> a == b
  {
    assert |SCALES| == |BIASES|;
    assert forall x: string :: |x| == |SCALES| ==> (a + "." + x)[..|a|] == a && (b + "." + x)[..|b|] == b;
  }

  lemma WeightOfStem(stem: string)
    ensures var weight := stem + WEIGHT;
      EndsWith(weight, WEIGHT) && !IsSidecar(weight)
      && Sibling(weight, SCALES) == stem + "." + SCALES && Sibling(weight, BIASES) == stem + "." + BIASES
  {
    var weight := stem + WEIGHT;
    assert weight[|weight| - |WEIGHT|..] == WEIGHT && weight[..|weight| - |WEIGHT|] == stem;
    assert WEIGHT[6] == 't' && ("." + SCALES)[6] == 's' && ("." + BIASES)[6] == 's';
  }

  /**
    A skipped tensor goes into the output exactly when the weight of its name is listed for the same
    shard and both scales and biases are in that shard.
    */
  lemma SidecarIsUsedExactly<T>(source: Source<T>, weightMap: map<string, string>, stem: string, suffix: string)
    requires (suffix == SCALES || suffix == BIASES) && stem + "." + suffix in weightMap
    ensures var name := stem + "." + suffix;
      var shard := weightMap[name];
      (exists weight | weight in weightMap && weightMap[weight] == shard ::
        ExpandsWith(source, Item(shard, weight), name))
      <==> && stem + WEIGHT in weightMap && weightMap[stem + WEIGHT] == shard && shard in source.shards
           && stem + "." + SCALES in source.shards[shard] && stem + "." + BIASES in source.shards[shard]
  {
    hide IsSidecar, EndsWith, Sibling;
    var name := stem + "." + suffix;
    var shard := weightMap[name];
    WeightOfStem(stem);
    forall weight | weight in weightMap && ExpandsWith(source, Item(shard, weight), name)
      ensures weight == stem + WEIGHT
    {
      StemOfWeight(stem, weight, suffix);
    }
    assert ExpandsWith(source, Item(shard, stem + WEIGHT), name)
      <==> && shard in source.shards && stem + "." + SCALES in source.shards[shard]
           && stem + "." + BIASES in source.shards[shard];
  }

  /** The source with another tensor under a name it has. */
  function Altered<T>(source: Source<T>, shard: string, name: string, other: Tensor<T>): Source<T>
    requires shard in source.shards
  {
    source.(shards := source.shards[shard := source.shards[shard][name := other]])
  }

  /** A skipped tensor that no listed weight of its shard is expanded with leaves no trace. */
  lemma UnusedSidecarLeavesNoTrace<T>(source: Source<T>, items: seq<Item>, shard: string, name: string,
                                      other: Tensor<T>)
    requires AllShaped(source) && DistinctTensors(items) && Shaped(other)
    requires shard in source.shards && name in source.shards[shard] && IsSidecar(name)
    requires forall item | item in items && item.shard == shard :: !ExpandsWith(source, item, name)
    ensures AllShaped(Altered(source, shard, name, other))
    ensures Normalized(Altered(source, shard, name, other), items) == Normalized(source, items)
  {
    hide IsSidecar, Shaped, ExpandsWith, Run, Grouped, Flat;
    var flat := Flat(Grouped(items, |items|));
    GroupingKeepsItems(items, |items|);
    assert items[..|items|] == items;
    SameRun(source, flat, |flat|, shard, name, other);
  }

  lemma {:induction false} SameRun<T>(source: Source<T>, items: seq<Item>, n: nat, shard: string, name: string,
                                      other: Tensor<T>)
    requires shard in source.shards && name in source.shards[shard] && IsSidecar(name)
    requires AllShaped(source) && AllShaped(Altered(source, shard, name, other)) && n <= |items|
    requires forall item | item in items && item.shard == shard :: !ExpandsWith(source, item, name)
    ensures Run(Altered(source, shard, name, other), items, n) == Run(source, items, n)
  {
    hide AllShaped, IsSidecar, ExpandsWith, Step, Altered;
    if n > 0 {
      SameRun(source, items, n - 1, shard, name, other);
      var before := Run(source, items, n - 1);
      if before.Success? { SameStep(source, before.value, items[n - 1], shard, name, other); }
    }
  }

  lemma SameStep<T>(source: Source<T>, p: Progress<T>, item: Item, shard: string, name: string, other: Tensor<T>)
    requires shard in source.shards && name in source.shards[shard] && IsSidecar(name)
    requires AllShaped(source) && AllShaped(Altered(source, shard, name, other))
    requires item.shard == shard ==> !ExpandsWith(source, item, name)
    ensures Step(Altered(source, shard, name, other), p, item) == Step(source, p, item)
  {
    hide AllShaped, IsSidecar, Shaped, OutputName, Dequantized, Sibling, EndsWith;
  }

  /** The names the program gives to its files. */
  lemma OutputNamesSpelledOut()
    ensures OutputName(1) == "model-00001.safetensors" && OutputName(123456) == "model-123456.safetensors"
  {
    OrdinalsSpelledOut();
    hide Padded;
    assert "model-" + "00001" + ".safetensors" == "model-00001.safetensors";
    assert "model-" + "123456" + ".safetensors" == "model-123456.safetensors";
  }

  lemma OrdinalsSpelledOut()
    ensures Padded(1, 5) == "00001" && Padded(123456, 5) == "123456"
  {
    assert Numeral(1) == "1" && Numeral(123) == "123" && Numeral(123456) == "123456";
    assert Zeros(0) == "" && Zeros(2) == "00" && Zeros(4) == "0000";
  }

  lemma SiblingsOf(stem: string, weight: string)
    requires weight == stem + ".weight"
    ensures Sibling(weight, "scales") == stem + ".scales" && Sibling(weight, "biases") == stem + ".biases"
    ensures !IsSidecar(weight)
  {
    WeightOfStem(stem);
    hide Sibling, IsSidecar, EndsWith;
    Dotted(stem, "scales", ".scales");
    Dotted(stem, "biases", ".biases");
  }

  lemma Dotted(stem: string, word: string, dotted: string)
    requires dotted == "." + word
    ensures stem + "." + word == stem + dotted
  {}

  /** Sidecars end in `.scales` or `.biases`. */
  lemma SidecarsSpelledOut(name: string)
    ensures IsSidecar(name) <==> |name| >= 7 && (name[|name| - 7..] == ".scales" || name[|name| - 7..] == ".biases")
  {
    assert "." + SCALES == ".scales" && "." + BIASES == ".biases";
  }
}
