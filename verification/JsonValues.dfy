/**
  JSON values as the Python code holds them after `json.loads`. A dictionary is the sequence of its
  items in insertion order; a look-up finds the first item with the key.
  */
module JsonValues {
  import opened Wrappers

  type Members = seq<Member>

  /** One item of a dictionary. */
  datatype Member = Member(key: string, value: Json)

  datatype Json =
    | Null
    | Bool(b: bool)
    | Int(i: int)
    | Float(x: real)
    | Str(s: string)
    | Arr(items: seq<Json>)
    | Obj(members: seq<Member>)

  // ---------------------------------------------------------------- dictionaries

  function Keys(m: Members): set<string> {
    set i | 0 <= i < |m| :: m[i].key
  }

  predicate DistinctKeys(m: Members) {
    forall i, j :: 0 <= i < j < |m| ==> m[i].key != m[j].key
  }

  /** `m[key]`, for a key that is present. */
  function Lookup(m: Members, key: string): (v: Json)
    requires key in Keys(m)
    ensures exists i :: 0 <= i < |m| && m[i] == Member(key, v)
  {
    if m[0].key == key then
      assert m[0] == Member(key, m[0].value);
      m[0].value
    else
      var v := Lookup(m[1..], key);
      assert forall i :: 0 <= i < |m| - 1 ==> m[1..][i] == m[i + 1];
      v
  }

  /** `m.get(key)`, with None for an absent key. */
  function Get(m: Members, key: string): Option<Json> {
    if key in Keys(m) then Some(Lookup(m, key)) else None
  }

  /** `m[key] = v`: a present key keeps its place, a new one goes last. */
  function Put(m: Members, key: string, v: Json): Members {
    if |m| == 0 then [Member(key, v)]
    else if m[0].key == key then [Member(key, v)] + m[1..]
    else [m[0]] + Put(m[1..], key, v)
  }

  /** What `m.pop(key, None)` leaves. */
  function Without(m: Members, key: string): (r: Members)
    ensures forall i :: 0 <= i < |r| ==> r[i] in m && r[i].key != key
  {
    if |m| == 0 then []
    else if m[0].key == key then Without(m[1..], key)
    else [m[0]] + Without(m[1..], key)
  }

  lemma LookupAt(m: Members, i: nat)
    requires i < |m| && DistinctKeys(m)
    ensures m[i].key in Keys(m) && Lookup(m, m[i].key) == m[i].value
  {
    assert m[i].key in Keys(m);
    var j :| 0 <= j < |m| && m[j] == Member(m[i].key, Lookup(m, m[i].key));
  }

  lemma Unfold(m: Members)
    requires |m| > 0
    ensures Keys(m) == {m[0].key} + Keys(m[1..])
    ensures DistinctKeys(m) <==> m[0].key !in Keys(m[1..]) && DistinctKeys(m[1..])
  {
    assert forall i :: 0 < i < |m| ==> m[i] == m[1..][i - 1];
    forall k | k in {m[0].key} + Keys(m[1..]) ensures k in Keys(m) {
      if k == m[0].key {
      } else {
        var i :| 0 <= i < |m[1..]| && m[1..][i].key == k;
        assert m[i + 1].key == k;
      }
    }
    if m[0].key !in Keys(m[1..]) && DistinctKeys(m[1..]) {
      forall i, j | 0 <= i < j < |m| ensures m[i].key != m[j].key {
        assert m[1..][j - 1].key in Keys(m[1..]);
      }
    }
  }

  lemma {:induction false} PutKeys(m: Members, key: string, v: Json)
    ensures Keys(Put(m, key, v)) == Keys(m) + {key}
    ensures DistinctKeys(m) ==> DistinctKeys(Put(m, key, v))
  {
    var p := Put(m, key, v);
    Unfold(p);
    if |m| > 0 {
      Unfold(m);
      if m[0].key == key {
        assert p[1..] == m[1..];
      } else {
        assert p[1..] == Put(m[1..], key, v);
        PutKeys(m[1..], key, v);
      }
    }
  }

  /** Assignment changes the one key and no other. */
  lemma {:induction false} PutThenGet(m: Members, key: string, v: Json, k: string)
    ensures Get(Put(m, key, v), k) == if k == key then Some(v) else Get(m, k)
  {
    var p := Put(m, key, v);
    Unfold(p);
    PutKeys(m, key, v);
    if |m| > 0 {
      Unfold(m);
      if m[0].key == key {
        assert p[1..] == m[1..];
      } else {
        assert p[1..] == Put(m[1..], key, v);
        PutThenGet(m[1..], key, v, k);
      }
    }
  }

  /** A new key goes last. */
  lemma {:induction false} PutNew(m: Members, key: string, v: Json)
    requires key !in Keys(m)
    ensures Put(m, key, v) == m + [Member(key, v)]
  {
    if |m| > 0 {
      Unfold(m);
      PutNew(m[1..], key, v);
      assert m == [m[0]] + m[1..];
    }
  }

  // ---------------------------------------------------------------- size

  /** Nodes of a value, every dictionary item costing one more than its value. */
  function Size(v: Json): (n: nat)
    ensures n >= 1
    decreases v
  {
    match v
    case Arr(items) => 1 + ItemsSize(items)
    case Obj(members) => 1 + MembersSize(members)
    case _ => 1
  }

  function ItemsSize(items: seq<Json>): nat
    decreases items
  {
    if |items| == 0 then 0 else Size(items[0]) + ItemsSize(items[1..])
  }

  function MembersSize(members: Members): nat
    decreases members
  {
    if |members| == 0 then 0
    else
      1 + Size(members[0].value) + MembersSize(members[1..])
  }

  lemma ItemIsSmaller(items: seq<Json>, i: nat)
    requires i < |items|
    ensures Size(items[i]) <= ItemsSize(items)
  {
    if i > 0 { ItemIsSmaller(items[1..], i - 1); }
  }

  lemma MemberIsSmaller(members: Members, i: nat)
    requires i < |members|
    ensures 1 + Size(members[i].value) <= MembersSize(members)
  {
    if i > 0 { MemberIsSmaller(members[1..], i - 1); }
  }

  lemma LookupIsSmaller(members: Members, key: string)
    requires key in Keys(members)
    ensures 1 + Size(Lookup(members, key)) <= MembersSize(members)
  {
    var i :| 0 <= i < |members| && members[i] == Member(key, Lookup(members, key));
    MemberIsSmaller(members, i);
  }

  // ---------------------------------------------------------------- equality

  predicate IsScalar(v: Json) { !v.Arr? && !v.Obj? }

  /** Python's `left == right` on scalars; `True == 1 == 1.0` there. */
  function NumberOf(v: Json): Option<real> {
    match v
    case Bool(b) => Some(if b then 1.0 else 0.0)
    case Int(i) => Some(i as real)
    case Float(x) => Some(x)
    case _ => None
  }

  predicate ScalarEqual(left: Json, right: Json)
    requires IsScalar(left) && IsScalar(right)
  {
    if NumberOf(left).Some? || NumberOf(right).Some? then NumberOf(left) == NumberOf(right)
    else left == right
  }

  /**
    Deep equality. With `separate` it is the validator's JSON equality, which never identifies a
    boolean with a number; without, it is Python's own `==`.
    */
  predicate DeepEqual(separate: bool, left: Json, right: Json)
    decreases left
  {
    if separate && left.Bool? != right.Bool? then false
    else if left.Obj? && right.Obj? then
      && Keys(left.members) == Keys(right.members)
      && forall k | k in Keys(left.members) ::
           DeepEqual(separate, Lookup(left.members, k), Lookup(right.members, k))
    else if left.Arr? && right.Arr? then
      && |left.items| == |right.items|
      && forall i | 0 <= i < |left.items| :: DeepEqual(separate, left.items[i], right.items[i])
    else if !IsScalar(left) || !IsScalar(right) then false
    else ScalarEqual(left, right)
  }

  predicate JsonEqual(left: Json, right: Json) { DeepEqual(true, left, right) }

  predicate PythonEqual(left: Json, right: Json) { DeepEqual(false, left, right) }

  lemma {:induction false} EqualReflexive(separate: bool, v: Json)
    ensures DeepEqual(separate, v, v)
    decreases v
  {
    match v
    case Obj(m) =>
      forall k | k in Keys(m) ensures DeepEqual(separate, Lookup(m, k), Lookup(m, k)) {
        EqualReflexive(separate, Lookup(m, k));
      }
    case Arr(items) =>
      forall i | 0 <= i < |items| ensures DeepEqual(separate, items[i], items[i]) {
        EqualReflexive(separate, items[i]);
      }
    case _ =>
  }

  lemma {:induction false} EqualSymmetric(separate: bool, a: Json, b: Json)
    requires DeepEqual(separate, a, b)
    ensures DeepEqual(separate, b, a)
    decreases a
  {
    match a
    case Obj(m) =>
      forall k | k in Keys(m) ensures DeepEqual(separate, Lookup(b.members, k), Lookup(m, k)) {
        EqualSymmetric(separate, Lookup(m, k), Lookup(b.members, k));
      }
    case Arr(items) =>
      forall i | 0 <= i < |items| ensures DeepEqual(separate, b.items[i], items[i]) {
        EqualSymmetric(separate, items[i], b.items[i]);
      }
    case _ =>
  }

  lemma {:induction false} EqualTransitive(separate: bool, a: Json, b: Json, c: Json)
    requires DeepEqual(separate, a, b) && DeepEqual(separate, b, c)
    ensures DeepEqual(separate, a, c)
    decreases a
  {
    match a
    case Obj(m) =>
      forall k | k in Keys(m) ensures DeepEqual(separate, Lookup(m, k), Lookup(c.members, k)) {
        EqualTransitive(separate, Lookup(m, k), Lookup(b.members, k), Lookup(c.members, k));
      }
    case Arr(items) =>
      forall i | 0 <= i < |items| ensures DeepEqual(separate, items[i], c.items[i]) {
        EqualTransitive(separate, items[i], b.items[i], c.items[i]);
      }
    case _ =>
  }

  /** A boolean equals only itself, at the top and at every depth below. */
  lemma BooleansStandApart(b: bool, v: Json)
    ensures JsonEqual(Bool(b), v) <==> v == Bool(b)
    ensures JsonEqual(v, Bool(b)) <==> v == Bool(b)
    ensures PythonEqual(Bool(b), Int(if b then 1 else 0))
  {}
}
