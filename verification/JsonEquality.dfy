/** What JSON equality means, independently of how it is decided. */
module JsonEquality {
  import opened Wrappers
  import opened JsonValues
  import opened JsonPointer

  /** The same kind and, for a scalar, the same content; an integer and a float may be the same number. */
  ghost predicate SameHere(a: Json, b: Json) {
    match a
    case Null => b.Null?
    case Bool(x) => b.Bool? && b.b == x
    case Int(i) => (b.Int? && b.i == i) || (b.Float? && b.x == i as real)
    case Float(x) => (b.Float? && b.x == x) || (b.Int? && b.i as real == x)
    case Str(s) => b.Str? && b.s == s
    case Arr(_) => b.Arr?
    case Obj(_) => b.Obj?
  }

  ghost predicate SameAt(a: Json, b: Json, path: seq<Segment>) {
    match (NodeAt(a, path), NodeAt(b, path))
    case (Some(x), Some(y)) => SameHere(x, y)
    case (None, None) => true
    case _ => false
  }

  /** Two values are equal exactly when they have the same paths and the same kind and content at each. */
  lemma EqualExactlyWhenSameEverywhere(a: Json, b: Json)
    ensures JsonEqual(a, b) <==> forall path :: SameAt(a, b, path)
  {
    if JsonEqual(a, b) {
      forall path ensures SameAt(a, b, path) { EqualIsSame(a, b, path); }
    }
    if forall path :: SameAt(a, b, path) { SameIsEqual(a, b); }
  }

  lemma {:induction false} EqualIsSame(a: Json, b: Json, path: seq<Segment>)
    requires JsonEqual(a, b)
    ensures SameAt(a, b, path)
    decreases path
  {
    if |path| > 0 {
      match path[0]
      case Key(k) =>
        if a.Obj? && k in Keys(a.members) { EqualIsSame(Lookup(a.members, k), Lookup(b.members, k), path[1..]); }
      case Index(i) =>
        if a.Arr? && i < |a.items| { EqualIsSame(a.items[i], b.items[i], path[1..]); }
    }
  }

  lemma {:induction false} SameIsEqual(a: Json, b: Json)
    requires forall path :: SameAt(a, b, path)
    ensures JsonEqual(a, b)
    decreases a
  {
    assert SameAt(a, b, []);
    match a
    case Obj(m) =>
      forall k ensures k in Keys(m) <==> k in Keys(b.members) {
        assert SameAt(a, b, [Key(k)] + []);
        KeyStep(a, k, []);
        KeyStep(b, k, []);
      }
      forall k | k in Keys(m) ensures JsonEqual(Lookup(m, k), Lookup(b.members, k)) {
        forall path ensures SameAt(Lookup(m, k), Lookup(b.members, k), path) {
          assert SameAt(a, b, [Key(k)] + path);
          KeyStep(a, k, path);
          KeyStep(b, k, path);
        }
        SameIsEqual(Lookup(m, k), Lookup(b.members, k));
      }
    case Arr(items) =>
      SameLength(items, b.items);
      forall i | 0 <= i < |items| ensures JsonEqual(items[i], b.items[i]) {
        forall path ensures SameAt(items[i], b.items[i], path) {
          assert SameAt(a, b, [Index(i)] + path);
          IndexStep(a, i, path);
          IndexStep(b, i, path);
        }
        SameIsEqual(items[i], b.items[i]);
      }
    case _ =>
  }

  lemma SameLength(items: seq<Json>, others: seq<Json>)
    requires forall path :: SameAt(Arr(items), Arr(others), path)
    ensures |items| == |others|
  {
    var i := if |items| <= |others| then |items| else |others|;
    assert SameAt(Arr(items), Arr(others), [Index(i)] + []);
    IndexStep(Arr(items), i, []);
    IndexStep(Arr(others), i, []);
  }

  lemma KeyStep(v: Json, k: string, path: seq<Segment>)
    ensures NodeAt(v, [Key(k)] + path)
         == if v.Obj? && k in Keys(v.members) then NodeAt(Lookup(v.members, k), path) else None
  {
    assert ([Key(k)] + path)[1..] == path;
  }

  lemma IndexStep(v: Json, i: nat, path: seq<Segment>)
    ensures NodeAt(v, [Index(i)] + path) == if v.Arr? && i < |v.items| then NodeAt(v.items[i], path) else None
  {
    assert ([Index(i)] + path)[1..] == path;
  }
}
