/**
  Documents that never meet the hop bound, whatever value they are given. A rank bounds the `$ref` hops
  that can follow at a node before some of the value is consumed: a certificate that chains of `$ref`,
  `allOf`, `anyOf`, `oneOf` and `not` end.
  */
module SchemaRanks {
  import opened Wrappers
  import opened JsonValues
  import opened JsonPointer
  import opened SchemaChecks
  import opened SchemaIssues
  import opened SchemaSemantics
  import opened SchemaTheorems

  /** `node` is the value or somewhere inside it. */
  ghost predicate Within(node: Json, v: Json)
    decreases v
  {
    || node == v
    || match v
       case Obj(members) => exists i | 0 <= i < |members| :: Within(node, members[i].value)
       case Arr(items) => exists i | 0 <= i < |items| :: Within(node, items[i])
       case _ => false
  }

  /** A hop lowers the rank, and a schema tried on the same value does not raise it. */
  ghost predicate NodeRanked(d: Document, rank: Json -> nat, limit: nat, node: Json)
    requires node.Obj?
  {
    && rank(node) <= limit
    && (Reference(node.members).Some? ==>
          && 0 < rank(node)
          && var target := Target(d, Reference(node.members).value); target.Some? ==> rank(target.value) < rank(node))
    && forall sub | IsBranch(sub, node) :: rank(sub) <= rank(node)
  }

  ghost predicate Ranked(d: Document, rank: Json -> nat, limit: nat) {
    forall node | Within(node, d.root) && node.Obj? :: NodeRanked(d, rank, limit, node)
  }

  lemma {:induction false} WithinWithin(a: Json, b: Json, c: Json)
    requires Within(a, b) && Within(b, c)
    ensures Within(a, c)
    decreases c
  {
    if b != c {
      match c
      case Obj(members) =>
        var i :| 0 <= i < |members| && Within(b, members[i].value);
        WithinWithin(a, b, members[i].value);
      case Arr(items) =>
        var i :| 0 <= i < |items| && Within(b, items[i]);
        WithinWithin(a, b, items[i]);
    }
  }

  lemma LookupIsWithin(members: Members, key: string)
    requires key in Keys(members)
    ensures Within(Lookup(members, key), Obj(members))
  {
    var v := Lookup(members, key);
    var i :| 0 <= i < |members| && members[i] == Member(key, v);
    assert Within(members[i].value, members[i].value);
  }

  lemma PartIsWithin(sub: Json, schema: Json)
    requires IsPart(sub, schema)
    ensures Within(sub, schema)
  {
    var k :| k in Keys(schema.members) && PartOf(sub, Lookup(schema.members, k));
    var keyword := Lookup(schema.members, k);
    LookupIsWithin(schema.members, k);
    assert Within(sub, sub);
    assert Within(sub, keyword);
    WithinWithin(sub, keyword, schema);
  }

  lemma {:induction false} NodeIsWithin(root: Json, path: seq<Segment>)
    requires NodeAt(root, path).Some?
    ensures Within(NodeAt(root, path).value, root)
  {
    if |path| > 0 {
      match path[0]
      case Key(k) =>
        NodeIsWithin(Lookup(root.members, k), path[1..]);
        LookupIsWithin(root.members, k);
        WithinWithin(NodeAt(root, path).value, Lookup(root.members, k), root);
      case Index(i) =>
        NodeIsWithin(root.items[i], path[1..]);
    }
  }

  lemma TargetIsWithin(d: Document, reference: string)
    requires Target(d, reference).Some?
    ensures Within(Target(d, reference).value, d.root)
  {
    var path := ResolvedTargetIsANode(reference, d.root, d.library.decoders);
    NodeIsWithin(d.root, path);
  }

  lemma RankedNode(d: Document, rank: Json -> nat, limit: nat, node: Json)
    requires Ranked(d, rank, limit) && Within(node, d.root) && node.Obj?
    ensures rank(node) <= limit
    ensures Reference(node.members).Some? ==> 0 < rank(node)
    ensures Reference(node.members).Some? ==>
      var target := Target(d, Reference(node.members).value);
      target.Some? ==> && Within(target.value, d.root) && rank(target.value) < rank(node)
                       && (target.value.Obj? ==> rank(target.value) <= limit)
  {
    hide Target, Within, Reference, IsBranch;
    assert NodeRanked(d, rank, limit, node);
    if Reference(node.members).Some? && Target(d, Reference(node.members).value).Some? {
      TargetIsWithin(d, Reference(node.members).value);
    }
  }

  /** In a ranked document no node meets the bound, on any value. */
  lemma {:induction false} RankedIsClean(d: Document, rank: Json -> nat, limit: nat, schema: Json, value: Json,
                                         depth: nat)
    requires Ranked(d, rank, limit) && Within(schema, d.root)
    requires depth <= limit && (schema.Obj? ==> rank(schema) + depth <= limit)
    ensures Clean(d, limit, schema, value, depth)
    decreases Size(value), limit - depth, Size(schema), 1
  {
    hide *;
    if schema.Obj? {
      var s := schema.members;
      assert schema == Obj(s);
      RankedNode(d, rank, limit, schema);
      if Reference(s).Some? && Target(d, Reference(s).value).Some? {
        RankedIsClean(d, rank, limit, Target(d, Reference(s).value).value, value, depth + 1);
      }
      ChecksFit(d.library, s, value);
      RankedVisitsAreClean(d, rank, limit, schema, value, Checks(d.library, s, value), depth);
      CleanParts(d, limit, s, value, depth);
    } else {
      NothingToClean(d, limit, schema, value, depth);
    }
  }

  lemma {:induction false} RankedVisitsAreClean(d: Document, rank: Json -> nat, limit: nat, schema: Json, value: Json,
                                                checks: seq<Check>, depth: nat)
    requires Ranked(d, rank, limit) && Within(schema, d.root) && schema.Obj?
    requires depth <= limit && rank(schema) + depth <= limit && AllFit(checks, schema, value)
    ensures VisitsClean(d, limit, schema, value, checks, depth)
    decreases Size(value), limit - depth, Size(schema), 0
  {
    hide Clean, IsBranch, IsPart, Within, Size;
    forall i, j | 0 <= i < |checks| && 0 <= j < |VisitsOf(checks[i])|
      ensures var v := VisitsOf(checks[i])[j];
        Fits(v, schema, value) && Clean(d, limit, v.schema, v.value, if v.consumes then 0 else depth)
    {
      assert CheckFits(checks[i], schema, value);
      var v := VisitsOf(checks[i])[j];
      PartIsWithin(v.schema, schema);
      WithinWithin(v.schema, schema, d.root);
      assert NodeRanked(d, rank, limit, schema);
      assert v.schema.Obj? ==> NodeRanked(d, rank, limit, v.schema);
      RankedIsClean(d, rank, limit, v.schema, v.value, if v.consumes then 0 else depth);
    }
  }

  /** In a document ranked by the program's bound the verdict is that of the only solution, for every value. */
  lemma RankedVerdictIsTheUnboundedOne(schema: Json, value: Json, library: Library, sat: Verdict, rank: Json -> nat)
    requires Ranked(Document(schema, library), rank, MAX_REF_DEPTH) && Solves(Document(schema, library), sat)
    ensures Validate(schema, value, library) == [] <==> sat(schema, value)
  {
    var d := Document(schema, library);
    assert Within(schema, d.root);
    assert schema.Obj? ==> NodeRanked(d, rank, MAX_REF_DEPTH, schema);
    hide Ranked, NodeRanked, Solves, Validate, Clean;
    RankedIsClean(d, rank, MAX_REF_DEPTH, schema, value, 0);
    VerdictIsTheUnboundedOne(schema, value, library, sat);
  }

  // ---------------------------------------------------------------- recursion through a part

  function Back(): Json { Obj([Member("$ref", Str("#"))]) }

  /** Objects whose `child`, if any, is such an object again. */
  function Chained(): Json { Obj([Member("properties", Obj([Member("child", Back())]))]) }

  lemma NodesOfChained(node: Json)
    requires Within(node, Chained()) && node.Obj?
    ensures node == Chained() || node == Obj([Member("child", Back())]) || node == Back()
  {
    if node != Chained() {
      assert Within(node, Obj([Member("child", Back())]));
      if node != Obj([Member("child", Back())]) { assert Within(node, Back()); }
    }
  }

  lemma OneKeyword(key: string, v: Json, other: string)
    requires key != other
    ensures other !in Keys([Member(key, v)])
  {}

  lemma OneKeywordHasNoBranch(key: string, v: Json, sub: Json)
    requires key != "allOf" && key != "anyOf" && key != "oneOf" && key != "not"
    ensures !IsBranch(sub, Obj([Member(key, v)]))
  {
    OneKeyword(key, v, "allOf");
    OneKeyword(key, v, "anyOf");
    OneKeyword(key, v, "oneOf");
    OneKeyword(key, v, "not");
  }

  /** A document that recurs only through a part of the value is ranked by a single hop. */
  lemma ChainedIsRanked(library: Library)
    ensures Ranked(Document(Chained(), library), node => if node == Back() then 1 else 0, 1)
  {
    var d := Document(Chained(), library);
    var rank := (node: Json) => if node == Back() then 1 else 0;
    forall node | Within(node, d.root) && node.Obj? ensures NodeRanked(d, rank, 1, node) {
      NodesOfChained(node);
      var m := node.members[0];
      forall sub ensures !IsBranch(sub, node) { OneKeywordHasNoBranch(m.key, m.value, sub); }
      hide IsBranch, Within;
      if node == Back() {
        assert Reference(node.members) == Some("#") by { assert node.members[0].key in Keys(node.members); }
        assert Target(d, "#") == Some(Chained());
      } else {
        OneKeyword(m.key, m.value, "$ref");
      }
    }
  }
}
