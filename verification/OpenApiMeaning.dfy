/**
  What a published schema means: the tree one gets by following references to any depth. Hoisting keeps
  it, unless it renames a definition that another definition refers to, or takes for equal what is not.
  */
module OpenApiMeaning {
  import opened JsonValues
  import opened OpenApiHoist
  import opened OpenApiTheorems
  import opened OpenApiReferences

  // ---------------------------------------------------------------- unfolding

  /**
    The schema unfolded to depth `n`. A local reference is looked up in the `$defs` block in scope, a
    component reference in `components/schemas`; one that leads nowhere stands for itself. Where `$defs`
    is a keyword it is no part of the meaning; elsewhere it is a member like any other. Data stands for
    itself.
    */
  ghost function Tree(n: nat, spot: Spot, node: Json, scope: Members, components: Components): Json
    decreases n, 1
  {
    if n == 0 then Null
    else if spot.role == Data then node
    else
      match node
      case Arr(items) =>
        Arr(seq(|items|, i requires 0 <= i < |items| => Tree(n - 1, ItemSpot(spot), items[i], scope, components)))
      case Obj(members) =>
        if spot.role == Keywords then
          var inner := if HasBlock(members) then Block(members) else scope;
          Obj(Branches(n - 1, spot, Without(members, DEFS_KEY), inner, components))
        else Obj(Branches(n - 1, spot, members, scope, components))
      case _ => node
  }

  ghost function Branches(n: nat, spot: Spot, members: Members, scope: Members, components: Components): Members
    decreases n, 3
  {
    seq(|members|, i requires 0 <= i < |members| =>
      Member(members[i].key, Branch(n, spot, members[i], scope, components)))
  }

  ghost function Branch(n: nat, spot: Spot, m: Member, scope: Members, components: Components): Json
    decreases n, 2
  {
    if IsReference(spot.place, m.key, m.value) then Target(n, m.value.s, scope, components)
    else Tree(n, ChildSpot(spot, m.key), m.value, scope, components)
  }

  ghost function Target(n: nat, reference: string, scope: Members, components: Components): Json
    decreases n, 2, 0
  {
    match (Local(reference), NameAfter(COMPONENTS_PREFIX, reference))
    case (Some(name), _) =>
      if name in Keys(scope) then Tree(n, SCHEMA, Lookup(scope, name), scope, components) else Str(reference)
    case (None, Some(name)) =>
      if name in components then Tree(n, SCHEMA, components[name], [], components) else Str(reference)
    case (None, None) => Str(reference)
  }

  // ---------------------------------------------------------------- dictionaries and lists

  lemma BranchesKeys(n: nat, spot: Spot, members: Members, scope: Members, components: Components)
    ensures Keys(Branches(n, spot, members, scope, components)) == Keys(members)
  {
    hide Branch;
    SameKeys(members, Branches(n, spot, members, scope, components));
  }

  lemma {:induction false} LookupBranches(n: nat, spot: Spot, members: Members, scope: Members, components: Components,
                                         k: string)
    requires k in Keys(members)
    ensures k in Keys(Branches(n, spot, members, scope, components))
    ensures Lookup(Branches(n, spot, members, scope, components), k)
         == Branch(n, spot, Member(k, Lookup(members, k)), scope, components)
    decreases |members|
  {
    hide Branch;
    var r := Branches(n, spot, members, scope, components);
    BranchesKeys(n, spot, members, scope, components);
    if members[0].key != k {
      Unfold(members);
      assert r[1..] == Branches(n, spot, members[1..], scope, components);
      LookupBranches(n, spot, members[1..], scope, components, k);
    }
  }

  /** Members in the same order under the same keys, with equal values, make equal dictionaries. */
  lemma {:induction false} LookupPairwise(a: Members, b: Members, k: string)
    requires |a| == |b| && forall i | 0 <= i < |a| :: a[i].key == b[i].key && JsonEqual(a[i].value, b[i].value)
    requires k in Keys(a)
    ensures k in Keys(b) && JsonEqual(Lookup(a, k), Lookup(b, k))
  {
    hide DeepEqual;
    SameKeys(a, b);
    if a[0].key != k {
      Unfold(a);
      LookupPairwise(a[1..], b[1..], k);
    }
  }

  lemma Pairwise(a: Members, b: Members)
    requires |a| == |b| && forall i | 0 <= i < |a| :: a[i].key == b[i].key && JsonEqual(a[i].value, b[i].value)
    ensures JsonEqual(Obj(a), Obj(b))
  {
    SameKeys(a, b);
    forall k | k in Keys(a) ensures JsonEqual(Lookup(a, k), Lookup(b, k)) { LookupPairwise(a, b, k); }
  }

  lemma PairwiseItems(a: seq<Json>, b: seq<Json>)
    requires |a| == |b| && forall i | 0 <= i < |a| :: JsonEqual(a[i], b[i])
    ensures JsonEqual(Arr(a), Arr(b))
  {}

  // ---------------------------------------------------------------- equal schemas mean the same

  /** A dictionary without `$defs` unfolds member by member. */
  lemma TreeOfMembers(n: nat, spot: Spot, members: Members, scope: Members, components: Components)
    requires n > 0 && DEFS_KEY !in Keys(members) && spot.role != Data
    ensures Tree(n, spot, Obj(members), scope, components) == Obj(Branches(n - 1, spot, members, scope, components))
  {
    WithoutAbsent(members, DEFS_KEY);
  }

  lemma TreeOfData(n: nat, spot: Spot, node: Json, scope: Members, components: Components)
    requires spot.role == Data
    ensures Tree(n, spot, node, scope, components) == if n == 0 then Null else node
  {}

  lemma EqualShapes(a: Json, b: Json)
    requires JsonEqual(a, b)
    ensures (a.Arr? <==> b.Arr?) && (a.Obj? <==> b.Obj?) && (a.Str? || b.Str? ==> a == b)
  {}

  /** Schemas that are JSON-equal unfold to JSON-equal trees. */
  lemma {:induction false} EqualSchemasUnfoldEqually(n: nat, spot: Spot, a: Json, b: Json, components: Components)
    requires JsonEqual(a, b) && NoDefs(a) && NoDefs(b)
    ensures JsonEqual(Tree(n, spot, a, [], components), Tree(n, spot, b, [], components))
    decreases n, 0
  {
    EqualShapes(a, b);
    if spot.role == Data {
      hide DeepEqual, NoDefs;
      TreeOfData(n, spot, a, [], components);
      TreeOfData(n, spot, b, [], components);
      EqualReflexive(true, Null);
    } else if n > 0 {
      match a
      case Arr(items) =>
        hide DeepEqual, NoDefs;
        EqualItemsUnfoldEqually(n, spot, items, b.items, components);
      case Obj(members) =>
        hide Tree, Branch, Branches, DeepEqual;
        TreeOfMembers(n, spot, members, [], components);
        TreeOfMembers(n, spot, b.members, [], components);
        EqualMembersUnfoldEqually(n - 1, spot, members, b.members, components);
      case _ => hide NoDefs;
    }
  }

  lemma {:induction false} EqualItemsUnfoldEqually(n: nat, spot: Spot, a: seq<Json>, b: seq<Json>,
                                                   components: Components)
    requires JsonEqual(Arr(a), Arr(b)) && NoDefs(Arr(a)) && NoDefs(Arr(b)) && n > 0 && spot.role != Data
    ensures JsonEqual(Tree(n, spot, Arr(a), [], components), Tree(n, spot, Arr(b), [], components))
    decreases n - 1, 1
  {
    var s, t := Tree(n, spot, Arr(a), [], components), Tree(n, spot, Arr(b), [], components);
    forall i | 0 <= i < |a| ensures i < |b| && JsonEqual(a[i], b[i]) && NoDefs(a[i]) && NoDefs(b[i]) {}
    SameLength(a, b);
    hide DeepEqual, NoDefs;
    forall i | 0 <= i < |a| ensures JsonEqual(s.items[i], t.items[i]) {
      EqualSchemasUnfoldEqually(n - 1, ItemSpot(spot), a[i], b[i], components);
    }
    PairwiseItems(s.items, t.items);
  }

  lemma SameLength(a: seq<Json>, b: seq<Json>)
    requires JsonEqual(Arr(a), Arr(b))
    ensures |a| == |b|
  {}

  lemma {:induction false} EqualMembersUnfoldEqually(n: nat, spot: Spot, a: Members, b: Members, components: Components)
    requires JsonEqual(Obj(a), Obj(b)) && NoDefs(Obj(a)) && NoDefs(Obj(b))
    ensures JsonEqual(Obj(Branches(n, spot, a, [], components)), Obj(Branches(n, spot, b, [], components)))
    decreases n, 2
  {
    hide Tree, Branch, Branches;
    var s, t := Branches(n, spot, a, [], components), Branches(n, spot, b, [], components);
    BranchesKeys(n, spot, a, [], components);
    BranchesKeys(n, spot, b, [], components);
    forall k | k in Keys(a) ensures k in Keys(s) && k in Keys(t) && JsonEqual(Lookup(s, k), Lookup(t, k)) {
      LookupBranches(n, spot, a, [], components, k);
      LookupBranches(n, spot, b, [], components, k);
      EqualBranches(n, spot, k, Lookup(a, k), Lookup(b, k), components);
    }
  }

  lemma {:induction false} EqualBranches(n: nat, spot: Spot, k: string, v: Json, w: Json, components: Components)
    requires JsonEqual(v, w) && NoDefs(v) && NoDefs(w)
    ensures JsonEqual(Branch(n, spot, Member(k, v), [], components), Branch(n, spot, Member(k, w), [], components))
    decreases n, 1
  {
    EqualShapes(v, w);
    hide DeepEqual, Tree, Target;
    if IsReference(spot.place, k, v) {
      EqualReflexive(true, Target(n, v.s, [], components));
    } else {
      EqualSchemasUnfoldEqually(n, ChildSpot(spot, k), v, w, components);
    }
  }

  // ---------------------------------------------------------------- one block keeps its meaning

  /** The component stands as it did. */
  ghost predicate Stays(before: Components, after: Components, k: string)
    requires k in before
  {
    k in after && JsonEqual(before[k], after[k]) && Resolves(SCHEMA, before[k], [], before) && NoDefs(after[k])
  }

  ghost predicate AllStay(before: Components, after: Components) { forall k | k in before :: Stays(before, after, k) }

  /** The definition is a component under its final name, with its local references repointed. */
  ghost predicate Landed(scope: Members, renames: Renames, before: Components, after: Components, k: string)
    requires k in Keys(scope)
  {
    var final := Final(renames, k);
    && final in after && JsonEqual(Rewrite(Plain, Lookup(scope, k), renames), after[final])
    && Resolves(SCHEMA, Lookup(scope, k), scope, before) && NoDefs(after[final])
  }

  ghost predicate AllLanded(scope: Members, renames: Renames, before: Components, after: Components) {
    forall k | k in Keys(scope) :: Landed(scope, renames, before, after, k)
  }

  /** Inside a block local references are repointed; outside, nothing changes. */
  ghost function Repointed(scope: Members, renames: Renames, place: Place, node: Json): Json {
    if scope == [] then node else Rewrite(place, node, renames)
  }

  ghost function RepointedReference(scope: Members, renames: Renames, reference: string): string {
    if scope == [] then reference else RewrittenReference(reference, renames)
  }

  /** A block in which definitions landed, or no block at all, among components that stay. */
  ghost predicate Moved(scope: Members, renames: Renames, before: Components, after: Components) {
    AllStay(before, after) && AllLanded(scope, renames, before, after)
  }

  lemma {:induction false} BlockKeepsMeaning(n: nat, spot: Spot, node: Json, scope: Members, renames: Renames,
                                            before: Components, after: Components)
    requires Resolves(spot, node, scope, before) && Moved(scope, renames, before, after)
    ensures JsonEqual(Tree(n, spot, node, scope, before),
                      Tree(n, spot, Repointed(scope, renames, spot.place, node), [], after))
    decreases n, 0
  {
    hide Moved, DeepEqual;
    EqualReflexive(true, Null);
    if spot.role == Data {
      DataKeepsMeaning(n, spot, node, scope, renames, before, after);
    } else if n > 0 {
      match node
      case Arr(items) => ItemsKeepMeaning(n, spot, items, scope, renames, before, after);
      case Obj(members) => MembersKeepMeaning(n, spot, members, scope, renames, before, after);
      case _ => EqualReflexive(true, node);
    }
  }

  lemma DataKeepsMeaning(n: nat, spot: Spot, node: Json, scope: Members, renames: Renames, before: Components,
                         after: Components)
    requires Resolves(spot, node, scope, before) && spot.role == Data
    ensures JsonEqual(Tree(n, spot, node, scope, before),
                      Tree(n, spot, Repointed(scope, renames, spot.place, node), [], after))
  {
    hide DeepEqual;
    if scope != [] { RewriteIsIdempotent(spot.place, node, renames); }
    TreeOfData(n, spot, node, scope, before);
    TreeOfData(n, spot, node, [], after);
    EqualReflexive(true, Tree(n, spot, node, scope, before));
  }

  lemma {:induction false} ItemsKeepMeaning(n: nat, spot: Spot, items: seq<Json>, scope: Members, renames: Renames,
                                           before: Components, after: Components)
    requires Resolves(spot, Arr(items), scope, before) && Moved(scope, renames, before, after) && n > 0
      && spot.role != Data
    ensures JsonEqual(Tree(n, spot, Arr(items), scope, before),
                      Tree(n, spot, Repointed(scope, renames, spot.place, Arr(items)), [], after))
    decreases n - 1, 4
  {
    hide Moved, DeepEqual;
    var a := Tree(n, spot, Arr(items), scope, before);
    var b := Tree(n, spot, Repointed(scope, renames, spot.place, Arr(items)), [], after);
    forall i | 0 <= i < |items| ensures JsonEqual(a.items[i], b.items[i]) {
      if scope != [] { RewriteItemsAt(items, renames, i); }
      BlockKeepsMeaning(n - 1, ItemSpot(spot), items[i], scope, renames, before, after);
    }
    PairwiseItems(a.items, b.items);
  }

  lemma {:induction false} MembersKeepMeaning(n: nat, spot: Spot, members: Members, scope: Members, renames: Renames,
                                             before: Components, after: Components)
    requires Resolves(spot, Obj(members), scope, before) && Moved(scope, renames, before, after) && n > 0
      && spot.role != Data
    ensures JsonEqual(Tree(n, spot, Obj(members), scope, before),
                      Tree(n, spot, Repointed(scope, renames, spot.place, Obj(members)), [], after))
    decreases n - 1, 4
  {
    assert DEFS_KEY !in Keys(members);
    MembersResolve(spot, members, scope, before);
    hide Moved, DeepEqual, Tree, Branch, Resolves, MemberResolves, ChildSpot;
    var repointed := if scope == [] then members else RewriteMembers(spot.place, members, renames);
    RewriteKeepsKeys(spot.place, members, renames);
    TreeOfMembers(n, spot, members, scope, before);
    TreeOfMembers(n, spot, repointed, [], after);
    var a, b := Branches(n - 1, spot, members, scope, before), Branches(n - 1, spot, repointed, [], after);
    forall i | 0 <= i < |members| ensures a[i].key == b[i].key && JsonEqual(a[i].value, b[i].value) {
      RewriteMembersAt(spot.place, members, renames, i);
      BranchKeepsMeaning(n - 1, spot, members[i], scope, renames, before, after);
    }
    Pairwise(a, b);
  }

  lemma {:induction false} BranchKeepsMeaning(n: nat, spot: Spot, m: Member, scope: Members, renames: Renames,
                                             before: Components, after: Components)
    requires MemberResolves(spot, m, scope, before) && Moved(scope, renames, before, after)
    ensures JsonEqual(Branch(n, spot, m, scope, before),
                      Branch(n, spot, if scope == [] then m else RewriteMember(spot.place, m, renames), [], after))
    decreases n, 3
  {
    hide Moved, DeepEqual, Tree, Leads, Target, Resolves, ChildRole;
    if IsReference(spot.place, m.key, m.value) {
      TargetKeepsMeaning(n, m.value.s, scope, renames, before, after);
    } else {
      BlockKeepsMeaning(n, ChildSpot(spot, m.key), m.value, scope, renames, before, after);
    }
  }

  lemma {:induction false} TargetKeepsMeaning(n: nat, reference: string, scope: Members, renames: Renames,
                                             before: Components, after: Components)
    requires Leads(reference, scope, before) && Moved(scope, renames, before, after)
    ensures JsonEqual(Target(n, reference, scope, before),
                      Target(n, RepointedReference(scope, renames, reference), [], after))
    decreases n, 2
  {
    hide DeepEqual, Tree, Resolves, Rewrite;
    RewrittenIsNotLocal(reference, renames);
    match (Local(reference), NameAfter(COMPONENTS_PREFIX, reference))
    case (Some(name), _) =>
      if scope == [] {
        EqualReflexive(true, Str(reference));
      } else {
        assert Landed(scope, renames, before, after, name);
        ComponentName(Final(renames, name));
        LandedKeepsMeaning(n, name, scope, renames, before, after);
      }
    case (None, Some(name)) =>
      assert Stays(before, after, name);
      ComponentKeepsMeaning(n, name, before, after);
    case (None, None) => EqualReflexive(true, Str(reference));
  }

  lemma {:induction false} LandedKeepsMeaning(n: nat, name: string, scope: Members, renames: Renames,
                                             before: Components, after: Components)
    requires name in Keys(scope) && scope != [] && Moved(scope, renames, before, after)
    ensures Final(renames, name) in after
    ensures JsonEqual(Tree(n, SCHEMA, Lookup(scope, name), scope, before),
                      Tree(n, SCHEMA, after[Final(renames, name)], [], after))
    decreases n, 1
  {
    hide DeepEqual, Tree, Resolves, Rewrite;
    assert Landed(scope, renames, before, after, name);
    var definition, landed := Lookup(scope, name), after[Final(renames, name)];
    BlockKeepsMeaning(n, SCHEMA, definition, scope, renames, before, after);
    ResolvesHasNoDefs(SCHEMA, definition, scope, before);
    RewriteKeepsNoDefs(Plain, definition, renames);
    var moved := Rewrite(Plain, definition, renames);
    EqualSchemasUnfoldEqually(n, SCHEMA, moved, landed, after);
    EqualTransitive(true, Tree(n, SCHEMA, definition, scope, before), Tree(n, SCHEMA, moved, [], after),
                    Tree(n, SCHEMA, landed, [], after));
  }

  lemma {:induction false} ComponentKeepsMeaning(n: nat, k: string, before: Components, after: Components)
    requires k in before && AllStay(before, after)
    ensures k in after
    ensures JsonEqual(Tree(n, SCHEMA, before[k], [], before), Tree(n, SCHEMA, after[k], [], after))
    decreases n, 1
  {
    hide Tree, DeepEqual, Resolves, NoDefs;
    assert Stays(before, after, k);
    assert Moved([], map[], before, after);
    BlockKeepsMeaning(n, SCHEMA, before[k], [], map[], before, after);
    ResolvesHasNoDefs(SCHEMA, before[k], [], before);
    EqualSchemasUnfoldEqually(n, SCHEMA, before[k], after[k], after);
    EqualTransitive(true, Tree(n, SCHEMA, before[k], [], before), Tree(n, SCHEMA, before[k], [], after),
                    Tree(n, SCHEMA, after[k], [], after));
  }

  // ---------------------------------------------------------------- the run keeps its names

  /** No local reference in the value names a renamed definition. */
  ghost predicate KeepsNames(place: Place, node: Json, renames: Renames)
    decreases node
  {
    match node
    case Arr(items) => forall i | 0 <= i < |items| :: KeepsNames(Plain, items[i], renames)
    case Obj(members) =>
      forall i | 0 <= i < |members| ::
        if IsReference(place, members[i].key, members[i].value) then KeepsName(members[i].value.s, renames)
        else KeepsNames(ChildPlace(place, members[i].key), members[i].value, renames)
    case _ => true
  }

  ghost predicate KeepsName(reference: string, renames: Renames) {
    Local(reference).Some? ==> Final(renames, Local(reference).value) == Local(reference).value
  }

  lemma {:induction false} SameNamesSameRewrite(place: Place, node: Json, a: Renames, b: Renames)
    requires KeepsNames(place, node, a) && KeepsNames(place, node, b)
    ensures Rewrite(place, node, a) == Rewrite(place, node, b)
    decreases node
  {
    match node
    case Arr(items) =>
      forall i | 0 <= i < |items| ensures RewriteItems(items, a)[i] == RewriteItems(items, b)[i] {
        RewriteItemsAt(items, a, i);
        RewriteItemsAt(items, b, i);
        SameNamesSameRewrite(Plain, items[i], a, b);
      }
      assert RewriteItems(items, a) == RewriteItems(items, b);
    case Obj(members) =>
      forall i | 0 <= i < |members|
        ensures RewriteMembers(place, members, a)[i] == RewriteMembers(place, members, b)[i]
      {
        RewriteMembersAt(place, members, a, i);
        RewriteMembersAt(place, members, b, i);
        if !IsReference(place, members[i].key, members[i].value) {
          SameNamesSameRewrite(ChildPlace(place, members[i].key), members[i].value, a, b);
        }
      }
      assert RewriteMembers(place, members, a) == RewriteMembers(place, members, b);
    case _ =>
  }

  lemma {:induction false} UnchangedNamesAreKept(place: Place, node: Json, renames: Renames)
    requires forall k | k in renames :: renames[k] == k
    ensures KeepsNames(place, node, renames)
    decreases node
  {
    match node
    case Arr(items) =>
      forall i | 0 <= i < |items|
        ensures KeepsNames(Plain, items[i], renames)
      {
        UnchangedNamesAreKept(Plain, items[i], renames);
      }
    case Obj(members) =>
      forall i | 0 <= i < |members| ensures KeepsNames(ChildPlace(place, members[i].key), members[i].value, renames) {
        UnchangedNamesAreKept(ChildPlace(place, members[i].key), members[i].value, renames);
      }
    case _ =>
  }

  ghost predicate SteadyBlock(block: Members, renames: Renames) {
    forall i | 0 <= i < |block| :: KeepsNames(Plain, block[i].value, renames)
  }

  /** No block the traversal meets has a definition that refers to one it renames. */
  ghost predicate Steady(node: Json, components: Components)
    decreases Size(node), 0, 0
  {
    match node
    case Arr(items) => SteadyItems(items, |items|, components)
    case Obj(members) =>
      var rest := Without(members, DEFS_KEY);
      WithoutIsSmaller(members, DEFS_KEY);
      if HasBlock(members) then SteadyBlock(Block(members), Register(Block(members), components).value)
      else SteadyMembers(rest, |rest|, components)
    case _ => true
  }

  ghost predicate SteadyItems(items: seq<Json>, n: nat, components: Components)
    requires n <= |items|
    decreases ItemsSize(items), 1, n
  {
    n == 0 || (
      ItemIsSmaller(items, n - 1);
      SteadyItems(items, n - 1, components) && Steady(items[n - 1], HoistItems(items, n - 1, components).components))
  }

  ghost predicate SteadyMembers(members: Members, n: nat, components: Components)
    requires n <= |members|
    decreases MembersSize(members), 1, n
  {
    n == 0 || (
      MemberIsSmaller(members, n - 1);
      && SteadyMembers(members, n - 1, components)
      && Steady(members[n - 1].value, HoistMembers(members, n - 1, components).components))
  }

  // ---------------------------------------------------------------- one step of the traversal

  /** The traversal of a node on its way to the final components. */
  ghost predicate Runs(node: Json, components: Components, after: Components) {
    && AllNoDefs(components) && ExactHoist(node, components) && Steady(node, components)
    && Extends(true, Hoist(node, components).components, after)
  }

  ghost predicate ItemRuns(items: seq<Json>, i: nat, components: Components, after: Components)
    requires i < |items|
  {
    Runs(items[i], HoistItems(items, i, components).components, after)
  }

  ghost predicate MemberRuns(members: Members, i: nat, components: Components, after: Components)
    requires i < |members|
  {
    Runs(members[i].value, HoistMembers(members, i, components).components, after)
  }

  lemma {:induction false} ItemsRun(items: seq<Json>, n: nat, components: Components, after: Components)
    requires n <= |items| && Sound(Arr(items)) && AllNoDefs(components)
    requires ExactItems(items, n, components) && SteadyItems(items, n, components)
    requires Extends(true, HoistItems(items, n, components).components, after)
    ensures forall i | 0 <= i < n :: ItemRuns(items, i, components, after)
    decreases n
  {
    hide AllNoDefs, Extends, Hoist, ExactHoist, Steady;
    if n > 0 {
      var front := HoistItems(items, n - 1, components).components;
      HoistItemsIsConservative(true, items, n - 1, components);
      HoistIsConservative(true, items[n - 1], front);
      ExtendsTransitive(true, front, HoistItems(items, n, components).components, after);
      ItemsRun(items, n - 1, components, after);
    }
  }

  lemma {:induction false} MembersRun(members: Members, n: nat, components: Components, after: Components)
    requires n <= |members| && Sound(Obj(members)) && AllNoDefs(components)
    requires ExactMembers(members, n, components) && SteadyMembers(members, n, components)
    requires Extends(true, HoistMembers(members, n, components).components, after)
    ensures forall i | 0 <= i < n :: MemberRuns(members, i, components, after)
    decreases n
  {
    hide AllNoDefs, Extends, Hoist, ExactHoist, Steady, NoDefs, LikeMembers;
    if n > 0 {
      var front := HoistMembers(members, n - 1, components).components;
      HoistMembersKeepsShape(true, members, n - 1, components);
      HoistIsConservative(true, members[n - 1].value, front);
      ExtendsTransitive(true, front, HoistMembers(members, n, components).components, after);
      MembersRun(members, n - 1, components, after);
    }
  }

  lemma {:induction false} HoistItemsAt(items: seq<Json>, n: nat, components: Components, i: nat)
    requires i < n <= |items|
    ensures |HoistItems(items, n, components).value| == n
    ensures HoistItems(items, n, components).value[i]
      == Hoist(items[i], HoistItems(items, i, components).components).value
    decreases n
  {
    hide Hoist;
    HoistItemsLength(items, n - 1, components);
    if i < n - 1 { HoistItemsAt(items, n - 1, components, i); }
  }

  lemma {:induction false} HoistItemsLength(items: seq<Json>, n: nat, components: Components)
    requires n <= |items|
    ensures |HoistItems(items, n, components).value| == n
    decreases n
  {
    hide Hoist;
    if n > 0 { HoistItemsLength(items, n - 1, components); }
  }

  lemma {:induction false} HoistMembersAt(members: Members, n: nat, components: Components, i: nat)
    requires i < n <= |members|
    ensures |HoistMembers(members, n, components).value| == n
    ensures HoistMembers(members, n, components).value[i]
         == Member(members[i].key, Hoist(members[i].value, HoistMembers(members, i, components).components).value)
    decreases n
  {
    hide Hoist;
    HoistMembersLength(members, n - 1, components);
    if i < n - 1 { HoistMembersAt(members, n - 1, components, i); }
  }

  lemma {:induction false} HoistMembersLength(members: Members, n: nat, components: Components)
    requires n <= |members|
    ensures |HoistMembers(members, n, components).value| == n
    decreases n
  {
    hide Hoist;
    if n > 0 { HoistMembersLength(members, n - 1, components); }
  }

  // ---------------------------------------------------------------- the document keeps its meaning

  /** What holds of the document's components and the final ones throughout the traversal. */
  ghost predicate Arrived(before: Components, after: Components) { AllStay(before, after) && AllNoDefs(after) }

  lemma DefinitionLands(block: Members, i: nat, r: Hoisted<Renames>, before: Components, after: Components)
    requires i < |block| && DistinctKeys(block) && block[i].value != Null && AllNoDefs(after)
    requires Resolves(SCHEMA, block[i].value, block, before) && KeepsNames(Plain, block[i].value, r.value)
    requires Published(true, Registration(r.components, r.value), RepointedBlock(block, Identity(block))[i])
    requires Extends(true, r.components, after)
    ensures block[i].key in Keys(block) && Landed(block, r.value, before, after, block[i].key)
  {
    LookupAt(block, i);
    IdentityKeepsNames(block, block[i].value);
    hide DeepEqual, Rewrite, Resolves, NoLocal, KeepsNames, Identity;
    var definition, final := block[i].value, Final(r.value, block[i].key);
    SameNamesSameRewrite(Plain, definition, Identity(block), r.value);
    RewriteNull(Plain, definition, r.value);
    var moved := Rewrite(Plain, definition, r.value);
    assert RepointedBlock(block, Identity(block))[i] == Member(block[i].key, moved);
    NullEqualsNull(true, r.components[final], moved);
    EqualSymmetric(true, r.components[final], moved);
    EqualTransitive(true, moved, r.components[final], after[final]);
  }

  lemma IdentityKeepsNames(block: Members, node: Json)
    ensures KeepsNames(Plain, node, Identity(block))
  {
    UnchangedNamesAreKept(Plain, node, Identity(block));
  }

  lemma BlockLands(members: Members, components: Components, before: Components, after: Components)
    requires HasBlock(members) && Unnested(SCHEMA, Obj(members), before) && Sound(Obj(members))
    requires Runs(Obj(members), components, after) && Arrived(before, after)
    ensures AllLanded(Block(members), Register(Block(members), components).value, before, after)
  {
    var block := Block(members);
    var r := Register(block, components);
    BlockRuns(members, components, after);
    hide Sound, Runs, Hoist, Register, ExactRegister, AllNoDefs, Extends, Published, Landed, Block, HasBlock, AllStay,
      Resolves, KeepsNames, RegisterPrepared;
    SoundBlock(members);
    BlockIsHoisted(members, before, components);
    BlockIsPrepared(members, before, components);
    RegisterPublishes(true, block, components);
    SoundKeys(block);
    forall k | k in Keys(block) ensures Landed(block, r.value, before, after, k) {
      var i :| 0 <= i < |block| && block[i].key == k;
      DefinitionLands(block, i, r, before, after);
    }
  }

  lemma SoundKeys(block: Members)
    requires Sound(Obj(block))
    ensures DistinctKeys(block)
  {}

  lemma BlockRuns(members: Members, components: Components, after: Components)
    requires HasBlock(members) && Runs(Obj(members), components, after)
    ensures AllNoDefs(components) && ExactRegister(Block(members), components)
    ensures SteadyBlock(Block(members), Register(Block(members), components).value)
    ensures Extends(true, Hoist(Obj(members), components).components, after)
  {
    hide AllNoDefs, ExactRegister, Register, Extends, Hoist, HasBlock, Block;
  }

  lemma BlockNodeKeepsMeaning(n: nat, members: Members, components: Components, before: Components, after: Components)
    requires HasBlock(members) && Unnested(SCHEMA, Obj(members), before) && Sound(Obj(members)) && n > 0
    requires Runs(Obj(members), components, after) && Arrived(before, after)
    ensures JsonEqual(Tree(n, SCHEMA, Obj(members), [], before),
                      Tree(n, SCHEMA, Hoist(Obj(members), components).value, [], after))
  {
    var block, rest := Block(members), Without(members, DEFS_KEY);
    var renames := Register(block, components).value;
    assert Resolves(SCHEMA, Obj(rest), block, before);
    BlockLands(members, components, before, after);
    BlockIsHoisted(members, before, components);
    TreeOfBlock(n, members, before);
    SoundWithout(members);
    BlockIsNotEmpty(members);
    hide Sound, Runs, Hoist, Register, AllNoDefs, AllStay, AllLanded, Resolves, Unnested, DeepEqual, Tree, Block,
      HasBlock;
    BlockKeepsMeaning(n, SCHEMA, Obj(rest), block, renames, before, after);
  }

  lemma TreeOfBlock(n: nat, members: Members, components: Components)
    requires HasBlock(members) && n > 0 && DEFS_KEY !in Keys(Without(members, DEFS_KEY))
    ensures Tree(n, SCHEMA, Obj(members), [], components)
         == Tree(n, SCHEMA, Obj(Without(members, DEFS_KEY)), Block(members), components)
  {
    hide HasBlock, Block;
    TreeOfMembers(n, SCHEMA, Without(members, DEFS_KEY), Block(members), components);
  }

  lemma {:induction false} NodeKeepsMeaning(n: nat, spot: Spot, node: Json, components: Components,
                                           before: Components, after: Components)
    requires Unnested(spot, node, before) && Sound(node) && Runs(node, components, after) && Arrived(before, after)
    ensures JsonEqual(Tree(n, spot, node, [], before), Tree(n, spot, Hoist(node, components).value, [], after))
    decreases n, 0
  {
    hide Arrived, DeepEqual;
    EqualReflexive(true, Null);
    if spot.role == Data {
      HoistWithoutDefs(node, components);
      TreeOfData(n, spot, node, [], before);
      TreeOfData(n, spot, node, [], after);
      EqualReflexive(true, node);
    } else if n > 0 {
      match node
      case Arr(items) =>
        hide Tree, Hoist;
        OpenItemsKeepMeaning(n, spot, items, components, before, after);
      case Obj(members) =>
        hide Tree, Hoist;
        if HasBlock(members) { BlockNodeKeepsMeaning(n, members, components, before, after); }
        else { OpenNodeKeepsMeaning(n, spot, members, components, before, after); }
      case _ => EqualReflexive(true, node);
    }
  }

  lemma {:induction false} OpenItemsKeepMeaning(n: nat, spot: Spot, items: seq<Json>, components: Components,
                                               before: Components, after: Components)
    requires Unnested(spot, Arr(items), before) && Sound(Arr(items)) && n > 0 && spot.role != Data
    requires Runs(Arr(items), components, after) && Arrived(before, after)
    ensures JsonEqual(Tree(n, spot, Arr(items), [], before),
      Tree(n, spot, Hoist(Arr(items), components).value, [], after))
    decreases n - 1, 2
  {
    ArrayIsHoisted(items, components);
    hide Arrived, DeepEqual, Hoist, Extends, AllNoDefs;
    var hoisted := HoistItems(items, |items|, components).value;
    ItemsRun(items, |items|, components, after);
    HoistItemsLength(items, |items|, components);
    var a, b := Tree(n, spot, Arr(items), [], before), Tree(n, spot, Arr(hoisted), [], after);
    forall i | 0 <= i < |items| ensures JsonEqual(a.items[i], b.items[i]) {
      HoistItemsAt(items, |items|, components, i);
      assert ItemRuns(items, i, components, after);
      NodeKeepsMeaning(n - 1, ItemSpot(spot), items[i], HoistItems(items, i, components).components, before, after);
    }
    PairwiseItems(a.items, b.items);
  }

  lemma {:induction false} OpenNodeKeepsMeaning(n: nat, spot: Spot, members: Members, components: Components,
                                               before: Components, after: Components)
    requires !HasBlock(members) && Unnested(spot, Obj(members), before) && Sound(Obj(members)) && n > 0
      && spot.role != Data
    requires Runs(Obj(members), components, after) && Arrived(before, after)
    ensures JsonEqual(Tree(n, spot, Obj(members), [], before),
                      Tree(n, spot, Hoist(Obj(members), components).value, [], after))
    decreases n - 1, 2
  {
    hide Arrived, DeepEqual, Hoist, Extends, AllNoDefs, Unnested, UnnestedMember, HasBlock, Tree, Branch, Sound, Runs;
    var rest := Without(members, DEFS_KEY);
    var hoisted := HoistMembers(rest, |rest|, components).value;
    SoundWithout(members);
    RestIsUnnested(spot, members, before);
    OpenIsHoisted(members, components);
    OpenRuns(members, components, after);
    TreeOfOpen(n, spot, members, before);
    TreeOfHoisted(n, spot, rest, components, after);
    var a, b := Branches(n - 1, spot, rest, [], before), Branches(n - 1, spot, hoisted, [], after);
    forall i | 0 <= i < |rest| ensures a[i].key == b[i].key && JsonEqual(a[i].value, b[i].value) {
      HoistMembersAt(rest, |rest|, components, i);
      assert MemberRuns(rest, i, components, after);
      SoundMember(rest, i);
      OpenBranchKeepsMeaning(n - 1, spot, rest[i], HoistMembers(rest, i, components).components, before, after);
    }
    Pairwise(a, b);
  }

  lemma TreeOfHoisted(n: nat, spot: Spot, members: Members, components: Components, after: Components)
    requires DEFS_KEY !in Keys(members) && n > 0 && spot.role != Data
    ensures var hoisted := HoistMembers(members, |members|, components).value;
      && |hoisted| == |members|
      && Tree(n, spot, Obj(hoisted), [], after) == Obj(Branches(n - 1, spot, hoisted, [], after))
  {
    hide Tree, Branches, Hoist;
    var hoisted := HoistMembers(members, |members|, components).value;
    HoistMembersLength(members, |members|, components);
    forall i | 0 <= i < |members|
      ensures hoisted[i].key == members[i].key
    {
      HoistMembersAt(members, |members|, components, i);
    }
    SameKeys(members, hoisted);
    TreeOfMembers(n, spot, hoisted, [], after);
  }

  lemma SoundMember(members: Members, i: nat)
    requires Sound(Obj(members)) && i < |members|
    ensures Sound(members[i].value)
  {}

  lemma OpenRuns(members: Members, components: Components, after: Components)
    requires !HasBlock(members) && Sound(Obj(members)) && Runs(Obj(members), components, after)
    ensures var rest := Without(members, DEFS_KEY);
      forall i | 0 <= i < |rest| :: MemberRuns(rest, i, components, after)
  {
    hide HasBlock, Extends, AllNoDefs, Sound;
    var rest := Without(members, DEFS_KEY);
    SoundWithout(members);
    OpenIsHoisted(members, components);
    MembersRun(rest, |rest|, components, after);
  }

  lemma TreeOfOpen(n: nat, spot: Spot, members: Members, components: Components)
    requires !HasBlock(members) && n > 0 && spot.role != Data && Unnested(spot, Obj(members), components)
    ensures Tree(n, spot, Obj(members), [], components)
         == Obj(Branches(n - 1, spot, Without(members, DEFS_KEY), [], components))
  {
    hide HasBlock, Branches, UnnestedMember;
    if spot.role != Keywords { WithoutAbsent(members, DEFS_KEY); }
  }

  lemma {:induction false} OpenBranchKeepsMeaning(n: nat, spot: Spot, m: Member, components: Components,
                                                 before: Components, after: Components)
    requires UnnestedMember(spot, m, before) && Sound(m.value) && Runs(m.value, components, after)
      && Arrived(before, after)
    ensures JsonEqual(Branch(n, spot, m, [], before),
                      Branch(n, spot, Member(m.key, Hoist(m.value, components).value), [], after))
    decreases n, 1
  {
    StringStaysString(m.value, components);
    hide DeepEqual, AllStay, AllNoDefs, Tree, Target, Leads, Unnested, ChildRole, Runs;
    if IsReference(spot.place, m.key, m.value) {
      assert Moved([], map[], before, after);
      TargetKeepsMeaning(n, m.value.s, [], map[], before, after);
    } else {
      hide Hoist;
      NodeKeepsMeaning(n, ChildSpot(spot, m.key), m.value, components, before, after);
    }
  }

  lemma ClosedStays(before: Components, after: Components)
    requires Closed(before) && Kept(true, before, after)
    ensures AllStay(before, after)
  {
    hide Resolves, NoDefs, DeepEqual;
  }

  /**
    When no registration conflates, and no definition refers to one its block renames, the hoisted
    document means what the document meant: unfolding to any depth gives the same tree, and so does
    unfolding any component.
    */
  lemma HoistingKeepsMeaning(n: nat, document: Json, components: Components)
    requires Sound(document) && Closed(components) && Unnested(SCHEMA, document, components)
    requires ExactHoist(document, components) && Steady(document, components)
    ensures var h := Hoist(document, components);
      && JsonEqual(Tree(n, SCHEMA, document, [], components), Tree(n, SCHEMA, h.value, [], h.components))
      && forall k | k in components :: k in h.components &&
           JsonEqual(Tree(n, SCHEMA, components[k], [], components), Tree(n, SCHEMA, h.components[k], [], h.components))
  {
    hide Unnested, Closed, AllStay, Tree, DeepEqual, Hoist, AllNoDefs, Sound, Extends, ExactHoist, Steady;
    var after := Hoist(document, components).components;
    ClosedHasNoDefs(components);
    HoistIsConservative(true, document, components);
    ExtendsReflexive(true, after);
    ClosedStays(components, after);
    NodeKeepsMeaning(n, SCHEMA, document, components, components, after);
    forall k | k in components
      ensures k in after
      ensures JsonEqual(Tree(n, SCHEMA, components[k], [], components), Tree(n, SCHEMA, after[k], [], after))
    {
      ComponentKeepsMeaning(n, k, components, after);
    }
  }
}
