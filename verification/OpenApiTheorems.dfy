/** What hoisting keeps, whatever the document: closure, conservation and where references land. */
module OpenApiTheorems {
  import opened JsonValues
  import opened OpenApiHoist

  // ---------------------------------------------------------------- element by element

  ghost function RewriteMember(place: Place, m: Member, renames: Renames): Member {
    Member(m.key, if IsReference(place, m.key, m.value) then Str(RewrittenReference(m.value.s, renames))
                  else Rewrite(ChildPlace(place, m.key), m.value, renames))
  }

  lemma {:induction false} RewriteMembersAt(place: Place, members: Members, renames: Renames, i: nat)
    requires i < |members|
    ensures RewriteMembers(place, members, renames)[i] == RewriteMember(place, members[i], renames)
  {
    if i > 0 { RewriteMembersAt(place, members[1..], renames, i - 1); }
  }

  lemma {:induction false} RewriteItemsAt(items: seq<Json>, renames: Renames, i: nat)
    requires i < |items|
    ensures RewriteItems(items, renames)[i] == Rewrite(Plain, items[i], renames)
  {
    if i > 0 { RewriteItemsAt(items[1..], renames, i - 1); }
  }

  lemma SameKeys(a: Members, b: Members)
    requires |a| == |b| && forall i | 0 <= i < |a| :: a[i].key == b[i].key
    ensures Keys(a) == Keys(b)
  {
    forall k ensures k in Keys(a) <==> k in Keys(b) {
      if k in Keys(a) { var i :| 0 <= i < |a| && a[i].key == k; assert b[i].key == k; }
      if k in Keys(b) { var i :| 0 <= i < |b| && b[i].key == k; assert a[i].key == k; }
    }
  }

  lemma RewriteKeepsKeys(place: Place, members: Members, renames: Renames)
    ensures Keys(RewriteMembers(place, members, renames)) == Keys(members)
  {
    forall i | 0 <= i < |members| ensures RewriteMembers(place, members, renames)[i].key == members[i].key {
      RewriteMembersAt(place, members, renames, i);
    }
    SameKeys(RewriteMembers(place, members, renames), members);
  }

  // ---------------------------------------------------------------- no definitions block, no local reference

  ghost predicate NoDefs(node: Json)
    decreases node
  {
    match node
    case Arr(items) => forall i | 0 <= i < |items| :: NoDefs(items[i])
    case Obj(members) => DEFS_KEY !in Keys(members) && forall i | 0 <= i < |members| :: NoDefs(members[i].value)
    case _ => true
  }

  ghost predicate NoLocal(place: Place, node: Json)
    decreases node
  {
    match node
    case Arr(items) => forall i | 0 <= i < |items| :: NoLocal(Plain, items[i])
    case Obj(members) =>
      forall i | 0 <= i < |members| ::
        if IsReference(place, members[i].key, members[i].value) then Local(members[i].value.s).None?
        else NoLocal(ChildPlace(place, members[i].key), members[i].value)
    case _ => true
  }

  lemma {:induction false} RewriteKeepsNoDefs(place: Place, node: Json, renames: Renames)
    requires NoDefs(node)
    ensures NoDefs(Rewrite(place, node, renames))
    decreases node
  {
    match node
    case Arr(items) =>
      forall i | 0 <= i < |items| ensures NoDefs(RewriteItems(items, renames)[i]) {
        RewriteItemsAt(items, renames, i);
        RewriteKeepsNoDefs(Plain, items[i], renames);
      }
    case Obj(members) =>
      RewriteKeepsKeys(place, members, renames);
      forall i | 0 <= i < |members| ensures NoDefs(RewriteMembers(place, members, renames)[i].value) {
        RewriteMembersAt(place, members, renames, i);
        if !IsReference(place, members[i].key, members[i].value) {
          RewriteKeepsNoDefs(ChildPlace(place, members[i].key), members[i].value, renames);
        }
      }
    case _ =>
  }

  lemma RewrittenIsNotLocal(reference: string, renames: Renames)
    ensures Local(RewrittenReference(reference, renames)).None?
  {
    if Local(reference).Some? {
      var r := RewrittenReference(reference, renames);
      assert r[2] == COMPONENTS_PREFIX[2] == 'c';
      assert LOCAL_PREFIX[2] == '$';
    }
  }

  /** One pass of rewriting leaves no local reference. */
  lemma {:induction false} RewriteRemovesLocal(place: Place, node: Json, renames: Renames)
    ensures NoLocal(place, Rewrite(place, node, renames))
    decreases node
  {
    match node
    case Arr(items) =>
      var r := RewriteItems(items, renames);
      forall i | 0 <= i < |r| ensures NoLocal(Plain, r[i]) {
        RewriteItemsAt(items, renames, i);
        RewriteRemovesLocal(Plain, items[i], renames);
      }
    case Obj(members) =>
      var r := RewriteMembers(place, members, renames);
      forall i | 0 <= i < |r|
        ensures if IsReference(place, r[i].key, r[i].value) then Local(r[i].value.s).None?
                else NoLocal(ChildPlace(place, r[i].key), r[i].value)
      {
        RewriteMembersAt(place, members, renames, i);
        var m := members[i];
        if IsReference(place, m.key, m.value) {
          RewrittenIsNotLocal(m.value.s, renames);
        } else {
          RewriteRemovesLocal(ChildPlace(place, m.key), m.value, renames);
          assert IsReference(place, r[i].key, r[i].value) ==> m.value.Str?;
        }
      }
    case _ =>
  }

  /** And where there is none, another pass changes nothing. */
  lemma {:induction false} RewriteIsIdempotent(place: Place, node: Json, renames: Renames)
    requires NoLocal(place, node)
    ensures Rewrite(place, node, renames) == node
    decreases node
  {
    match node
    case Arr(items) =>
      forall i | 0 <= i < |items| ensures RewriteItems(items, renames)[i] == items[i] {
        RewriteItemsAt(items, renames, i);
        RewriteIsIdempotent(Plain, items[i], renames);
      }
      assert RewriteItems(items, renames) == items;
    case Obj(members) =>
      forall i | 0 <= i < |members| ensures RewriteMembers(place, members, renames)[i] == members[i] {
        RewriteMembersAt(place, members, renames, i);
        if !IsReference(place, members[i].key, members[i].value) {
          RewriteIsIdempotent(ChildPlace(place, members[i].key), members[i].value, renames);
        }
      }
      assert RewriteMembers(place, members, renames) == members;
    case _ =>
  }

  // ---------------------------------------------------------------- components only grow

  ghost predicate AllNoDefs(components: Components) { forall k | k in components :: NoDefs(components[k]) }

  /**
    No component is lost, and none that is a schema changes its content: up to JSON equality if
    `exact`, and otherwise up to Python's equality, by which the program compares definitions.
    */
  ghost predicate Extends(exact: bool, before: Components, after: Components) {
    forall k | k in before :: k in after && (before[k] == Null || DeepEqual(exact, before[k], after[k]))
  }

  lemma ExtendsReflexive(exact: bool, c: Components)
    ensures Extends(exact, c, c)
  {
    forall k | k in c ensures DeepEqual(exact, c[k], c[k]) { EqualReflexive(exact, c[k]); }
  }

  lemma ExtendsTransitive(exact: bool, a: Components, b: Components, c: Components)
    requires Extends(exact, a, b) && Extends(exact, b, c)
    ensures Extends(exact, a, c)
  {
    hide DeepEqual;
    forall k | k in a ensures k in c && (a[k] == Null || DeepEqual(exact, a[k], c[k])) {
      if a[k] != Null {
        NullEqualsNull(exact, a[k], b[k]);
        EqualTransitive(exact, a[k], b[k], c[k]);
      }
    }
  }

  lemma NullEqualsNull(exact: bool, a: Json, b: Json)
    requires DeepEqual(exact, a, b)
    ensures a == Null <==> b == Null
  {}

  /** The final name is free for the definition. */
  lemma FinalNameIsFree(components: Components, name: string, definition: Json)
    ensures NameIsFree(components, FinalName(components, name, definition), definition)
  {
    hide DeepEqual;
  }

  /**
    The name a definition ends under is held by a schema that is not JSON-equal to it. Python must then
    have found the two equal, confusing a boolean with a number.
    */
  predicate Conflates(components: Components, name: string, definition: Json) {
    var final := FinalName(components, name, definition);
    final in components && components[final] != Null && !JsonEqual(components[final], definition)
  }

  /** Every component stays as it was, exactly when the registration conflates nothing. */
  lemma RegistrationIsExactUnlessItConflates(r: Registration, name: string, definition: Json)
    ensures Extends(true, r.components, RegisterOne(r, name, definition).components)
      <==> !Conflates(r.components, name, definition)
  {
    hide FinalName, DeepEqual;
    var final := FinalName(r.components, name, definition);
    var after := RegisterOne(r, name, definition).components;
    forall k | k in r.components && k != final ensures JsonEqual(r.components[k], after[k]) {
      EqualReflexive(true, r.components[k]);
    }
  }

  lemma RegisterOneExtends(exact: bool, r: Registration, name: string, definition: Json)
    requires exact ==> !Conflates(r.components, name, definition)
    ensures Extends(exact, r.components, RegisterOne(r, name, definition).components)
  {
    hide FinalName, DeepEqual;
    if exact {
      RegistrationIsExactUnlessItConflates(r, name, definition);
    } else {
      var final := FinalName(r.components, name, definition);
      var after := RegisterOne(r, name, definition).components;
      FinalNameIsFree(r.components, name, definition);
      forall k | k in r.components && k != final ensures PythonEqual(r.components[k], after[k]) {
        EqualReflexive(false, r.components[k]);
      }
    }
  }

  /** None of the first `n` registrations conflates. */
  ghost predicate ExactPrepared(r: Registration, prepared: Members, n: nat)
    requires n <= |prepared|
  {
    n == 0 || (
      && ExactPrepared(r, prepared, n - 1)
      && !Conflates(RegisterPrepared(r, prepared, n - 1).components, prepared[n - 1].key, prepared[n - 1].value))
  }

  lemma {:induction false} RegisterPreparedExtends(exact: bool, r: Registration, prepared: Members, n: nat)
    requires n <= |prepared| && (exact ==> ExactPrepared(r, prepared, n))
    ensures Extends(exact, r.components, RegisterPrepared(r, prepared, n).components)
  {
    hide Extends, RegisterOne, Conflates;
    ExtendsReflexive(exact, r.components);
    if n > 0 {
      RegisterPreparedExtends(exact, r, prepared, n - 1);
      var before := RegisterPrepared(r, prepared, n - 1);
      RegisterOneExtends(exact, before, prepared[n - 1].key, prepared[n - 1].value);
      ExtendsTransitive(exact, r.components, before.components, RegisterPrepared(r, prepared, n).components);
    }
  }

  // ---------------------------------------------------------------- one block

  /** What registering needs of prepared definitions, and `Prepare` gives. */
  ghost predicate Prepared(prepared: Members) {
    && DistinctKeys(prepared)
    && forall i | 0 <= i < |prepared| ::
         prepared[i].value != Null && NoDefs(prepared[i].value) && NoLocal(Plain, prepared[i].value)
  }

  /** The definition is published under the name its block gives it. */
  ghost predicate Published(exact: bool, r: Registration, m: Member) {
    var final := Final(r.renames, m.key);
    final in r.components && DeepEqual(exact, r.components[final], m.value) && NoLocal(Plain, r.components[final])
  }

  lemma PublishedOne(exact: bool, r: Registration, m: Member)
    requires NoLocal(Plain, m.value)
    requires m.key in r.renames && r.renames[m.key] == m.key
    ensures Published(exact, RegisterOne(r, m.key, m.value), m)
  {
    hide FinalName;
    EqualReflexive(exact, m.value);
  }

  lemma StaysPublished(exact: bool, r: Registration, m: Member, other: Member)
    requires Published(exact, r, m) && m.key != other.key && m.value != Null && NoLocal(Plain, other.value)
    requires exact ==> !Conflates(r.components, other.key, other.value)
    ensures Published(exact, RegisterOne(r, other.key, other.value), m)
  {
    hide FinalName, DeepEqual, NoLocal;
    var final := FinalName(r.components, other.key, other.value);
    FinalNameIsFree(r.components, other.key, other.value);
    if final == Final(r.renames, m.key) {
      NullEqualsNull(exact, r.components[final], m.value);
      EqualSymmetric(exact, r.components[final], other.value);
      EqualTransitive(exact, other.value, r.components[final], m.value);
    }
  }

  ghost predicate AllPublished(exact: bool, r: Registration, prepared: Members, n: nat)
    requires n <= |prepared|
  {
    && (forall i | 0 <= i < n :: Published(exact, r, prepared[i]))
    && (forall i | n <= i < |prepared| :: prepared[i].key in r.renames && r.renames[prepared[i].key] == prepared[i].key)
  }

  lemma {:induction false} EveryDefinitionIsPublished(exact: bool, r: Registration, prepared: Members, n: nat)
    requires n <= |prepared| && Prepared(prepared) && AllPublished(exact, r, prepared, 0)
    requires exact ==> ExactPrepared(r, prepared, n)
    ensures AllPublished(exact, RegisterPrepared(r, prepared, n), prepared, n)
  {
    if n > 0 {
      hide Published, Prepared, Conflates, RegisterOne;
      EveryDefinitionIsPublished(exact, r, prepared, n - 1);
      OneMorePublished(exact, RegisterPrepared(r, prepared, n - 1), prepared, n);
    }
  }

  lemma OneMorePublished(exact: bool, before: Registration, prepared: Members, n: nat)
    requires 0 < n <= |prepared| && Prepared(prepared) && AllPublished(exact, before, prepared, n - 1)
    requires exact ==> !Conflates(before.components, prepared[n - 1].key, prepared[n - 1].value)
    ensures AllPublished(exact, RegisterOne(before, prepared[n - 1].key, prepared[n - 1].value), prepared, n)
  {
    hide Published, FinalName, Conflates, NoLocal, NoDefs;
    PublishedOne(exact, before, prepared[n - 1]);
    forall i | 0 <= i < n - 1
      ensures Published(exact, RegisterOne(before, prepared[n - 1].key, prepared[n - 1].value), prepared[i])
    {
      StaysPublished(exact, before, prepared[i], prepared[n - 1]);
    }
  }

  lemma {:induction false} RepointingIsIdentity(r: Registration, prepared: Members, n: nat)
    requires n <= |prepared| && forall i | 0 <= i < |prepared| :: Published(false, r, prepared[i])
    ensures RepointSiblings(r, prepared, n) == r.components
  {
    if n > 0 {
      RepointingIsIdentity(r, prepared, n - 1);
      var final := Final(r.renames, prepared[n - 1].key);
      assert Published(false, r, prepared[n - 1]);
      RewriteIsIdempotent(Plain, r.components[final], r.renames);
    }
  }

  /** The pass that repoints siblings after a rename changes nothing. */
  lemma SecondPassChangesNothing(prepared: Members, components: Components, names: Renames)
    requires Prepared(prepared) && AllPublished(false, Registration(components, names), prepared, 0)
    ensures var r := RegisterPrepared(Registration(components, names), prepared, |prepared|);
      RepointSiblings(r, prepared, |prepared|) == r.components
  {
    hide Published, NoLocal;
    EveryDefinitionIsPublished(false, Registration(components, names), prepared, |prepared|);
    RepointingIsIdentity(RegisterPrepared(Registration(components, names), prepared, |prepared|), prepared, |prepared|);
  }

  // ---------------------------------------------------------------- the whole document

  /** Keys are distinct, as in every Python dictionary, and no definition is null. */
  ghost predicate Sound(node: Json)
    decreases node
  {
    match node
    case Arr(items) => forall i | 0 <= i < |items| :: Sound(items[i])
    case Obj(members) =>
      && DistinctKeys(members)
      && (forall i | 0 <= i < |members| :: Sound(members[i].value))
      && (forall i | 0 <= i < |members| ::
            members[i].key == DEFS_KEY && members[i].value.Obj? ==> NoNulls(members[i].value.members))
    case _ => true
  }

  ghost predicate NoNulls(members: Members) { forall i | 0 <= i < |members| :: members[i].value != Null }

  lemma SoundBlock(members: Members)
    requires Sound(Obj(members)) && HasBlock(members)
    ensures Sound(Obj(Block(members))) && NoNulls(Block(members))
  {
    var i :| 0 <= i < |members| && members[i] == Member(DEFS_KEY, Lookup(members, DEFS_KEY));
    assert Sound(members[i].value);
  }

  lemma {:induction false} WithoutIsSubsequence(members: Members, key: string)
    requires DistinctKeys(members)
    ensures DistinctKeys(Without(members, key)) && key !in Keys(Without(members, key))
    ensures forall m | m in Without(members, key) :: m in members
  {
    if |members| > 0 {
      Unfold(members);
      WithoutIsSubsequence(members[1..], key);
      var rest := Without(members[1..], key);
      assert forall m | m in rest :: m.key in Keys(members[1..]);
      if members[0].key != key {
        var r := Without(members, key);
        assert r[1..] == rest;
        Unfold(r);
        assert members[0].key !in Keys(rest);
      }
    }
  }

  lemma SoundWithout(members: Members)
    requires Sound(Obj(members))
    ensures Sound(Obj(Without(members, DEFS_KEY))) && DEFS_KEY !in Keys(Without(members, DEFS_KEY))
  {
    WithoutIsSubsequence(members, DEFS_KEY);
    var rest := Without(members, DEFS_KEY);
    forall i | 0 <= i < |rest| ensures Sound(rest[i].value) && rest[i].key != DEFS_KEY {
      assert rest[i] in members;
      assert rest[i].key in Keys(rest);
    }
  }

  lemma DistinctByKeys(a: Members, b: Members)
    requires |a| == |b| && (forall i | 0 <= i < |a| :: a[i].key == b[i].key) && DistinctKeys(a)
    ensures DistinctKeys(b)
  {}

  lemma RewriteNull(place: Place, node: Json, renames: Renames)
    ensures Rewrite(place, node, renames) == Null <==> node == Null
  {}

  lemma {:induction false} RewriteKeepsSound(place: Place, node: Json, renames: Renames)
    requires Sound(node)
    ensures Sound(Rewrite(place, node, renames))
    decreases node
  {
    match node
    case Arr(items) =>
      var r := RewriteItems(items, renames);
      forall i | 0 <= i < |r| ensures Sound(r[i]) {
        RewriteItemsAt(items, renames, i);
        RewriteKeepsSound(Plain, items[i], renames);
      }
    case Obj(members) =>
      var r := RewriteMembers(place, members, renames);
      forall i | 0 <= i < |r|
        ensures r[i].key == members[i].key && Sound(r[i].value)
        ensures r[i].key == DEFS_KEY && r[i].value.Obj? ==> NoNulls(r[i].value.members)
      {
        RewriteMembersAt(place, members, renames, i);
        var m := members[i];
        if !IsReference(place, m.key, m.value) {
          RewriteKeepsSound(ChildPlace(place, m.key), m.value, renames);
          if m.key == DEFS_KEY && m.value.Obj? {
            RewriteKeepsNoNulls(ChildPlace(place, m.key), m.value.members, renames);
          }
        }
      }
      DistinctByKeys(members, r);
    case _ =>
  }

  lemma RewriteKeepsNoNulls(place: Place, members: Members, renames: Renames)
    requires NoNulls(members)
    ensures NoNulls(RewriteMembers(place, members, renames))
  {
    var r := RewriteMembers(place, members, renames);
    forall i | 0 <= i < |r| ensures r[i].value != Null {
      RewriteMembersAt(place, members, renames, i);
      RewriteNull(ChildPlace(place, members[i].key), members[i].value, renames);
    }
  }

  /** What every step of the traversal keeps. */
  ghost predicate Kept(exact: bool, before: Components, after: Components) {
    AllNoDefs(after) && Extends(exact, before, after)
  }

  lemma KeptTransitive(exact: bool, a: Components, b: Components, c: Components)
    requires Kept(exact, a, b) && Kept(exact, b, c)
    ensures Kept(exact, a, c)
  {
    hide Extends, AllNoDefs;
    ExtendsTransitive(exact, a, b, c);
  }

  /** What one block becomes: its prepared definitions and the registration they end in. */
  ghost function BlockPrepared(definitions: Members, components: Components): (r: Hoisted<Members>)
    ensures |r.value| == |definitions|
  {
    Prepare(definitions, |definitions|, Identity(definitions), components)
  }

  // The run conflates nothing: no registration of the traversal replaces a schema by one that only
  // Python takes for equal.

  ghost predicate ExactHoist(node: Json, components: Components)
    decreases Size(node), 0, 0
  {
    match node
    case Arr(items) => ExactItems(items, |items|, components)
    case Obj(members) =>
      var rest := Without(members, DEFS_KEY);
      WithoutIsSmaller(members, DEFS_KEY);
      if HasBlock(members) then
        BlockIsSmaller(members);
        var registered := Register(Block(members), components);
        var repointed := RewriteMembers(Plain, rest, registered.value);
        RewriteMembersKeepsSize(Plain, rest, registered.value);
        ExactRegister(Block(members), components) && ExactMembers(repointed, |repointed|, registered.components)
      else ExactMembers(rest, |rest|, components)
    case _ => true
  }

  ghost predicate ExactItems(items: seq<Json>, n: nat, components: Components)
    requires n <= |items|
    decreases ItemsSize(items), 1, n
  {
    n == 0 || (
      ItemIsSmaller(items, n - 1);
      ExactItems(items, n - 1, components) && ExactHoist(items[n - 1], HoistItems(items, n - 1, components).components))
  }

  ghost predicate ExactMembers(members: Members, n: nat, components: Components)
    requires n <= |members|
    decreases MembersSize(members), 1, n
  {
    n == 0 || (
      MemberIsSmaller(members, n - 1);
      && ExactMembers(members, n - 1, components)
      && ExactHoist(members[n - 1].value, HoistMembers(members, n - 1, components).components))
  }

  ghost predicate ExactPrepare(definitions: Members, n: nat, renames: Renames, components: Components)
    requires n <= |definitions|
    decreases MembersSize(definitions), 1, n
  {
    n == 0 || (
      MemberIsSmaller(definitions, n - 1);
      && ExactPrepare(definitions, n - 1, renames, components)
      && ExactHoist(definitions[n - 1].value, Prepare(definitions, n - 1, renames, components).components))
  }

  ghost predicate ExactRegister(definitions: Members, components: Components)
    decreases MembersSize(definitions), 2, 0
  {
    var p := BlockPrepared(definitions, components);
    && ExactPrepare(definitions, |definitions|, Identity(definitions), components)
    && ExactPrepared(Registration(p.components, Identity(definitions)), p.value, |p.value|)
  }

  /**
    Hoisting leaves no definitions block anywhere and loses no component. Their content stays as it was
    up to Python's equality, and up to JSON equality where nothing is conflated.
    */
  lemma {:induction false} HoistIsConservative(exact: bool, node: Json, components: Components)
    requires Sound(node) && AllNoDefs(components) && (exact ==> ExactHoist(node, components))
    ensures NoDefs(Hoist(node, components).value)
    ensures Kept(exact, components, Hoist(node, components).components)
    ensures Hoist(node, components).value == Null <==> node == Null
    decreases Size(node), 0, 0
  {
    hide AllNoDefs, Extends, Register;
    ExtendsReflexive(exact, components);
    match node
    case Arr(items) => HoistItemsIsConservative(exact, items, |items|, components);
    case Obj(members) =>
      var rest := Without(members, DEFS_KEY);
      SoundWithout(members);
      WithoutIsSmaller(members, DEFS_KEY);
      if HasBlock(members) {
        BlockIsSmaller(members);
        SoundBlock(members);
        RegisterIsConservative(exact, Block(members), components);
        var registered := Register(Block(members), components);
        RewriteKeepsSound(Plain, Obj(rest), registered.value);
        RewriteKeepsKeys(Plain, rest, registered.value);
        RewriteMembersKeepsSize(Plain, rest, registered.value);
        var repointed := RewriteMembers(Plain, rest, registered.value);
        HoistMembersIsConservative(exact, repointed, |repointed|, registered.components);
        KeptTransitive(exact, components, registered.components, Hoist(node, components).components);
      } else {
        HoistMembersIsConservative(exact, rest, |rest|, components);
      }
    case _ =>
  }

  lemma {:induction false} HoistItemsIsConservative(exact: bool, items: seq<Json>, n: nat, components: Components)
    requires n <= |items| && Sound(Arr(items)) && AllNoDefs(components) && (exact ==> ExactItems(items, n, components))
    ensures NoDefs(Arr(HoistItems(items, n, components).value))
    ensures Kept(exact, components, HoistItems(items, n, components).components)
    decreases ItemsSize(items), 1, n
  {
    hide AllNoDefs, Extends, Hoist;
    ExtendsReflexive(exact, components);
    if n > 0 {
      HoistItemsIsConservative(exact, items, n - 1, components);
      var front := HoistItems(items, n - 1, components);
      ItemIsSmaller(items, n - 1);
      HoistIsConservative(exact, items[n - 1], front.components);
      KeptTransitive(exact, components, front.components, HoistItems(items, n, components).components);
    }
  }

  /** The same keys in the same order, none of the values a block. */
  ghost predicate LikeMembers(members: Members, n: nat, hoisted: Members)
    requires n <= |members|
  {
    && |hoisted| == n
    && forall i | 0 <= i < n ::
         && hoisted[i].key == members[i].key && NoDefs(hoisted[i].value)
         && (hoisted[i].value == Null <==> members[i].value == Null)
  }

  lemma LikeMembersNoDefs(members: Members, hoisted: Members)
    requires LikeMembers(members, |members|, hoisted) && DEFS_KEY !in Keys(members)
    ensures NoDefs(Obj(hoisted))
  {
    SameKeys(members, hoisted);
  }

  lemma {:induction false} HoistMembersKeepsShape(exact: bool, members: Members, n: nat, components: Components)
    requires n <= |members| && Sound(Obj(members)) && AllNoDefs(components)
    requires exact ==> ExactMembers(members, n, components)
    ensures LikeMembers(members, n, HoistMembers(members, n, components).value)
    ensures Kept(exact, components, HoistMembers(members, n, components).components)
    decreases MembersSize(members), 1, n
  {
    hide AllNoDefs, Extends, Hoist, ExactHoist, NoDefs;
    ExtendsReflexive(exact, components);
    if n > 0 {
      HoistMembersKeepsShape(exact, members, n - 1, components);
      var front := HoistMembers(members, n - 1, components);
      MemberIsSmaller(members, n - 1);
      HoistIsConservative(exact, members[n - 1].value, front.components);
      KeptTransitive(exact, components, front.components, HoistMembers(members, n, components).components);
    }
  }

  lemma {:induction false} HoistMembersIsConservative(exact: bool, members: Members, n: nat, components: Components)
    requires n == |members| && Sound(Obj(members)) && AllNoDefs(components) && DEFS_KEY !in Keys(members)
    requires exact ==> ExactMembers(members, n, components)
    ensures NoDefs(Obj(HoistMembers(members, n, components).value))
    ensures Kept(exact, components, HoistMembers(members, n, components).components)
    decreases MembersSize(members), 1, n + 1
  {
    hide AllNoDefs, Extends, Hoist;
    HoistMembersKeepsShape(exact, members, n, components);
    LikeMembersNoDefs(members, HoistMembers(members, n, components).value);
  }

  lemma {:induction false} PrepareKeepsShape(exact: bool, definitions: Members, n: nat, renames: Renames,
                                             components: Components)
    requires n <= |definitions| && Sound(Obj(definitions)) && NoNulls(definitions) && AllNoDefs(components)
    requires exact ==> ExactPrepare(definitions, n, renames, components)
    ensures var r := Prepare(definitions, n, renames, components);
      && LikeMembers(definitions, n, r.value)
      && (forall i | 0 <= i < n :: NoLocal(Plain, r.value[i].value))
      && Kept(exact, components, r.components)
    decreases MembersSize(definitions), 1, n
  {
    hide AllNoDefs, Extends, Hoist, NoLocal, NoDefs, ExactHoist, Rewrite;
    ExtendsReflexive(exact, components);
    if n > 0 {
      PrepareKeepsShape(exact, definitions, n - 1, renames, components);
      var front := Prepare(definitions, n - 1, renames, components);
      MemberIsSmaller(definitions, n - 1);
      HoistIsConservative(exact, definitions[n - 1].value, front.components);
      var last := Hoist(definitions[n - 1].value, front.components);
      RewriteKeepsNoDefs(Plain, last.value, renames);
      RewriteRemovesLocal(Plain, last.value, renames);
      RewriteNull(Plain, last.value, renames);
      KeptTransitive(exact, components, front.components, last.components);
    }
  }

  lemma {:induction false} RegisterPreparedNoDefs(r: Registration, prepared: Members, n: nat)
    requires n <= |prepared| && Prepared(prepared) && AllNoDefs(r.components)
    ensures AllNoDefs(RegisterPrepared(r, prepared, n).components)
  {
    hide FinalName, NoDefs, NoLocal;
    if n > 0 { RegisterPreparedNoDefs(r, prepared, n - 1); }
  }

  lemma IdentityPublishes(exact: bool, definitions: Members, prepared: Members, components: Components)
    requires |prepared| == |definitions| && forall i | 0 <= i < |prepared| :: prepared[i].key == definitions[i].key
    ensures AllPublished(exact, Registration(components, Identity(definitions)), prepared, 0)
  {
    SameKeys(definitions, prepared);
    forall i | 0 <= i < |prepared| ensures prepared[i].key in Identity(definitions) {
      assert prepared[i].key in Keys(prepared);
    }
  }

  lemma PrepareIsPrepared(exact: bool, definitions: Members, components: Components)
    requires Sound(Obj(definitions)) && NoNulls(definitions) && AllNoDefs(components)
    requires exact ==> ExactRegister(definitions, components)
    ensures var p := BlockPrepared(definitions, components);
      && Prepared(p.value) && Kept(exact, components, p.components)
      && AllPublished(exact, Registration(p.components, Identity(definitions)), p.value, 0)
      && |p.value| == |definitions|
      && forall i | 0 <= i < |definitions| :: p.value[i].key == definitions[i].key
    decreases MembersSize(definitions), 2, 0
  {
    hide AllNoDefs, Extends, NoLocal, Prepare, Identity, Hoist;
    var p := BlockPrepared(definitions, components);
    PrepareKeepsShape(exact, definitions, |definitions|, Identity(definitions), components);
    DistinctByKeys(definitions, p.value);
    IdentityPublishes(exact, definitions, p.value, p.components);
  }

  lemma RegisterIs(definitions: Members, components: Components)
    ensures var p := BlockPrepared(definitions, components);
      var r := RegisterPrepared(Registration(p.components, Identity(definitions)), p.value, |p.value|);
      Register(definitions, components)
      == Hoisted(r.renames, if AnyRenamed(r.renames) then RepointSiblings(r, p.value, |p.value|) else r.components)
  {
    hide Prepare, RegisterPrepared, AnyRenamed, RepointSiblings, Identity;
  }

  /** Every definition of a block is published under its final name, with its prepared content. */
  lemma RegisterPublishes(exact: bool, definitions: Members, components: Components)
    requires Sound(Obj(definitions)) && NoNulls(definitions) && AllNoDefs(components)
    requires exact ==> ExactRegister(definitions, components)
    ensures var p := BlockPrepared(definitions, components);
      var r := Register(definitions, components);
      && r.components == RegisterPrepared(Registration(p.components, Identity(definitions)), p.value,
        |p.value|).components
      && forall i | 0 <= i < |p.value| :: Published(exact, Registration(r.components, r.value), p.value[i])
    decreases MembersSize(definitions), 2, 1
  {
    PrepareIsPrepared(exact, definitions, components);
    RegisterIs(definitions, components);
    var p := BlockPrepared(definitions, components);
    hide BlockPrepared, RegisterPrepared, RepointSiblings, Register, Identity, Published, Prepared;
    IdentityPublishes(false, definitions, p.value, p.components);
    SecondPassChangesNothing(p.value, p.components, Identity(definitions));
    EveryDefinitionIsPublished(exact, Registration(p.components, Identity(definitions)), p.value, |p.value|);
  }

  lemma {:induction false} RegisterIsConservative(exact: bool, definitions: Members, components: Components)
    requires Sound(Obj(definitions)) && NoNulls(definitions) && AllNoDefs(components)
    requires exact ==> ExactRegister(definitions, components)
    ensures Kept(exact, components, Register(definitions, components).components)
    decreases MembersSize(definitions), 2, 2
  {
    PrepareIsPrepared(exact, definitions, components);
    RegisterPublishes(exact, definitions, components);
    hide BlockPrepared, RegisterPrepared, Register, Identity, Published, Prepared, AllNoDefs, Extends, AllPublished;
    var p := BlockPrepared(definitions, components);
    var start := Registration(p.components, Identity(definitions));
    RegisterPreparedExtends(exact, start, p.value, |p.value|);
    RegisterPreparedNoDefs(start, p.value, |p.value|);
    KeptTransitive(exact, components, p.components, Register(definitions, components).components);
  }
}
