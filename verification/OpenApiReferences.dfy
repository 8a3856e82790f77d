/**
  References of an OpenAPI document, and the closure of hoisting: every reference that leads somewhere
  before leads to a component afterwards.
  */
module OpenApiReferences {
  import opened Wrappers
  import opened JsonValues
  import opened OpenApiHoist
  import opened OpenApiTheorems
  import opened OpenApiConflicts

  // ---------------------------------------------------------------- where a value stands

  /**
    What the keys of a dictionary are: keywords, names chosen by the author (of properties, say), or
    part of a value that is data and no schema at all. The program does not ask.
    */
  datatype Role = Keywords | Names | Data

  datatype Spot = Spot(place: Place, role: Role)

  const SCHEMA := Spot(Plain, Keywords)

  predicate HoldsNames(key: string) { key == "properties" || key == "patternProperties" || key == "dependentSchemas" }

  predicate HoldsData(key: string) {
    key == "const" || key == "enum" || key == "default" || key == "example" || key == "examples"
  }

  function ChildRole(spot: Spot, key: string): Role {
    match spot.role
    case Data => Data
    case Names => Keywords
    case Keywords =>
      if HoldsNames(key) || ChildPlace(spot.place, key) == Mapping then Names
      else if HoldsData(key) then Data
      else Keywords
  }

  function ChildSpot(spot: Spot, key: string): Spot { Spot(ChildPlace(spot.place, key), ChildRole(spot, key)) }

  function ItemSpot(spot: Spot): Spot { Spot(Plain, if spot.role == Data then Data else Keywords) }

  // ---------------------------------------------------------------- references that lead somewhere

  /** A component reference names a component, and inside a block a local reference a definition of it. */
  ghost predicate Leads(reference: string, scope: Members, components: Components) {
    match (Local(reference), NameAfter(COMPONENTS_PREFIX, reference))
    case (Some(name), _) => scope == [] || name in Keys(scope)
    case (None, Some(name)) => name in components
    case (None, None) => true
  }

  /**
    A schema without blocks, every reference in which leads somewhere. Data holds no `$defs` and,
    inside a block, nothing that reads as a local reference: the program would change it.
    */
  ghost predicate Resolves(spot: Spot, node: Json, scope: Members, components: Components)
    decreases node
  {
    if spot.role == Data then NoDefs(node) && (scope != [] ==> NoLocal(spot.place, node))
    else
      match node
      case Arr(items) => forall i | 0 <= i < |items| :: Resolves(ItemSpot(spot), items[i], scope, components)
      case Obj(members) =>
        && DEFS_KEY !in Keys(members)
        && forall i | 0 <= i < |members| ::
             if IsReference(spot.place, members[i].key, members[i].value)
               then Leads(members[i].value.s, scope, components)
             else Resolves(ChildSpot(spot, members[i].key), members[i].value, scope, components)
      case _ => true
  }

  /**
    The document's `$defs` stand where they are keywords, its blocks do not nest, and the references in
    them and to components lead somewhere.
    */
  ghost predicate Unnested(spot: Spot, node: Json, components: Components)
    decreases node
  {
    if spot.role == Data then NoDefs(node)
    else
      match node
      case Arr(items) => forall i | 0 <= i < |items| :: Unnested(ItemSpot(spot), items[i], components)
      case Obj(members) =>
        if HasBlock(members) then
          && spot == SCHEMA && Resolves(SCHEMA, Obj(Without(members, DEFS_KEY)), Block(members), components)
          && forall i | 0 <= i < |Block(members)| ::
            Resolves(SCHEMA, Block(members)[i].value, Block(members), components)
        else
          && (spot.role == Keywords || DEFS_KEY !in Keys(members))
          && forall i | 0 <= i < |members| :: members[i].key == DEFS_KEY || UnnestedMember(spot, members[i], components)
      case _ => true
  }

  ghost predicate UnnestedMember(spot: Spot, m: Member, components: Components)
    decreases m
  {
    if IsReference(spot.place, m.key, m.value) then Leads(m.value.s, [], components)
    else Unnested(ChildSpot(spot, m.key), m.value, components)
  }

  /** Components that are schemas without blocks and refer to one another. */
  ghost predicate Closed(components: Components) { ClosedIn(components, components) }

  ghost predicate ClosedIn(components: Components, all: Components) {
    forall k | k in components :: components[k] != Null && Resolves(SCHEMA, components[k], [], all)
  }

  lemma {:induction false} ResolvesHasNoDefs(spot: Spot, node: Json, scope: Members, components: Components)
    requires Resolves(spot, node, scope, components)
    ensures NoDefs(node)
    decreases node
  {
    hide ChildSpot, Leads;
    match node
    case Arr(items) =>
      if spot.role != Data {
        forall i | 0 <= i < |items|
          ensures NoDefs(items[i])
        {
          ResolvesHasNoDefs(ItemSpot(spot), items[i], scope, components);
        }
      }
    case Obj(members) =>
      if spot.role != Data {
        forall i | 0 <= i < |members| ensures NoDefs(members[i].value) {
          if !IsReference(spot.place, members[i].key, members[i].value) {
            ResolvesHasNoDefs(ChildSpot(spot, members[i].key), members[i].value, scope, components);
          }
        }
      }
    case _ =>
  }

  /** More components make no reference lead nowhere. */
  lemma {:induction false} ResolvesAmongMore(spot: Spot, node: Json, scope: Members, before: Components,
                                             after: Components)
    requires Resolves(spot, node, scope, before) && before.Keys <= after.Keys
    ensures Resolves(spot, node, scope, after)
    decreases node
  {
    hide ChildSpot;
    match node
    case Arr(items) =>
      if spot.role != Data {
        forall i | 0 <= i < |items| ensures Resolves(ItemSpot(spot), items[i], scope, after) {
          ResolvesAmongMore(ItemSpot(spot), items[i], scope, before, after);
        }
      }
    case Obj(members) =>
      if spot.role != Data {
        forall i | 0 <= i < |members| && !IsReference(spot.place, members[i].key, members[i].value)
          ensures Resolves(ChildSpot(spot, members[i].key), members[i].value, scope, after)
        {
          ResolvesAmongMore(ChildSpot(spot, members[i].key), members[i].value, scope, before, after);
        }
      }
    case _ =>
  }

  // ---------------------------------------------------------------- repointed references

  /** Every definition of the block is a component, under the name the renames give it. */
  ghost predicate AllNamed(scope: Members, renames: Renames, components: Components) {
    forall k | k in Keys(scope) :: Final(renames, k) in components
  }

  lemma RepointedLeads(reference: string, scope: Members, renames: Renames, before: Components, after: Components)
    requires Leads(reference, scope, before) && scope != [] && AllNamed(scope, renames, after)
      && before.Keys <= after.Keys
    ensures Leads(RewrittenReference(reference, renames), [], after)
  {
    RewrittenIsNotLocal(reference, renames);
    if Local(reference).Some? {
      ComponentName(Final(renames, Local(reference).value));
    }
  }

  lemma ComponentName(name: string)
    ensures NameAfter(COMPONENTS_PREFIX, COMPONENTS_PREFIX + name) == Some(name)
  {
    assert (COMPONENTS_PREFIX + name)[|COMPONENTS_PREFIX|..] == name;
  }

  /** Repointing a schema of a block leaves every reference leading to a component. */
  lemma {:induction false} RepointingResolves(spot: Spot, node: Json, scope: Members, renames: Renames,
                                             before: Components, after: Components)
    requires Resolves(spot, node, scope, before) && scope != []
    requires AllNamed(scope, renames, after) && before.Keys <= after.Keys
    ensures Resolves(spot, Rewrite(spot.place, node, renames), [], after)
    decreases node
  {
    hide ChildSpot, Leads, AllNamed;
    if spot.role == Data {
      RewriteIsIdempotent(spot.place, node, renames);
    } else {
      match node
      case Arr(items) =>
        forall i | 0 <= i < |items| ensures Resolves(ItemSpot(spot), RewriteItems(items, renames)[i], [], after) {
          RewriteItemsAt(items, renames, i);
          RepointingResolves(ItemSpot(spot), items[i], scope, renames, before, after);
        }
      case Obj(members) =>
        hide Resolves;
        RepointingMembersResolves(spot, members, scope, renames, before, after);
      case _ =>
    }
  }

  /** The reference of a member leads somewhere, or its value resolves. */
  ghost predicate MemberResolves(spot: Spot, m: Member, scope: Members, components: Components) {
    if IsReference(spot.place, m.key, m.value) then Leads(m.value.s, scope, components)
    else Resolves(ChildSpot(spot, m.key), m.value, scope, components)
  }

  lemma MembersResolve(spot: Spot, members: Members, scope: Members, components: Components)
    requires spot.role != Data && DEFS_KEY !in Keys(members)
    ensures Resolves(spot, Obj(members), scope, components)
      <==> forall i | 0 <= i < |members| :: MemberResolves(spot, members[i], scope, components)
  {
    hide ChildSpot, Leads;
    forall i | 0 <= i < |members|
      ensures MemberResolves(spot, members[i], scope, components) <==>
        if IsReference(spot.place, members[i].key, members[i].value) then Leads(members[i].value.s, scope, components)
        else Resolves(ChildSpot(spot, members[i].key), members[i].value, scope, components)
    {}
  }

  lemma {:induction false} RepointingMembersResolves(spot: Spot, members: Members, scope: Members, renames: Renames,
                                                    before: Components, after: Components)
    requires Resolves(spot, Obj(members), scope, before) && scope != [] && spot.role != Data
    requires AllNamed(scope, renames, after) && before.Keys <= after.Keys
    ensures Resolves(spot, Obj(RewriteMembers(spot.place, members, renames)), [], after)
    decreases members
  {
    assert DEFS_KEY !in Keys(members);
    hide ChildSpot, Leads, AllNamed, Resolves, MemberResolves;
    MembersResolve(spot, members, scope, before);
    RewriteKeepsKeys(spot.place, members, renames);
    var r := RewriteMembers(spot.place, members, renames);
    forall i | 0 <= i < |r| ensures MemberResolves(spot, r[i], [], after) {
      RewriteMembersAt(spot.place, members, renames, i);
      RepointingMemberResolves(spot, members[i], scope, renames, before, after);
    }
    MembersResolve(spot, r, [], after);
  }

  lemma {:induction false} RepointingMemberResolves(spot: Spot, m: Member, scope: Members, renames: Renames,
                                                   before: Components, after: Components)
    requires MemberResolves(spot, m, scope, before) && scope != []
    requires AllNamed(scope, renames, after) && before.Keys <= after.Keys
    ensures MemberResolves(spot, RewriteMember(spot.place, m, renames), [], after)
    decreases m
  {
    hide Leads, AllNamed, Resolves, RewrittenReference, ChildRole;
    if IsReference(spot.place, m.key, m.value) {
      RepointedLeads(m.value.s, scope, renames, before, after);
    } else {
      RepointingResolves(ChildSpot(spot, m.key), m.value, scope, renames, before, after);
    }
  }

  // ---------------------------------------------------------------- nothing to hoist

  lemma {:induction false} WithoutAbsent(members: Members, key: string)
    requires key !in Keys(members)
    ensures Without(members, key) == members
  {
    if |members| > 0 {
      Unfold(members);
      WithoutAbsent(members[1..], key);
    }
  }

  lemma {:induction false} WithoutKeeps(members: Members, key: string, i: nat)
    requires i < |members| && members[i].key != key
    ensures members[i] in Without(members, key)
  {
    if i > 0 { WithoutKeeps(members[1..], key, i - 1); }
  }

  lemma {:induction false} HoistWithoutDefs(node: Json, components: Components)
    requires NoDefs(node)
    ensures Hoist(node, components) == Hoisted(node, components)
    decreases Size(node), 0, 0
  {
    match node
    case Arr(items) =>
      HoistItemsWithoutDefs(items, |items|, components);
      assert items[..|items|] == items;
    case Obj(members) =>
      WithoutAbsent(members, DEFS_KEY);
      HoistMembersWithoutDefs(members, |members|, components);
      assert members[..|members|] == members;
    case _ =>
  }

  lemma {:induction false} HoistItemsWithoutDefs(items: seq<Json>, n: nat, components: Components)
    requires n <= |items| && forall i | 0 <= i < |items| :: NoDefs(items[i])
    ensures HoistItems(items, n, components) == Hoisted(items[..n], components)
    decreases ItemsSize(items), 1, n
  {
    hide Hoist;
    if n > 0 {
      HoistItemsWithoutDefs(items, n - 1, components);
      ItemIsSmaller(items, n - 1);
      HoistWithoutDefs(items[n - 1], components);
      assert items[..n] == items[..n - 1] + [items[n - 1]];
    }
  }

  lemma {:induction false} HoistMembersWithoutDefs(members: Members, n: nat, components: Components)
    requires n <= |members| && forall i | 0 <= i < |members| :: NoDefs(members[i].value)
    ensures HoistMembers(members, n, components) == Hoisted(members[..n], components)
    decreases MembersSize(members), 1, n
  {
    hide Hoist;
    if n > 0 {
      HoistMembersWithoutDefs(members, n - 1, components);
      MemberIsSmaller(members, n - 1);
      HoistWithoutDefs(members[n - 1].value, components);
      assert members[..n] == members[..n - 1] + [members[n - 1]];
    }
  }


  ghost function RepointedBlock(block: Members, renames: Renames): (r: Members)
    ensures |r| == |block|
  {
    seq(|block|, i requires 0 <= i < |block| => Member(block[i].key, Rewrite(Plain, block[i].value, renames)))
  }

  /** Definitions without blocks of their own are only repointed. */
  lemma {:induction false} PrepareUnnested(block: Members, n: nat, renames: Renames, components: Components)
    requires n <= |block| && forall i | 0 <= i < |block| :: NoDefs(block[i].value)
    ensures Prepare(block, n, renames, components) == Hoisted(RepointedBlock(block, renames)[..n], components)
    decreases MembersSize(block), 1, n
  {
    hide Hoist, Rewrite, NoDefs;
    if n > 0 {
      PrepareUnnested(block, n - 1, renames, components);
      MemberIsSmaller(block, n - 1);
      HoistWithoutDefs(block[n - 1].value, components);
      var r := RepointedBlock(block, renames);
      assert r[..n] == r[..n - 1] + [r[n - 1]];
    }
  }

  lemma BlockIsPrepared(members: Members, document: Components, components: Components)
    requires HasBlock(members) && Unnested(SCHEMA, Obj(members), document)
    ensures var block := Block(members);
      BlockPrepared(block, components) == Hoisted(RepointedBlock(block, Identity(block)), components)
  {
    hide Resolves, Rewrite, Prepare, Block, HasBlock, Identity, NoDefs;
    var block := Block(members);
    forall i | 0 <= i < |block|
      ensures NoDefs(block[i].value)
    {
      ResolvesHasNoDefs(SCHEMA, block[i].value, block, document);
    }
    PrepareUnnested(block, |block|, Identity(block), components);
    var r := RepointedBlock(block, Identity(block));
    assert r[..|block|] == r;
  }

  /** A node with a block becomes what stood beside the block, repointed; nothing more is registered. */
  lemma BlockIsHoisted(members: Members, document: Components, components: Components)
    requires HasBlock(members) && Unnested(SCHEMA, Obj(members), document)
    ensures var registered := Register(Block(members), components);
      Hoist(Obj(members), components)
      == Hoisted(Obj(RewriteMembers(Plain, Without(members, DEFS_KEY), registered.value)), registered.components)
  {
    hide Register, HasBlock;
    var rest := Without(members, DEFS_KEY);
    var registered := Register(Block(members), components);
    ResolvesHasNoDefs(SCHEMA, Obj(rest), Block(members), document);
    RewriteKeepsNoDefs(Plain, Obj(rest), registered.value);
    var repointed := RewriteMembers(Plain, rest, registered.value);
    HoistMembersWithoutDefs(repointed, |repointed|, registered.components);
    assert repointed[..|repointed|] == repointed;
  }

  // ---------------------------------------------------------------- closure

  lemma BlockIsNotEmpty(members: Members)
    requires HasBlock(members)
    ensures Block(members) != []
  {}

  /** After registration every definition's own name and its final name are components. */
  lemma BlockIsNamed(block: Members, components: Components)
    requires Sound(Obj(block)) && NoNulls(block) && AllNoDefs(components)
    ensures var r := Register(block, components);
      AllNamed(block, r.value, r.components) && AllNamed(block, Identity(block), r.components)
  {
    hide Register, RegisterPrepared, AllNoDefs, Sound, DeepEqual, NoLocal, NameIsFree, FinalName;
    var r := Register(block, components);
    forall k | k in Keys(block)
      ensures Final(r.value, k) in r.components && Final(Identity(block), k) in r.components
    {
      var i :| 0 <= i < |block| && block[i].key == k;
      SiblingReferenceIsRightExactlyWhenNotRenamed(block, components, i);
      IdentityIsIdentity(block, k);
    }
  }

  lemma {:induction false} RegisteringCloses(r: Registration, prepared: Members, n: nat, all: Components)
    requires n <= |prepared| && ClosedIn(r.components, all)
    requires forall i | 0 <= i < |prepared| :: prepared[i].value != Null && Resolves(SCHEMA, prepared[i].value, [], all)
    ensures ClosedIn(RegisterPrepared(r, prepared, n).components, all)
  {
    hide FinalName, Resolves;
    if n > 0 { RegisteringCloses(r, prepared, n - 1, all); }
  }

  lemma PreparedResolve(members: Members, document: Components, after: Components)
    requires HasBlock(members) && Unnested(SCHEMA, Obj(members), document) && NoNulls(Block(members))
    requires AllNamed(Block(members), Identity(Block(members)), after) && document.Keys <= after.Keys
    ensures var block := Block(members);
      var r := RepointedBlock(block, Identity(block));
      forall i | 0 <= i < |r| :: r[i].value != Null && Resolves(SCHEMA, r[i].value, [], after)
  {
    hide Resolves, Rewrite, Block, HasBlock, AllNamed, Identity;
    var block := Block(members);
    BlockIsNotEmpty(members);
    forall i | 0 <= i < |block|
      ensures Rewrite(Plain, block[i].value, Identity(block)) != Null
      ensures Resolves(SCHEMA, Rewrite(Plain, block[i].value, Identity(block)), [], after)
    {
      RewriteNull(Plain, block[i].value, Identity(block));
      RepointingResolves(SCHEMA, block[i].value, block, Identity(block), document, after);
    }
  }

  lemma AllNamedAmongMore(scope: Members, renames: Renames, before: Components, after: Components)
    requires AllNamed(scope, renames, before) && before.Keys <= after.Keys
    ensures AllNamed(scope, renames, after)
  {
    hide Final;
    forall k | k in Keys(scope) ensures Final(renames, k) in after { assert Final(renames, k) in before.Keys; }
  }

  /** What the closure theorem says of one node, with `after` the components at the end. */
  ghost predicate HoistsClosed(spot: Spot, node: Json, components: Components, after: Components) {
    var h := Hoist(node, components);
    Resolves(spot, h.value, [], after) && ClosedIn(h.components, after)
  }

  /** What the traversal knows: the document's own components and those so far are among the final ones. */
  ghost predicate Within(document: Components, components: Components, after: Components) {
    AllNoDefs(components) && document.Keys <= after.Keys && ClosedIn(components, after)
  }

  lemma BlockHoistsClosed(members: Members, document: Components, components: Components, after: Components)
    requires HasBlock(members) && Unnested(SCHEMA, Obj(members), document) && Sound(Obj(members))
    requires Within(document, components, after) && Hoist(Obj(members), components).components.Keys <= after.Keys
    ensures HoistsClosed(SCHEMA, Obj(members), components, after)
  {
    var block, rest := Block(members), Without(members, DEFS_KEY);
    assert Resolves(SCHEMA, Obj(rest), block, document);
    hide Register, Hoist, Sound, AllNoDefs, ClosedIn, Resolves, Unnested, RegisterPrepared, Block, HasBlock, Rewrite,
      RewriteMembers, AllNamed, Identity;
    SoundBlock(members);
    BlockIsNotEmpty(members);
    BlockIsHoisted(members, document, components);
    BlockIsPrepared(members, document, components);
    BlockIsNamed(block, components);
    var r := Register(block, components);
    AllNamedAmongMore(block, r.value, r.components, after);
    AllNamedAmongMore(block, Identity(block), r.components, after);
    PreparedResolve(members, document, after);
    RegisterPublishes(false, block, components);
    var p := RepointedBlock(block, Identity(block));
    RegisteringCloses(Registration(components, Identity(block)), p, |p|, after);
    RepointingMembersResolves(SCHEMA, rest, block, r.value, document, after);
  }

  lemma {:induction false} NodeHoistsClosed(spot: Spot, node: Json, document: Components, components: Components,
                                           after: Components)
    requires Unnested(spot, node, document) && Sound(node)
    requires Within(document, components, after) && Hoist(node, components).components.Keys <= after.Keys
    ensures HoistsClosed(spot, node, components, after)
    decreases Size(node), 0
  {
    hide AllNoDefs, ClosedIn;
    if spot.role == Data {
      HoistWithoutDefs(node, components);
    } else {
      match node
      case Arr(items) =>
        hide Hoist;
        ItemsHoistClosed(spot, items, |items|, document, components, after);
        ArrayIsHoisted(items, components);
      case Obj(members) =>
        if HasBlock(members) { BlockHoistsClosed(members, document, components, after); }
        else {
          hide Hoist, Resolves, Sound;
          OpenHoistsClosed(spot, members, document, components, after);
        }
      case _ =>
    }
  }

  lemma ArrayIsHoisted(items: seq<Json>, components: Components)
    ensures var r := HoistItems(items, |items|, components);
      Hoist(Arr(items), components) == Hoisted(Arr(r.value), r.components)
  {}

  lemma {:induction false} ItemsHoistClosed(spot: Spot, items: seq<Json>, n: nat, document: Components,
                                           components: Components, after: Components)
    requires n <= |items| && Sound(Arr(items))
      && forall i | 0 <= i < |items| :: Unnested(ItemSpot(spot), items[i], document)
    requires Within(document, components, after) && HoistItems(items, n, components).components.Keys <= after.Keys
    ensures var r := HoistItems(items, n, components);
      && |r.value| == n && ClosedIn(r.components, after)
      && forall i | 0 <= i < n :: Resolves(ItemSpot(spot), r.value[i], [], after)
    decreases ItemsSize(items), 1, n
  {
    hide AllNoDefs, ClosedIn, Hoist, Resolves, Unnested, Extends;
    if n > 0 {
      var front := HoistItems(items, n - 1, components);
      HoistItemsIsConservative(false, items, n - 1, components);
      ItemIsSmaller(items, n - 1);
      HoistIsConservative(false, items[n - 1], front.components);
      ExtendsKeys(front.components, HoistItems(items, n, components).components);
      ItemsHoistClosed(spot, items, n - 1, document, components, after);
      NodeHoistsClosed(ItemSpot(spot), items[n - 1], document, front.components, after);
    }
  }

  lemma ExtendsKeys(before: Components, after: Components)
    requires Extends(false, before, after)
    ensures before.Keys <= after.Keys
  {
    hide DeepEqual;
  }

  lemma {:induction false} MembersHoistClosed(spot: Spot, members: Members, n: nat, document: Components,
                                             components: Components, after: Components)
    requires n <= |members| && Sound(Obj(members))
      && forall i | 0 <= i < |members| :: UnnestedMember(spot, members[i], document)
    requires Within(document, components, after) && HoistMembers(members, n, components).components.Keys <= after.Keys
    ensures var r := HoistMembers(members, n, components);
      && |r.value| == n && ClosedIn(r.components, after)
      && forall i | 0 <= i < n :: r.value[i].key == members[i].key && MemberResolves(spot, r.value[i], [], after)
    decreases MembersSize(members), 1, n
  {
    hide AllNoDefs, ClosedIn, Hoist, MemberResolves, UnnestedMember, Extends;
    if n > 0 {
      var front := HoistMembers(members, n - 1, components);
      HoistMembersKeepsShape(false, members, n - 1, components);
      MemberIsSmaller(members, n - 1);
      HoistIsConservative(false, members[n - 1].value, front.components);
      ExtendsKeys(front.components, HoistMembers(members, n, components).components);
      MembersHoistClosed(spot, members, n - 1, document, components, after);
      MemberHoistsClosed(spot, members[n - 1], document, front.components, after);
    }
  }

  lemma {:induction false} MemberHoistsClosed(spot: Spot, m: Member, document: Components, components: Components,
                                             after: Components)
    requires UnnestedMember(spot, m, document) && Sound(m.value)
    requires Within(document, components, after) && Hoist(m.value, components).components.Keys <= after.Keys
    ensures var h := Hoist(m.value, components);
      MemberResolves(spot, Member(m.key, h.value), [], after) && ClosedIn(h.components, after)
    decreases Size(m.value), 1
  {
    hide AllNoDefs, ClosedIn, Resolves;
    if IsReference(spot.place, m.key, m.value) {
      LeadsAmongMore(m.value.s, document, after);
    } else {
      StringStaysString(m.value, components);
      hide Hoist;
      NodeHoistsClosed(ChildSpot(spot, m.key), m.value, document, components, after);
    }
  }

  lemma StringStaysString(node: Json, components: Components)
    ensures Hoist(node, components).value.Str? <==> node.Str?
  {}

  lemma LeadsAmongMore(reference: string, before: Components, after: Components)
    requires Leads(reference, [], before) && before.Keys <= after.Keys
    ensures Leads(reference, [], after)
  {}

  lemma {:induction false} OpenHoistsClosed(spot: Spot, members: Members, document: Components, components: Components,
                                           after: Components)
    requires !HasBlock(members) && Unnested(spot, Obj(members), document) && Sound(Obj(members)) && spot.role != Data
    requires Within(document, components, after) && Hoist(Obj(members), components).components.Keys <= after.Keys
    ensures HoistsClosed(spot, Obj(members), components, after)
    decreases MembersSize(members), 2
  {
    hide AllNoDefs, ClosedIn, HasBlock, Sound, Resolves, UnnestedMember;
    var rest := Without(members, DEFS_KEY);
    WithoutIsSmaller(members, DEFS_KEY);
    SoundWithout(members);
    RestIsUnnested(spot, members, document);
    OpenIsHoisted(members, components);
    hide Hoist, Unnested;
    MembersHoistClosed(spot, rest, |rest|, document, components, after);
    var r := HoistMembers(rest, |rest|, components);
    SameKeys(rest, r.value);
    MembersResolve(spot, r.value, [], after);
  }

  lemma OpenIsHoisted(members: Members, components: Components)
    requires !HasBlock(members)
    ensures var rest := Without(members, DEFS_KEY);
      var r := HoistMembers(rest, |rest|, components);
      Hoist(Obj(members), components) == Hoisted(Obj(r.value), r.components)
  {
    hide HasBlock;
  }

  lemma RestIsUnnested(spot: Spot, members: Members, document: Components)
    requires !HasBlock(members) && Unnested(spot, Obj(members), document) && spot.role != Data
    ensures var rest := Without(members, DEFS_KEY);
      forall i | 0 <= i < |rest| :: UnnestedMember(spot, rest[i], document)
  {
    hide HasBlock, UnnestedMember;
    var rest := Without(members, DEFS_KEY);
    forall i | 0 <= i < |rest| ensures UnnestedMember(spot, rest[i], document) { assert rest[i] in members; }
  }

  lemma ClosedHasNoDefs(components: Components)
    requires Closed(components)
    ensures AllNoDefs(components)
  {
    hide Resolves, NoDefs;
    forall k | k in components
      ensures NoDefs(components[k])
    {
      ResolvesHasNoDefs(SCHEMA, components[k], [], components);
    }
  }

  lemma ClosedAmongMore(before: Components, after: Components)
    requires Closed(before) && before.Keys <= after.Keys
    ensures ClosedIn(before, after)
  {
    hide Resolves;
    forall k | k in before ensures Resolves(SCHEMA, before[k], [], after) {
      ResolvesAmongMore(SCHEMA, before[k], [], before, after);
    }
  }

  /**
    Whatever is renamed or conflated, every component reference of the hoisted document and of every
    component names a component that exists.
    */
  lemma HoistingIsClosed(document: Json, components: Components)
    requires Sound(document) && Closed(components) && Unnested(SCHEMA, document, components)
    ensures var h := Hoist(document, components);
      Resolves(SCHEMA, h.value, [], h.components) && Closed(h.components)
  {
    hide Hoist, Sound, Unnested, Resolves, AllNoDefs, Extends;
    var after := Hoist(document, components).components;
    ClosedHasNoDefs(components);
    HoistIsConservative(false, document, components);
    ExtendsKeys(components, after);
    ClosedAmongMore(components, after);
    NodeHoistsClosed(SCHEMA, document, components, components, after);
  }
}
