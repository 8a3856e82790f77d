/**
  When hoisting renames nothing and conflates nothing, as a condition on the document: the definitions of
  one name agree with each other and with the component of that name.
  */
module OpenApiAgreement {
  import opened JsonValues
  import opened OpenApiHoist
  import opened OpenApiTheorems
  import opened OpenApiReferences
  import opened OpenApiMeaning

  // ---------------------------------------------------------------- documents whose definitions agree

  /** Blocks do not nest. */
  ghost predicate Shallow(node: Json)
    decreases node
  {
    match node
    case Arr(items) => forall i | 0 <= i < |items| :: Shallow(items[i])
    case Obj(members) =>
      if HasBlock(members) then
        NoDefs(Obj(Without(members, DEFS_KEY)))
          && forall i | 0 <= i < |Block(members)| :: NoDefs(Block(members)[i].value)
      else forall i | 0 <= i < |members| :: members[i].key == DEFS_KEY || Shallow(members[i].value)
    case _ => true
  }

  /** Every component that bears a definition's name equals that definition. */
  ghost predicate Agrees(exact: bool, components: Components, names: Components) {
    forall k | k in components && k in names :: DeepEqual(exact, names[k], components[k])
  }

  /** The definition is that of its name, once its references are repointed. */
  ghost predicate Defined(exact: bool, m: Member, names: Components) {
    m.key in names && DeepEqual(exact, names[m.key], Rewrite(Plain, m.value, map[]))
  }

  ghost predicate AllDefined(exact: bool, node: Json, names: Components)
    decreases node
  {
    match node
    case Arr(items) => forall i | 0 <= i < |items| :: AllDefined(exact, items[i], names)
    case Obj(members) =>
      if HasBlock(members) then forall i | 0 <= i < |Block(members)| :: Defined(exact, Block(members)[i], names)
      else forall i | 0 <= i < |members| :: members[i].key == DEFS_KEY || AllDefined(exact, members[i].value, names)
    case _ => true
  }

  /** Every definition of every block is a component. */
  ghost predicate Present(node: Json, components: Components)
    decreases node
  {
    match node
    case Arr(items) => forall i | 0 <= i < |items| :: Present(items[i], components)
    case Obj(members) =>
      if HasBlock(members) then Keys(Block(members)) <= components.Keys
      else forall i | 0 <= i < |members| :: members[i].key == DEFS_KEY || Present(members[i].value, components)
    case _ => true
  }

  /** The document without its blocks, what stood beside a block repointed. */
  ghost function Flat(node: Json): Json
    decreases Size(node), 0
  {
    match node
    case Arr(items) =>
      Arr(seq(|items|, i requires 0 <= i < |items| => ItemIsSmaller(items, i); Flat(items[i])))
    case Obj(members) =>
      var rest := Without(members, DEFS_KEY);
      WithoutIsSmaller(members, DEFS_KEY);
      Obj(if HasBlock(members) then RewriteMembers(Plain, rest, map[]) else FlatMembers(rest))
    case _ => node
  }

  ghost function FlatMembers(members: Members): Members
    decreases MembersSize(members), 1
  {
    seq(|members|, i requires 0 <= i < |members| =>
      MemberIsSmaller(members, i); Member(members[i].key, Flat(members[i].value)))
  }

  ghost predicate Same(renames: Renames) { forall k | k in renames :: renames[k] == k }

  /** No block the traversal meets renames a definition. */
  ghost predicate NothingRenamed(node: Json, components: Components)
    decreases Size(node), 0, 0
  {
    match node
    case Arr(items) => NothingRenamedInItems(items, |items|, components)
    case Obj(members) =>
      var rest := Without(members, DEFS_KEY);
      WithoutIsSmaller(members, DEFS_KEY);
      if HasBlock(members) then Same(Register(Block(members), components).value)
      else NothingRenamedInMembers(rest, |rest|, components)
    case _ => true
  }

  ghost predicate NothingRenamedInItems(items: seq<Json>, n: nat, components: Components)
    requires n <= |items|
    decreases ItemsSize(items), 1, n
  {
    n == 0 || (
      ItemIsSmaller(items, n - 1);
      && NothingRenamedInItems(items, n - 1, components)
      && NothingRenamed(items[n - 1], HoistItems(items, n - 1, components).components))
  }

  ghost predicate NothingRenamedInMembers(members: Members, n: nat, components: Components)
    requires n <= |members|
    decreases MembersSize(members), 1, n
  {
    n == 0 || (
      MemberIsSmaller(members, n - 1);
      && NothingRenamedInMembers(members, n - 1, components)
      && NothingRenamed(members[n - 1].value, HoistMembers(members, n - 1, components).components))
  }

  lemma {:induction false} UnnestedIsShallow(spot: Spot, node: Json, document: Components)
    requires Unnested(spot, node, document)
    ensures Shallow(node)
    decreases node
  {
    hide ChildSpot, Leads, Resolves;
    if spot.role == Data {
      WithoutDefsIsShallow(node);
    } else {
      match node
      case Arr(items) =>
        forall i | 0 <= i < |items| ensures Shallow(items[i]) { UnnestedIsShallow(ItemSpot(spot), items[i], document); }
      case Obj(members) =>
        if HasBlock(members) {
          ResolvesHasNoDefs(SCHEMA, Obj(Without(members, DEFS_KEY)), Block(members), document);
          forall i | 0 <= i < |Block(members)| ensures NoDefs(Block(members)[i].value) {
            ResolvesHasNoDefs(SCHEMA, Block(members)[i].value, Block(members), document);
          }
        } else {
          hide HasBlock;
          forall i | 0 <= i < |members| && members[i].key != DEFS_KEY ensures Shallow(members[i].value) {
            assert UnnestedMember(spot, members[i], document);
            if !IsReference(spot.place, members[i].key, members[i].value) {
              UnnestedIsShallow(ChildSpot(spot, members[i].key), members[i].value, document);
            }
          }
        }
      case _ =>
    }
  }

  lemma {:induction false} WithoutDefsIsShallow(node: Json)
    requires NoDefs(node)
    ensures Shallow(node)
    decreases node
  {
    match node
    case Arr(items) => forall i | 0 <= i < |items| ensures Shallow(items[i]) { WithoutDefsIsShallow(items[i]); }
    case Obj(members) =>
      forall i | 0 <= i < |members| ensures Shallow(members[i].value) { WithoutDefsIsShallow(members[i].value); }
    case _ =>
  }

  // ---------------------------------------------------------------- agreeing definitions

  lemma {:induction false} JsonEqualIsPythonEqual(a: Json, b: Json)
    requires JsonEqual(a, b)
    ensures PythonEqual(a, b)
    decreases a
  {
    match a
    case Obj(m) =>
      forall k | k in Keys(m) ensures PythonEqual(Lookup(m, k), Lookup(b.members, k)) {
        JsonEqualIsPythonEqual(Lookup(m, k), Lookup(b.members, k));
      }
    case Arr(items) =>
      forall i | 0 <= i < |items|
        ensures PythonEqual(items[i], b.items[i])
      {
        JsonEqualIsPythonEqual(items[i], b.items[i]);
      }
    case _ =>
  }

  lemma EqualIsPythonEqual(exact: bool, a: Json, b: Json)
    requires DeepEqual(exact, a, b)
    ensures PythonEqual(a, b)
  {
    if exact { JsonEqualIsPythonEqual(a, b); }
  }

  /** A definition that agrees with every component of its name is registered under it, and conflates nothing. */
  lemma AgreeingDefinitionKeepsItsName(exact: bool, r: Registration, m: Member, names: Components)
    requires Agrees(exact, r.components, names) && m.key in names && DeepEqual(exact, names[m.key], m.value)
    ensures var after := RegisterOne(r, m.key, m.value);
      && after == Registration(r.components[m.key := m.value], r.renames) && Agrees(exact, after.components, names)
    ensures exact ==> !Conflates(r.components, m.key, m.value)
  {
    hide DeepEqual;
    if m.key in r.components {
      EqualSymmetric(exact, names[m.key], r.components[m.key]);
      EqualTransitive(exact, r.components[m.key], names[m.key], m.value);
      EqualIsPythonEqual(exact, r.components[m.key], m.value);
    }
  }

  lemma {:induction false} AgreeingBlockKeepsItsNames(exact: bool, r: Registration, prepared: Members, n: nat,
                                                      names: Components)
    requires n <= |prepared| && Agrees(exact, r.components, names)
    requires forall i | 0 <= i < |prepared| ::
      prepared[i].key in names && DeepEqual(exact, names[prepared[i].key], prepared[i].value)
    ensures var after := RegisterPrepared(r, prepared, n);
      && after.renames == r.renames && Agrees(exact, after.components, names)
        && r.components.Keys <= after.components.Keys
      && forall i | 0 <= i < n :: prepared[i].key in after.components
    ensures exact ==> ExactPrepared(r, prepared, n)
  {
    hide DeepEqual, Agrees, Conflates, RegisterOne;
    if n > 0 {
      AgreeingBlockKeepsItsNames(exact, r, prepared, n - 1, names);
      AgreeingDefinitionKeepsItsName(exact, RegisterPrepared(r, prepared, n - 1), prepared[n - 1], names);
    }
  }

  lemma IdentityRewritesAsNothing(block: Members, node: Json)
    ensures Rewrite(Plain, node, Identity(block)) == Rewrite(Plain, node, map[])
  {
    hide Rewrite, KeepsNames;
    IdentityKeepsNames(block, node);
    UnchangedNamesAreKept(Plain, node, map[]);
    SameNamesSameRewrite(Plain, node, Identity(block), map[]);
  }

  lemma SameRewrites(place: Place, node: Json, renames: Renames)
    requires Same(renames)
    ensures Rewrite(place, node, renames) == Rewrite(place, node, map[])
  {
    hide Rewrite, KeepsNames;
    UnchangedNamesAreKept(place, node, renames);
    UnchangedNamesAreKept(place, node, map[]);
    SameNamesSameRewrite(place, node, renames, map[]);
  }

  lemma IdentityIsSame(definitions: Members)
    ensures Same(Identity(definitions))
  {}

  lemma ShallowBlockIsPrepared(members: Members, components: Components)
    requires HasBlock(members) && Shallow(Obj(members))
    ensures var block := Block(members);
      BlockPrepared(block, components) == Hoisted(RepointedBlock(block, Identity(block)), components)
  {
    hide Rewrite, Prepare, HasBlock, Identity, NoDefs;
    var block := Block(members);
    PrepareUnnested(block, |block|, Identity(block), components);
    var r := RepointedBlock(block, Identity(block));
    assert r[..|block|] == r;
  }

  // ---------------------------------------------------------------- values without blocks conflate nothing

  lemma {:induction false} WithoutDefsIsExact(node: Json, components: Components)
    requires NoDefs(node)
    ensures ExactHoist(node, components)
    decreases Size(node), 0, 0
  {
    match node
    case Arr(items) => ItemsWithoutDefsAreExact(items, |items|, components);
    case Obj(members) =>
      WithoutAbsent(members, DEFS_KEY);
      MembersWithoutDefsAreExact(members, |members|, components);
    case _ =>
  }

  lemma {:induction false} ItemsWithoutDefsAreExact(items: seq<Json>, n: nat, components: Components)
    requires n <= |items| && forall i | 0 <= i < |items| :: NoDefs(items[i])
    ensures ExactItems(items, n, components)
    decreases ItemsSize(items), 1, n
  {
    hide ExactHoist, NoDefs;
    if n > 0 {
      ItemIsSmaller(items, n - 1);
      ItemsWithoutDefsAreExact(items, n - 1, components);
      WithoutDefsIsExact(items[n - 1], HoistItems(items, n - 1, components).components);
    }
  }

  lemma {:induction false} MembersWithoutDefsAreExact(members: Members, n: nat, components: Components)
    requires n <= |members| && forall i | 0 <= i < |members| :: NoDefs(members[i].value)
    ensures ExactMembers(members, n, components)
    decreases MembersSize(members), 1, n
  {
    hide ExactHoist, NoDefs;
    if n > 0 {
      MemberIsSmaller(members, n - 1);
      MembersWithoutDefsAreExact(members, n - 1, components);
      WithoutDefsIsExact(members[n - 1].value, HoistMembers(members, n - 1, components).components);
    }
  }

  lemma {:induction false} ShallowPrepareIsExact(block: Members, n: nat, renames: Renames, components: Components)
    requires n <= |block| && forall i | 0 <= i < |block| :: NoDefs(block[i].value)
    ensures ExactPrepare(block, n, renames, components)
    decreases MembersSize(block), 1, n
  {
    hide ExactHoist, NoDefs;
    if n > 0 {
      MemberIsSmaller(block, n - 1);
      ShallowPrepareIsExact(block, n - 1, renames, components);
      WithoutDefsIsExact(block[n - 1].value, Prepare(block, n - 1, renames, components).components);
    }
  }

  // ---------------------------------------------------------------- agreement is enough

  lemma RegisterAgreeing(exact: bool, members: Members, names: Components, components: Components)
    requires HasBlock(members) && Shallow(Obj(members)) && AllDefined(exact, Obj(members), names)
    requires Agrees(exact, components, names)
    ensures var r := Register(Block(members), components);
      && Same(r.value) && Agrees(exact, r.components, names)
      && Keys(Block(members)) <= r.components.Keys && components.Keys <= r.components.Keys
    ensures exact ==> ExactRegister(Block(members), components)
  {
    var block := Block(members);
    assert forall i | 0 <= i < |block| :: Defined(exact, block[i], names) && NoDefs(block[i].value);
    ShallowBlockIsPrepared(members, components);
    hide Agrees, Rewrite, DeepEqual, RegisterPrepared, Block, HasBlock, NoDefs, ExactPrepared, BlockPrepared,
      Identity, Shallow, AllDefined, ExactPrepare;
    var prepared := RepointedBlock(block, Identity(block));
    forall i | 0 <= i < |prepared|
      ensures prepared[i].key in names && DeepEqual(exact, names[prepared[i].key], prepared[i].value)
    {
      assert Defined(exact, block[i], names);
      IdentityRewritesAsNothing(block, block[i].value);
    }
    var start := Registration(components, Identity(block));
    AgreeingBlockKeepsItsNames(exact, start, prepared, |prepared|, names);
    ShallowPrepareIsExact(block, |block|, Identity(block), components);
    IdentityIsSame(block);
    RegisterIs(block, components);
    SameKeys(block, prepared);
  }

  lemma {:induction false} PresentStays(node: Json, before: Components, after: Components)
    requires Present(node, before) && before.Keys <= after.Keys
    ensures Present(node, after)
    decreases node
  {
    match node
    case Arr(items) =>
      forall i | 0 <= i < |items| ensures Present(items[i], after) { PresentStays(items[i], before, after); }
    case Obj(members) =>
      if !HasBlock(members) {
        forall i | 0 <= i < |members| && members[i].key != DEFS_KEY ensures Present(members[i].value, after) {
          PresentStays(members[i].value, before, after);
        }
      }
    case _ =>
  }

  /** What hoisting a value does when its definitions agree. */
  ghost predicate Done(exact: bool, node: Json, names: Components, before: Components) {
    var h := Hoist(node, before);
    && h.value == Flat(node) && Agrees(exact, h.components, names) && before.Keys <= h.components.Keys
    && Present(node, h.components) && NothingRenamed(node, before) && (exact ==> ExactHoist(node, before))
  }

  /** What is assumed of a value: its blocks do not nest, and their definitions are those of `names`. */
  ghost predicate Agreeing(exact: bool, node: Json, names: Components) {
    Shallow(node) && AllDefined(exact, node, names)
  }

  /** The document becomes its flat form, and every definition a component of its own name. */
  lemma {:induction false} HoistIsFlat(exact: bool, node: Json, names: Components, components: Components)
    requires Agreeing(exact, node, names) && Agrees(exact, components, names)
    ensures Done(exact, node, names, components)
    decreases Size(node), 0
  {
    hide Agrees;
    match node
    case Arr(items) =>
      HoistItemsIsFlat(exact, items, |items|, names, components);
      assert HoistItems(items, |items|, components).value == Flat(node).items;
    case Obj(members) =>
      hide Done, Hoist;
      if HasBlock(members) { HoistBlockIsFlat(exact, members, names, components); }
      else { HoistOpenIsFlat(exact, members, names, components); }
    case _ =>
  }

  lemma HoistBlockIsFlat(exact: bool, members: Members, names: Components, components: Components)
    requires HasBlock(members) && Agreeing(exact, Obj(members), names) && Agrees(exact, components, names)
    ensures Done(exact, Obj(members), names, components)
  {
    hide Agrees, Register, HasBlock, AllDefined, ExactRegister;
    var rest := Without(members, DEFS_KEY);
    RegisterAgreeing(exact, members, names, components);
    var registered := Register(Block(members), components);
    SameRewrites(Plain, Obj(rest), registered.value);
    RewriteKeepsNoDefs(Plain, Obj(rest), map[]);
    var repointed := RewriteMembers(Plain, rest, map[]);
    HoistMembersWithoutDefs(repointed, |repointed|, registered.components);
    MembersWithoutDefsAreExact(repointed, |repointed|, registered.components);
    assert repointed[..|repointed|] == repointed;
  }

  lemma {:induction false} HoistItemsIsFlat(exact: bool, items: seq<Json>, n: nat, names: Components,
                                            components: Components)
    requires n <= |items| && Agrees(exact, components, names)
      && forall i | 0 <= i < |items| :: Agreeing(exact, items[i], names)
    ensures var r := HoistItems(items, n, components);
      && |r.value| == n && Agrees(exact, r.components, names) && components.Keys <= r.components.Keys
      && (forall i | 0 <= i < n :: r.value[i] == Flat(items[i]) && Present(items[i], r.components))
    ensures NothingRenamedInItems(items, n, components) && (exact ==> ExactItems(items, n, components))
    decreases ItemsSize(items), 1, n
  {
    hide Agrees, Agreeing, Hoist, Flat, Present, NothingRenamed, ExactHoist;
    if n > 0 {
      HoistItemsIsFlat(exact, items, n - 1, names, components);
      var front := HoistItems(items, n - 1, components);
      ItemIsSmaller(items, n - 1);
      HoistIsFlat(exact, items[n - 1], names, front.components);
      forall i | 0 <= i < n - 1 ensures Present(items[i], HoistItems(items, n, components).components) {
        PresentStays(items[i], front.components, HoistItems(items, n, components).components);
      }
    }
  }

  lemma {:induction false} HoistMembersIsFlat(exact: bool, members: Members, n: nat, names: Components,
                                              components: Components)
    requires n <= |members| && Agrees(exact, components, names)
    requires forall i | 0 <= i < |members| :: Agreeing(exact, members[i].value, names)
    ensures var r := HoistMembers(members, n, components);
      && |r.value| == n && Agrees(exact, r.components, names) && components.Keys <= r.components.Keys
      && (forall i | 0 <= i < n ::
            r.value[i] == Member(members[i].key, Flat(members[i].value)) && Present(members[i].value, r.components))
    ensures NothingRenamedInMembers(members, n, components) && (exact ==> ExactMembers(members, n, components))
    decreases MembersSize(members), 1, n
  {
    hide Agrees, Agreeing, Hoist, Flat, Present, NothingRenamed, ExactHoist;
    if n > 0 {
      HoistMembersIsFlat(exact, members, n - 1, names, components);
      var front := HoistMembers(members, n - 1, components);
      MemberIsSmaller(members, n - 1);
      HoistIsFlat(exact, members[n - 1].value, names, front.components);
      forall i | 0 <= i < n - 1 ensures Present(members[i].value, HoistMembers(members, n, components).components) {
        PresentStays(members[i].value, front.components, HoistMembers(members, n, components).components);
      }
    }
  }

  lemma RestIsAgreeing(exact: bool, members: Members, names: Components)
    requires !HasBlock(members) && Agreeing(exact, Obj(members), names)
    ensures var rest := Without(members, DEFS_KEY); forall i | 0 <= i < |rest| :: Agreeing(exact, rest[i].value, names)
  {
    hide HasBlock;
    var rest := Without(members, DEFS_KEY);
    forall i | 0 <= i < |rest| ensures Agreeing(exact, rest[i].value, names) { assert rest[i] in members; }
  }

  lemma PresentFromRest(members: Members, components: Components)
    requires !HasBlock(members)
    requires var rest := Without(members, DEFS_KEY); forall i | 0 <= i < |rest| :: Present(rest[i].value, components)
    ensures Present(Obj(members), components)
  {
    hide HasBlock;
    var rest := Without(members, DEFS_KEY);
    forall i | 0 <= i < |members| && members[i].key != DEFS_KEY ensures Present(members[i].value, components) {
      WithoutKeeps(members, DEFS_KEY, i);
      var j :| 0 <= j < |rest| && rest[j] == members[i];
    }
  }

  lemma {:induction false} HoistOpenIsFlat(exact: bool, members: Members, names: Components, components: Components)
    requires !HasBlock(members) && Agreeing(exact, Obj(members), names) && Agrees(exact, components, names)
    ensures Done(exact, Obj(members), names, components)
    decreases MembersSize(members), 2
  {
    hide Agrees, HasBlock, Agreeing, Present;
    var rest := Without(members, DEFS_KEY);
    WithoutIsSmaller(members, DEFS_KEY);
    RestIsAgreeing(exact, members, names);
    HoistMembersIsFlat(exact, rest, |rest|, names, components);
    var r := HoistMembers(rest, |rest|, components);
    assert r.value == FlatMembers(rest);
    PresentFromRest(members, r.components);
  }

  // ---------------------------------------------------------------- and necessary

  lemma StaysEqual(exact: bool, before: Components, after: Components, k: string, definition: Json)
    requires Extends(exact, before, after) && k in before && DeepEqual(exact, before[k], definition)
      && definition != Null
    ensures k in after && DeepEqual(exact, after[k], definition)
  {
    hide DeepEqual;
    NullEqualsNull(exact, before[k], definition);
    EqualSymmetric(exact, before[k], after[k]);
    EqualTransitive(exact, after[k], before[k], definition);
  }

  /** What the traversal of a value keeps if it renames nothing and, for `exact`, conflates nothing. */
  ghost predicate Undisturbed(exact: bool, node: Json, components: Components, final: Components) {
    && AllNoDefs(components) && NothingRenamed(node, components) && (exact ==> ExactHoist(node, components))
    && Extends(exact, Hoist(node, components).components, final)
  }

  lemma BlockComponents(members: Members, components: Components)
    requires HasBlock(members) && Shallow(Obj(members))
    ensures Hoist(Obj(members), components).components == Register(Block(members), components).components
  {
    hide Register, HasBlock;
    var rest := Without(members, DEFS_KEY);
    var registered := Register(Block(members), components);
    RewriteKeepsNoDefs(Plain, Obj(rest), registered.value);
    var repointed := RewriteMembers(Plain, rest, registered.value);
    HoistMembersWithoutDefs(repointed, |repointed|, registered.components);
  }

  lemma UndisturbedBlock(exact: bool, members: Members, components: Components, final: Components)
    requires HasBlock(members) && Undisturbed(exact, Obj(members), components, final)
    ensures var r := Register(Block(members), components);
      && AllNoDefs(components) && Same(r.value) && (exact ==> ExactRegister(Block(members), components))
      && Extends(exact, Hoist(Obj(members), components).components, final)
  {
    hide AllNoDefs, ExactRegister, Register, Extends, Hoist, HasBlock, Block;
  }

  lemma UndisturbedBlockIsDefined(exact: bool, members: Members, components: Components, final: Components)
    requires HasBlock(members) && Shallow(Obj(members)) && Sound(Obj(members))
    requires Undisturbed(exact, Obj(members), components, final)
    ensures AllDefined(exact, Obj(members), final)
  {
    var block := Block(members);
    UndisturbedBlock(exact, members, components, final);
    SoundBlock(members);
    BlockComponents(members, components);
    ShallowBlockIsPrepared(members, components);
    hide Register, Rewrite, DeepEqual, Extends, AllNoDefs, NoLocal, Identity, Sound, Shallow, Undisturbed, Hoist,
      RegisterPrepared, BlockPrepared, ExactRegister;
    var r := Register(block, components);
    RegisterPublishes(exact, block, components);
    var p := RepointedBlock(block, Identity(block));
    forall i | 0 <= i < |block| ensures Defined(exact, block[i], final) {
      assert Published(exact, Registration(r.components, r.value), p[i]);
      IdentityRewritesAsNothing(block, block[i].value);
      RewriteNull(Plain, block[i].value, map[]);
      StaysEqual(exact, r.components, final, block[i].key, Rewrite(Plain, block[i].value, map[]));
    }
  }

  lemma {:induction false} UndisturbedIsDefined(exact: bool, node: Json, components: Components, final: Components)
    requires Shallow(node) && Sound(node) && Undisturbed(exact, node, components, final)
    ensures AllDefined(exact, node, final)
    decreases Size(node), 0, 0
  {
    hide AllNoDefs, Extends;
    match node
    case Arr(items) =>
      hide Hoist;
      ArrayIsHoisted(items, components);
      UndisturbedItemsAreDefined(exact, items, |items|, components, final);
    case Obj(members) =>
      if HasBlock(members) { UndisturbedBlockIsDefined(exact, members, components, final); }
      else {
        hide Hoist, Undisturbed, Sound, Shallow;
        UndisturbedOpenIsDefined(exact, members, components, final);
      }
    case _ =>
  }

  lemma {:induction false} UndisturbedItemsAreDefined(exact: bool, items: seq<Json>, n: nat, components: Components,
                                                     final: Components)
    requires n <= |items| && Shallow(Arr(items)) && Sound(Arr(items)) && AllNoDefs(components)
    requires NothingRenamedInItems(items, n, components) && (exact ==> ExactItems(items, n, components))
    requires Extends(exact, HoistItems(items, n, components).components, final)
    ensures forall i | 0 <= i < n :: AllDefined(exact, items[i], final)
    decreases ItemsSize(items), 1, n
  {
    hide AllNoDefs, Extends, Hoist, AllDefined, NothingRenamed, ExactHoist;
    if n > 0 {
      var front := HoistItems(items, n - 1, components).components;
      HoistItemsIsConservative(exact, items, n - 1, components);
      ItemIsSmaller(items, n - 1);
      HoistIsConservative(exact, items[n - 1], front);
      ExtendsTransitive(exact, front, HoistItems(items, n, components).components, final);
      UndisturbedItemsAreDefined(exact, items, n - 1, components, final);
      UndisturbedIsDefined(exact, items[n - 1], front, final);
    }
  }

  lemma {:induction false} UndisturbedMembersAreDefined(exact: bool, members: Members, n: nat, components: Components,
                                                       final: Components)
    requires n <= |members| && Sound(Obj(members)) && AllNoDefs(components)
    requires forall i | 0 <= i < |members| :: Shallow(members[i].value)
    requires NothingRenamedInMembers(members, n, components) && (exact ==> ExactMembers(members, n, components))
    requires Extends(exact, HoistMembers(members, n, components).components, final)
    ensures forall i | 0 <= i < n :: AllDefined(exact, members[i].value, final)
    decreases MembersSize(members), 1, n
  {
    hide AllNoDefs, Extends, Hoist, AllDefined, NothingRenamed, ExactHoist, Shallow, LikeMembers;
    if n > 0 {
      var front := HoistMembers(members, n - 1, components).components;
      HoistMembersKeepsShape(exact, members, n - 1, components);
      MemberIsSmaller(members, n - 1);
      HoistIsConservative(exact, members[n - 1].value, front);
      ExtendsTransitive(exact, front, HoistMembers(members, n, components).components, final);
      UndisturbedMembersAreDefined(exact, members, n - 1, components, final);
      UndisturbedIsDefined(exact, members[n - 1].value, front, final);
    }
  }

  lemma RestIsShallow(members: Members)
    requires !HasBlock(members) && Shallow(Obj(members))
    ensures var rest := Without(members, DEFS_KEY); forall i | 0 <= i < |rest| :: Shallow(rest[i].value)
  {
    hide HasBlock;
    var rest := Without(members, DEFS_KEY);
    forall i | 0 <= i < |rest| ensures Shallow(rest[i].value) { assert rest[i] in members; }
  }

  lemma DefinedFromRest(exact: bool, members: Members, names: Components)
    requires !HasBlock(members)
    requires var rest := Without(members, DEFS_KEY);
      forall i | 0 <= i < |rest| :: AllDefined(exact, rest[i].value, names)
    ensures AllDefined(exact, Obj(members), names)
  {
    hide HasBlock;
    var rest := Without(members, DEFS_KEY);
    forall i | 0 <= i < |members| && members[i].key != DEFS_KEY ensures AllDefined(exact, members[i].value, names) {
      WithoutKeeps(members, DEFS_KEY, i);
      var j :| 0 <= j < |rest| && rest[j] == members[i];
    }
  }

  lemma UndisturbedOpen(exact: bool, members: Members, components: Components, final: Components)
    requires !HasBlock(members) && Undisturbed(exact, Obj(members), components, final)
    ensures var rest := Without(members, DEFS_KEY);
      && AllNoDefs(components) && NothingRenamedInMembers(rest, |rest|, components)
      && (exact ==> ExactMembers(rest, |rest|, components))
      && Extends(exact, HoistMembers(rest, |rest|, components).components, final)
  {
    hide AllNoDefs, HasBlock, Extends;
    OpenIsHoisted(members, components);
  }

  lemma {:induction false} UndisturbedOpenIsDefined(exact: bool, members: Members, components: Components,
                                                    final: Components)
    requires !HasBlock(members) && Shallow(Obj(members)) && Sound(Obj(members))
    requires Undisturbed(exact, Obj(members), components, final)
    ensures AllDefined(exact, Obj(members), final)
    decreases MembersSize(members), 2, 0
  {
    hide AllNoDefs, Extends, HasBlock, Shallow, Sound, Undisturbed, AllDefined, Hoist;
    var rest := Without(members, DEFS_KEY);
    WithoutIsSmaller(members, DEFS_KEY);
    SoundWithout(members);
    RestIsShallow(members);
    UndisturbedOpen(exact, members, components, final);
    UndisturbedMembersAreDefined(exact, rest, |rest|, components, final);
    DefinedFromRest(exact, members, final);
  }

  lemma FinalAgrees(exact: bool, components: Components, final: Components)
    requires Extends(exact, components, final) && forall k | k in components :: components[k] != Null
    ensures Agrees(exact, components, final)
  {
    hide DeepEqual;
    forall k | k in components ensures DeepEqual(exact, final[k], components[k]) {
      EqualSymmetric(exact, components[k], final[k]);
    }
  }

  /** Some map of names gives the definitions of the document and the components that bear those names. */
  ghost predicate Consistent(exact: bool, document: Json, components: Components) {
    exists names: Components :: Agrees(exact, components, names) && AllDefined(exact, document, names)
  }

  /**
    Nothing is renamed exactly when all definitions of one name, in any block, and the component of
    that name if there is one, are equal in Python's sense once their local references are repointed.
    Nothing is renamed or conflated exactly when they are JSON-equal.
    */
  lemma UndisturbedExactlyWhenConsistent(exact: bool, document: Json, components: Components)
    requires Sound(document) && Shallow(document) && AllNoDefs(components)
    requires forall k | k in components :: components[k] != Null
    ensures NothingRenamed(document, components) && (exact ==> ExactHoist(document, components))
      <==> Consistent(exact, document, components)
  {
    hide Shallow, NothingRenamed, AllDefined, Hoist, AllNoDefs, Sound, Agrees, Extends, ExactHoist;
    if NothingRenamed(document, components) && (exact ==> ExactHoist(document, components)) {
      var final := Hoist(document, components).components;
      HoistIsConservative(exact, document, components);
      ExtendsReflexive(exact, final);
      UndisturbedIsDefined(exact, document, components, final);
      FinalAgrees(exact, components, final);
    }
    if Consistent(exact, document, components) {
      var names: Components :| Agrees(exact, components, names) && AllDefined(exact, document, names);
      HoistIsFlat(exact, document, names, components);
    }
  }

  // ---------------------------------------------------------------- consistent documents keep their meaning

  lemma {:induction false} NothingRenamedIsSteady(node: Json, components: Components)
    requires NothingRenamed(node, components)
    ensures Steady(node, components)
    decreases Size(node), 0, 0
  {
    match node
    case Arr(items) => NothingRenamedIsSteadyItems(items, |items|, components);
    case Obj(members) =>
      var rest := Without(members, DEFS_KEY);
      WithoutIsSmaller(members, DEFS_KEY);
      if HasBlock(members) {
        hide Register, KeepsNames;
        var renames := Register(Block(members), components).value;
        forall i | 0 <= i < |Block(members)| ensures KeepsNames(Plain, Block(members)[i].value, renames) {
          UnchangedNamesAreKept(Plain, Block(members)[i].value, renames);
        }
      } else {
        NothingRenamedIsSteadyMembers(rest, |rest|, components);
      }
    case _ =>
  }

  lemma {:induction false} NothingRenamedIsSteadyItems(items: seq<Json>, n: nat, components: Components)
    requires n <= |items| && NothingRenamedInItems(items, n, components)
    ensures SteadyItems(items, n, components)
    decreases ItemsSize(items), 1, n
  {
    hide NothingRenamed, Steady, Hoist;
    if n > 0 {
      ItemIsSmaller(items, n - 1);
      NothingRenamedIsSteadyItems(items, n - 1, components);
      NothingRenamedIsSteady(items[n - 1], HoistItems(items, n - 1, components).components);
    }
  }

  lemma {:induction false} NothingRenamedIsSteadyMembers(members: Members, n: nat, components: Components)
    requires n <= |members| && NothingRenamedInMembers(members, n, components)
    ensures SteadyMembers(members, n, components)
    decreases MembersSize(members), 1, n
  {
    hide NothingRenamed, Steady, Hoist;
    if n > 0 {
      MemberIsSmaller(members, n - 1);
      NothingRenamedIsSteadyMembers(members, n - 1, components);
      NothingRenamedIsSteady(members[n - 1].value, HoistMembers(members, n - 1, components).components);
    }
  }

  /** So a document whose definitions of one name are JSON-equal keeps its meaning. */
  lemma ConsistentDocumentKeepsItsMeaning(n: nat, document: Json, components: Components)
    requires Sound(document) && Closed(components) && Unnested(SCHEMA, document, components)
    requires Consistent(true, document, components)
    ensures var h := Hoist(document, components);
      JsonEqual(Tree(n, SCHEMA, document, [], components), Tree(n, SCHEMA, h.value, [], h.components))
  {
    UnnestedIsShallow(SCHEMA, document, components);
    ClosedHasNoDefs(components);
    hide Sound, Unnested, Consistent, Tree, DeepEqual, Hoist, AllNoDefs, NothingRenamed, ExactHoist, Shallow,
      Resolves, Steady;
    assert forall k | k in components :: components[k] != Null;
    UndisturbedExactlyWhenConsistent(true, document, components);
    NothingRenamedIsSteady(document, components);
    HoistingKeepsMeaning(n, document, components);
  }
}
