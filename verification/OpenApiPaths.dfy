/**
  Rewriting and hoisting as they show at the paths of a document: which strings are references, what
  becomes of them, and what is left.
  */
module OpenApiPaths {
  import opened Wrappers
  import opened JsonValues
  import opened JsonPointer
  import opened OpenApiHoist
  import opened OpenApiTheorems
  import opened OpenApiReferences
  import opened OpenApiMeaning

  /** A path to a `$ref`, or to an entry of the mapping of a discriminator. */
  predicate EndsInReference(path: seq<Segment>) {
    && |path| > 0 && path[|path| - 1].Key?
    && (|| path[|path| - 1] == Key("$ref")
        || (|path| >= 3 && path[|path| - 3] == Key("discriminator") && path[|path| - 2] == Key("mapping")))
  }

  /** The string at a path, rewritten. */
  function Repointed(path: seq<Segment>, s: string, renames: Renames): string {
    if EndsInReference(path) && "#/$defs/" <= s then
      var name := s[8..];
      "#/components/schemas/" + if name in renames then renames[name] else name
    else s
  }

  /**
    What stands at a path before and after rewriting: strings are repointed, dictionaries and lists keep
    their shape.
    */
  ghost predicate IsRepointed(before: Option<Json>, after: Option<Json>, path: seq<Segment>, renames: Renames) {
    match before
    case None => after.None?
    case Some(Str(s)) => after == Some(Str(Repointed(path, s, renames)))
    case Some(Arr(items)) => after.Some? && after.value.Arr? && |after.value.items| == |items|
    case Some(Obj(members)) => after.Some? && after.value.Obj? && Keys(after.value.members) == Keys(members)
    case Some(scalar) => after == before
  }

  // ---------------------------------------------------------------- from places to paths

  /** The last steps of a path to a dictionary that stands at a place. */
  function Steps(place: Place): seq<Segment> {
    match place
    case Plain => []
    case Discriminator => [Key("discriminator")]
    case Mapping => [Key("discriminator"), Key("mapping")]
  }

  lemma StepsOfChild(place: Place, key: string, rest: seq<Segment>)
    requires |rest| > 0
    ensures EndsInReference(Steps(place) + ([Key(key)] + rest))
      <==> EndsInReference(Steps(ChildPlace(place, key)) + rest)
  {
    var a, b := Steps(place) + ([Key(key)] + rest), Steps(ChildPlace(place, key)) + rest;
    assert a[|a| - 1] == rest[|rest| - 1] == b[|b| - 1];
    if |rest| >= 3 {
      assert a[|a| - 2] == b[|b| - 2] && a[|a| - 3] == b[|b| - 3];
    } else if |rest| == 2 {
      assert a[|a| - 2] == b[|b| - 2] && a[|a| - 3] == Key(key);
    } else {
      assert a[|a| - 2] == Key(key);
    }
  }

  lemma StepsOfItem(place: Place, i: nat, rest: seq<Segment>)
    requires |rest| > 0
    ensures EndsInReference(Steps(place) + ([Index(i)] + rest)) <==> EndsInReference(rest)
  {
    var a := Steps(place) + ([Index(i)] + rest);
    assert a[|a| - 1] == rest[|rest| - 1];
    if |rest| >= 3 {
      assert a[|a| - 2] == rest[|rest| - 2] && a[|a| - 3] == rest[|rest| - 3];
    } else if |rest| == 2 {
      assert a[|a| - 2] == rest[|rest| - 2] && a[|a| - 3] == Index(i);
    } else {
      assert a[|a| - 2] == Index(i);
    }
  }

  lemma StepsOfEntry(place: Place, key: string)
    ensures EndsInReference(Steps(place) + [Key(key)]) <==> key == "$ref" || place == Mapping
  {}

  lemma NoSteps(place: Place)
    ensures !EndsInReference(Steps(place))
  {}

  // ---------------------------------------------------------------- rewriting

  lemma {:induction false} LookupRewritten(place: Place, members: Members, renames: Renames, key: string)
    requires key in Keys(members)
    ensures key in Keys(RewriteMembers(place, members, renames))
    ensures Lookup(RewriteMembers(place, members, renames), key)
         == RewriteMember(place, Member(key, Lookup(members, key)), renames).value
  {
    hide Rewrite, RewrittenReference, IsReference, ChildPlace;
    RewriteKeepsKeys(place, members, renames);
    var r := RewriteMembers(place, members, renames);
    assert r[0].key == members[0].key;
    if members[0].key != key {
      Unfold(members);
      LookupRewritten(place, members[1..], renames, key);
      assert r[1..] == RewriteMembers(place, members[1..], renames);
    }
  }

  lemma LocalIs(reference: string, renames: Renames)
    ensures RewrittenReference(reference, renames)
         == if "#/$defs/" <= reference then
              "#/components/schemas/" + if reference[8..] in renames then renames[reference[8..]] else reference[8..]
            else reference
  {
    assert |LOCAL_PREFIX| == 8;
  }

  lemma SamePathSameString(a: seq<Segment>, b: seq<Segment>, before: Option<Json>, after: Option<Json>,
                           renames: Renames)
    requires IsRepointed(before, after, a, renames) && (EndsInReference(a) <==> EndsInReference(b))
    ensures IsRepointed(before, after, b, renames)
  {
    hide EndsInReference;
  }

  lemma {:induction false} RewriteBelow(place: Place, node: Json, renames: Renames, path: seq<Segment>)
    ensures IsRepointed(NodeAt(node, path), NodeAt(Rewrite(place, node, renames), path), Steps(place) + path, renames)
    decreases |path|
  {
    if |path| == 0 {
      NodeIsRepointed(place, node, renames);
      assert Steps(place) + path == Steps(place);
    } else {
      match path[0]
      case Key(k) =>
        if node.Obj? {
          RewriteKeepsKeys(place, node.members, renames);
          if k in Keys(node.members) {
            var v := Lookup(node.members, k);
            LookupRewritten(place, node.members, renames, k);
            if |path| > 1 && !IsReference(place, k, v) { RewriteBelow(ChildPlace(place, k), v, renames, path[1..]); }
            hide Rewrite, IsReference, ChildPlace, RewriteMembers;
            MemberIsRepointed(place, k, v, renames, path[1..]);
            assert path == [Key(k)] + path[1..];
          }
        }
      case Index(i) =>
        if node.Arr? && i < |node.items| {
          RewriteBelow(Plain, node.items[i], renames, path[1..]);
          hide Rewrite, RewriteItems;
          ItemIsRepointed(place, node.items, i, renames, path[1..]);
          assert path == [Index(i)] + path[1..];
        }
    }
  }

  lemma NodeIsRepointed(place: Place, node: Json, renames: Renames)
    ensures IsRepointed(Some(node), Some(Rewrite(place, node, renames)), Steps(place), renames)
  {
    NoSteps(place);
    hide EndsInReference;
    if node.Obj? { RewriteKeepsKeys(place, node.members, renames); }
  }

  lemma ItemIsRepointed(place: Place, items: seq<Json>, i: nat, renames: Renames, rest: seq<Segment>)
    requires i < |items|
    requires IsRepointed(NodeAt(items[i], rest), NodeAt(Rewrite(Plain, items[i], renames), rest), [] + rest, renames)
    ensures IsRepointed(NodeAt(Arr(items), [Index(i)] + rest),
              NodeAt(Rewrite(place, Arr(items), renames), [Index(i)] + rest), Steps(place) + ([Index(i)] + rest),
              renames)
  {
    var path := [Index(i)] + rest;
    assert path[1..] == rest && [] + rest == rest;
    RewriteItemsAt(items, renames, i);
    if |rest| > 0 { StepsOfItem(place, i, rest); }
    hide EndsInReference, RewriteItems;
    assert NodeAt(Arr(items), path) == NodeAt(items[i], rest);
    assert NodeAt(Rewrite(place, Arr(items), renames), path) == NodeAt(Rewrite(Plain, items[i], renames), rest);
    assert !EndsInReference(Steps(place) + [Index(i)]) && !EndsInReference([]) by { OnlyAnIndex(place, i); }
    assert |rest| == 0 ==> path == [Index(i)];
    SamePathSameString(rest, Steps(place) + path, NodeAt(items[i], rest),
      NodeAt(Rewrite(Plain, items[i], renames), rest), renames);
  }

  lemma OnlyAnIndex(place: Place, i: nat)
    ensures !EndsInReference(Steps(place) + [Index(i)]) && !EndsInReference([])
  {}

  /** One member of a dictionary, and what is below it. */
  lemma MemberIsRepointed(place: Place, k: string, v: Json, renames: Renames, rest: seq<Segment>)
    requires |rest| > 0 && !IsReference(place, k, v) ==>
      IsRepointed(NodeAt(v, rest), NodeAt(Rewrite(ChildPlace(place, k), v, renames), rest),
        Steps(ChildPlace(place, k)) + rest, renames)
    ensures IsRepointed(NodeAt(v, rest), NodeAt(RewriteMember(place, Member(k, v), renames).value, rest),
              Steps(place) + ([Key(k)] + rest), renames)
  {
    var full := Steps(place) + ([Key(k)] + rest);
    if |rest| == 0 {
      StepsOfEntry(place, k);
      assert full == Steps(place) + [Key(k)];
      if IsReference(place, k, v) {
        LocalIs(v.s, renames);
      } else {
        NodeIsRepointed(ChildPlace(place, k), v, renames);
        NoSteps(ChildPlace(place, k));
      }
    } else if !IsReference(place, k, v) {
      StepsOfChild(place, k, rest);
      hide EndsInReference, Rewrite;
      SamePathSameString(Steps(ChildPlace(place, k)) + rest, full, NodeAt(v, rest),
        NodeAt(Rewrite(ChildPlace(place, k), v, renames), rest), renames);
    }
  }

  /**
    Rewriting a document changes the strings at reference paths that name a local definition, each to
    the component of its final name, and nothing else.
    */
  lemma RewriteRepointsReferences(document: Json, renames: Renames, path: seq<Segment>)
    ensures IsRepointed(NodeAt(document, path), NodeAt(Rewrite(Plain, document, renames), path), path, renames)
  {
    hide EndsInReference, Rewrite;
    RewriteBelow(Plain, document, renames, path);
    assert [] + path == path;
  }

  /** For one, the entries of a discriminator's mapping are repointed. */
  lemma MappingIsRepointed(document: Json, renames: Renames, above: seq<Segment>, key: string, name: string)
    requires var path := above + [Key("discriminator"), Key("mapping"), Key(key)];
      NodeAt(document, path) == Some(Str("#/$defs/" + name))
    ensures var path := above + [Key("discriminator"), Key("mapping"), Key(key)];
      NodeAt(Rewrite(Plain, document, renames), path)
      == Some(Str("#/components/schemas/" + if name in renames then renames[name] else name))
  {
    var path := above + [Key("discriminator"), Key("mapping"), Key(key)];
    assert ("#/$defs/" + name)[8..] == name;
    assert EndsInReference(path);
    hide Rewrite, NodeAt, EndsInReference;
    RewriteRepointsReferences(document, renames, path);
  }

  // ---------------------------------------------------------------- nothing local is left

  /** The document has a local reference at the path. */
  ghost predicate HasLocal(node: Json, path: seq<Segment>) {
    match NodeAt(node, path)
    case Some(Str(s)) => EndsInReference(path) && "#/$defs/" <= s
    case _ => false
  }

  /** A dictionary with a `$defs` block that is not empty. */
  ghost predicate IsBlockHolder(node: Json) {
    match node
    case Obj(members) =>
      (match Get(members, "$defs") case Some(Obj(definitions)) => |definitions| > 0 case _ => false)
    case _ => false
  }

  /** Some dictionary on the way holds a block. */
  ghost predicate Enclosed(node: Json, path: seq<Segment>) {
    exists n: nat :: n < |path| && NodeAt(node, path[..n]).Some? && IsBlockHolder(NodeAt(node, path[..n]).value)
  }

  /** Every local reference below a node at a place stands below a block's dictionary. */
  ghost predicate AllEnclosed(place: Place, node: Json) {
    forall path, s | NodeAt(node, path) == Some(Str(s)) && EndsInReference(Steps(place) + path) && "#/$defs/" <= s ::
      Enclosed(node, path)
  }

  /** The same, node by node. */
  ghost predicate Scoped(place: Place, node: Json)
    decreases node
  {
    match node
    case Arr(items) => forall i | 0 <= i < |items| :: Scoped(Plain, items[i])
    case Obj(members) =>
      HasBlock(members) || forall i | 0 <= i < |members| :: ScopedMember(place, members[i])
    case _ => true
  }

  ghost predicate ScopedMember(place: Place, m: Member)
    decreases m
  {
    if IsReference(place, m.key, m.value) then Local(m.value.s).None? else Scoped(ChildPlace(place, m.key), m.value)
  }

  lemma {:induction false} EnclosedIsScoped(place: Place, node: Json)
    requires Sound(node) && AllEnclosed(place, node)
    ensures Scoped(place, node)
    decreases node
  {
    hide EndsInReference;
    match node
    case Arr(items) =>
      forall i | 0 <= i < |items| ensures Scoped(Plain, items[i]) {
        ItemEnclosed(place, items, i);
        EnclosedIsScoped(Plain, items[i]);
      }
    case Obj(members) =>
      if !HasBlock(members) {
        forall i | 0 <= i < |members| ensures ScopedMember(place, members[i]) {
          MemberEnclosed(place, members, i);
          if !IsReference(place, members[i].key, members[i].value) {
            EnclosedIsScoped(ChildPlace(place, members[i].key), members[i].value);
          }
        }
      }
    case _ =>
  }

  lemma BlockHolders(node: Json)
    ensures IsBlockHolder(node) <==> node.Obj? && HasBlock(node.members)
  {}

  /** What encloses a reference below a step is the node itself or something below the step. */
  lemma EnclosedBelow(node: Json, step: Segment, child: Json, rest: seq<Segment>)
    requires NodeAt(node, [step]) == Some(child) && Enclosed(node, [step] + rest) && !IsBlockHolder(node)
    requires forall path: seq<Segment> :: NodeAt(node, [step] + path) == NodeAt(child, path)
    ensures Enclosed(child, rest)
  {
    hide IsBlockHolder;
    var path := [step] + rest;
    var n: nat :| n < |path| && NodeAt(node, path[..n]).Some? && IsBlockHolder(NodeAt(node, path[..n]).value);
    assert path[..0] == [] && NodeAt(node, []) == Some(node);
    assert path[..n] == [step] + rest[..n - 1];
    assert NodeAt(child, rest[..n - 1]) == NodeAt(node, path[..n]);
  }

  lemma StepDown(node: Json, step: Segment, child: Json)
    requires match step
      case Key(k) => node.Obj? && k in Keys(node.members) && Lookup(node.members, k) == child
      case Index(i) => node.Arr? && i < |node.items| && node.items[i] == child
    ensures forall path: seq<Segment> :: NodeAt(node, [step] + path) == NodeAt(child, path)
    ensures NodeAt(node, [step]) == Some(child)
  {
    forall path: seq<Segment> ensures NodeAt(node, [step] + path) == NodeAt(child, path) {
      assert ([step] + path)[1..] == path;
    }
    assert [step] + [] == [step] && NodeAt(child, []) == Some(child);
  }

  lemma ItemEnclosed(place: Place, items: seq<Json>, i: nat)
    requires i < |items| && AllEnclosed(place, Arr(items))
    ensures AllEnclosed(Plain, items[i])
  {
    hide EndsInReference, Enclosed;
    StepDown(Arr(items), Index(i), items[i]);
    hide NodeAt;
    forall path, s | NodeAt(items[i], path) == Some(Str(s)) && EndsInReference(Steps(Plain) + path) && "#/$defs/" <= s
      ensures Enclosed(items[i], path)
    {
      assert Steps(Plain) + path == path;
      OnlyAnIndex(place, i);
      assert |path| > 0 by { assert path == [] ==> EndsInReference([]); }
      StepsOfItem(place, i, path);
      EnclosedBelow(Arr(items), Index(i), items[i], path);
    }
  }

  lemma MemberEnclosed(place: Place, members: Members, i: nat)
    requires i < |members| && AllEnclosed(place, Obj(members)) && !HasBlock(members) && DistinctKeys(members)
    ensures var m := members[i];
      if IsReference(place, m.key, m.value) then Local(m.value.s).None?
        else AllEnclosed(ChildPlace(place, m.key), m.value)
  {
    var Member(k, v) := members[i];
    LookupAt(members, i);
    StepDown(Obj(members), Key(k), v);
    BlockHolders(Obj(members));
    StepsOfEntry(place, k);
    hide EndsInReference, DistinctKeys, IsBlockHolder, HasBlock, Enclosed;
    if IsReference(place, k, v) {
      assert LOCAL_PREFIX == "#/$defs/";
      if LOCAL_PREFIX <= v.s {
        hide NodeAt;
        assert Enclosed(Obj(members), [Key(k)]);
        assert [Key(k)] + [] == [Key(k)];
        EnclosedBelow(Obj(members), Key(k), v, []);
        NothingEnclosesTheRoot(v);
      }
    } else {
      var child := ChildPlace(place, k);
      hide NodeAt, IsReference, ChildPlace;
      NoSteps(child);
      forall path, s | NodeAt(v, path) == Some(Str(s)) && EndsInReference(Steps(child) + path) && "#/$defs/" <= s
        ensures Enclosed(v, path)
      {
        assert |path| > 0 by { assert path == [] ==> Steps(child) + path == Steps(child); }
        StepsOfChild(place, k, path);
        EnclosedBelow(Obj(members), Key(k), v, path);
      }
    }
  }

  lemma NothingEnclosesTheRoot(node: Json)
    ensures !Enclosed(node, [])
  {}

  lemma {:induction false} ScopedWithoutBlocks(place: Place, node: Json)
    requires NoDefs(node) && Scoped(place, node)
    ensures NoLocal(place, node)
    decreases node
  {
    match node
    case Arr(items) =>
      forall i | 0 <= i < |items| ensures NoLocal(Plain, items[i]) { ScopedWithoutBlocks(Plain, items[i]); }
    case Obj(members) =>
      forall i | 0 <= i < |members| && !IsReference(place, members[i].key, members[i].value)
        ensures NoLocal(ChildPlace(place, members[i].key), members[i].value)
      {
        assert ScopedMember(place, members[i]);
        ScopedWithoutBlocks(ChildPlace(place, members[i].key), members[i].value);
      }
    case _ =>
  }

  lemma {:induction false} HoistedIsNotLocal(spot: Spot, node: Json, document: Components, components: Components)
    requires Unnested(spot, node, document) && Scoped(spot.place, node)
    ensures NoLocal(spot.place, Hoist(node, components).value)
    decreases Size(node), 1
  {
    if spot.role == Data {
      HoistWithoutDefs(node, components);
      ScopedWithoutBlocks(spot.place, node);
    } else {
      match node
      case Arr(items) =>
        ArrayIsHoisted(items, components);
        hide Hoist, Unnested;
        HoistItemsLength(items, |items|, components);
        forall i | 0 <= i < |items| ensures NoLocal(Plain, HoistItems(items, |items|, components).value[i]) {
          assert Unnested(ItemSpot(spot), items[i], document) && Scoped(Plain, items[i]) by {
            ItemsOf(spot, items, i, document);
          }
          ItemIsSmaller(items, i);
          HoistItemsAt(items, |items|, components, i);
          HoistedIsNotLocal(ItemSpot(spot), items[i], document, HoistItems(items, i, components).components);
        }
      case Obj(members) =>
        if HasBlock(members) {
          BlockIsHoisted(members, document, components);
          RewriteRemovesLocal(Plain, Obj(Without(members, DEFS_KEY)), Register(Block(members), components).value);
        } else {
          hide Hoist, Unnested, Scoped, NoLocal;
          OpenIsNotLocal(spot, members, document, components);
        }
      case _ =>
    }
  }

  lemma ItemsOf(spot: Spot, items: seq<Json>, i: nat, document: Components)
    requires i < |items| && spot.role != Data && Unnested(spot, Arr(items), document) && Scoped(spot.place, Arr(items))
    ensures Unnested(ItemSpot(spot), items[i], document) && Scoped(Plain, items[i])
  {}

  lemma {:induction false} OpenIsNotLocal(spot: Spot, members: Members, document: Components, components: Components)
    requires !HasBlock(members) && Unnested(spot, Obj(members), document) && spot.role != Data
    requires Scoped(spot.place, Obj(members))
    ensures NoLocal(spot.place, Hoist(Obj(members), components).value)
    decreases MembersSize(members), 2
  {
    var rest := Without(members, DEFS_KEY);
    WithoutIsSmaller(members, DEFS_KEY);
    RestIsUnnested(spot, members, document);
    OpenIsHoisted(members, components);
    forall i | 0 <= i < |rest| ensures ScopedMember(spot.place, rest[i]) {
      assert rest[i] in members;
    }
    hide Hoist, Unnested, Scoped, HasBlock;
    var r := HoistMembers(rest, |rest|, components);
    HoistMembersLength(rest, |rest|, components);
    forall i | 0 <= i < |rest|
      ensures if IsReference(spot.place, r.value[i].key, r.value[i].value) then Local(r.value[i].value.s).None?
              else NoLocal(ChildPlace(spot.place, r.value[i].key), r.value[i].value)
    {
      hide NoLocal;
      MemberIsSmaller(rest, i);
      HoistMembersAt(rest, |rest|, components, i);
      var before := HoistMembers(rest, i, components).components;
      StringIsKept(rest[i].value, before);
      if !IsReference(spot.place, rest[i].key, rest[i].value) {
        assert Unnested(ChildSpot(spot, rest[i].key), rest[i].value, document);
        HoistedIsNotLocal(ChildSpot(spot, rest[i].key), rest[i].value, document, before);
      }
    }
  }

  lemma StringIsKept(node: Json, components: Components)
    ensures Hoist(node, components).value.Str? <==> node.Str?
    ensures node.Str? ==> Hoist(node, components).value == node
  {}

  // ---------------------------------------------------------------- the components

  ghost predicate AllNotLocal(components: Components) { forall k | k in components :: NoLocal(Plain, components[k]) }

  lemma {:induction false} HoistKeepsNotLocal(node: Json, components: Components)
    requires AllNotLocal(components)
    ensures AllNotLocal(Hoist(node, components).components)
    decreases Size(node), 0, 0
  {
    hide AllNotLocal;
    match node
    case Arr(items) => HoistItemsKeepsNotLocal(items, |items|, components);
    case Obj(members) =>
      var rest := Without(members, DEFS_KEY);
      WithoutIsSmaller(members, DEFS_KEY);
      if HasBlock(members) {
        BlockIsSmaller(members);
        RegisterKeepsNotLocal(Block(members), components);
        var registered := Register(Block(members), components);
        RewriteMembersKeepsSize(Plain, rest, registered.value);
        hide Register, Rewrite;
        var repointed := RewriteMembers(Plain, rest, registered.value);
        HoistMembersKeepsNotLocal(repointed, |repointed|, registered.components);
      } else {
        HoistMembersKeepsNotLocal(rest, |rest|, components);
      }
    case _ =>
  }

  lemma {:induction false} HoistItemsKeepsNotLocal(items: seq<Json>, n: nat, components: Components)
    requires n <= |items| && AllNotLocal(components)
    ensures AllNotLocal(HoistItems(items, n, components).components)
    decreases ItemsSize(items), 1, n
  {
    hide AllNotLocal, Hoist;
    if n > 0 {
      HoistItemsKeepsNotLocal(items, n - 1, components);
      ItemIsSmaller(items, n - 1);
      HoistKeepsNotLocal(items[n - 1], HoistItems(items, n - 1, components).components);
    }
  }

  lemma {:induction false} HoistMembersKeepsNotLocal(members: Members, n: nat, components: Components)
    requires n <= |members| && AllNotLocal(components)
    ensures AllNotLocal(HoistMembers(members, n, components).components)
    decreases MembersSize(members), 1, n
  {
    hide AllNotLocal, Hoist;
    if n > 0 {
      HoistMembersKeepsNotLocal(members, n - 1, components);
      MemberIsSmaller(members, n - 1);
      HoistKeepsNotLocal(members[n - 1].value, HoistMembers(members, n - 1, components).components);
    }
  }

  lemma {:induction false} PrepareKeepsNotLocal(definitions: Members, n: nat, renames: Renames, components: Components)
    requires n <= |definitions| && AllNotLocal(components)
    ensures AllNotLocal(Prepare(definitions, n, renames, components).components)
    ensures forall i | 0 <= i < n :: NoLocal(Plain, Prepare(definitions, n, renames, components).value[i].value)
    decreases MembersSize(definitions), 1, n
  {
    hide AllNotLocal, Hoist, NoLocal, Rewrite;
    if n > 0 {
      PrepareKeepsNotLocal(definitions, n - 1, renames, components);
      MemberIsSmaller(definitions, n - 1);
      var front := Prepare(definitions, n - 1, renames, components);
      HoistKeepsNotLocal(definitions[n - 1].value, front.components);
      RewriteRemovesLocal(Plain, Hoist(definitions[n - 1].value, front.components).value, renames);
    }
  }

  lemma {:induction false} RegisterKeepsNotLocal(definitions: Members, components: Components)
    requires AllNotLocal(components)
    ensures AllNotLocal(Register(definitions, components).components)
    decreases MembersSize(definitions), 2, 0
  {
    var renames := Identity(definitions);
    PrepareKeepsNotLocal(definitions, |definitions|, renames, components);
    var p := Prepare(definitions, |definitions|, renames, components);
    hide Prepare, NoLocal, AllNotLocal, Identity, RegisterPrepared, RepointSiblings;
    RegisteredNotLocal(Registration(p.components, renames), p.value, |p.value|);
    RepointedNotLocal(RegisterPrepared(Registration(p.components, renames), p.value, |p.value|), p.value, |p.value|);
  }

  lemma {:induction false} RegisteredNotLocal(r: Registration, prepared: Members, n: nat)
    requires n <= |prepared| && AllNotLocal(r.components)
    requires forall i | 0 <= i < |prepared| :: NoLocal(Plain, prepared[i].value)
    ensures AllNotLocal(RegisterPrepared(r, prepared, n).components)
  {
    hide NoLocal, FinalName;
    if n > 0 { RegisteredNotLocal(r, prepared, n - 1); }
  }

  lemma {:induction false} RepointedNotLocal(r: Registration, prepared: Members, n: nat)
    requires n <= |prepared| && AllNotLocal(r.components)
    ensures AllNotLocal(RepointSiblings(r, prepared, n))
  {
    hide NoLocal, Rewrite, Final;
    if n > 0 {
      RepointedNotLocal(r, prepared, n - 1);
      var before := RepointSiblings(r, prepared, n - 1);
      var final := Final(r.renames, prepared[n - 1].key);
      if final in before { RewriteRemovesLocal(Plain, before[final], r.renames); }
    }
  }

  // ---------------------------------------------------------------- at every path

  lemma {:induction false} NotLocalAnywhere(place: Place, node: Json, path: seq<Segment>, s: string)
    requires NoLocal(place, node) && NodeAt(node, path) == Some(Str(s)) && EndsInReference(Steps(place) + path)
    ensures !("#/$defs/" <= s)
    decreases |path|
  {
    NoSteps(place);
    assert |path| > 0 by { assert path == [] ==> Steps(place) + path == Steps(place); }
    hide EndsInReference;
    assert path == [path[0]] + path[1..];
    match path[0]
    case Key(k) =>
      var v := Lookup(node.members, k);
      var i :| 0 <= i < |node.members| && node.members[i] == Member(k, v);
      if |path| == 1 {
        assert path == [Key(k)];
        StepsOfEntry(place, k);
      } else {
        StepsOfChild(place, k, path[1..]);
        NotLocalAnywhere(ChildPlace(place, k), v, path[1..], s);
      }
    case Index(i) =>
      OnlyAnIndex(place, i);
      assert |path| == 1 ==> path == [Index(i)];
      StepsOfItem(place, i, path[1..]);
      assert Steps(Plain) + path[1..] == path[1..];
      NotLocalAnywhere(Plain, node.items[i], path[1..], s);
  }

  lemma NotLocalAtPath(node: Json, path: seq<Segment>)
    requires NoLocal(Plain, node)
    ensures !HasLocal(node, path)
  {
    assert Steps(Plain) + path == path;
    hide EndsInReference, NoLocal;
    match NodeAt(node, path)
    case Some(Str(s)) => if EndsInReference(path) { NotLocalAnywhere(Plain, node, path, s); }
    case _ =>
  }

  lemma {:induction false} FromPaths(place: Place, node: Json)
    requires Sound(node)
    requires forall path, s | NodeAt(node, path) == Some(Str(s)) && EndsInReference(Steps(place) + path) ::
      !("#/$defs/" <= s)
    ensures NoLocal(place, node)
    decreases node
  {
    hide EndsInReference;
    match node
    case Arr(items) =>
      forall i | 0 <= i < |items| ensures NoLocal(Plain, items[i]) {
        StepDown(node, Index(i), items[i]);
        forall path, s | NodeAt(items[i], path) == Some(Str(s)) && EndsInReference(Steps(Plain) + path)
          ensures !("#/$defs/" <= s)
        {
          assert Steps(Plain) + path == path;
          OnlyAnIndex(place, i);
          assert |path| > 0 by { assert path == [] ==> EndsInReference([]); }
          StepsOfItem(place, i, path);
          assert NodeAt(node, [Index(i)] + path) == Some(Str(s));
        }
        FromPaths(Plain, items[i]);
      }
    case Obj(members) =>
      forall i | 0 <= i < |members|
        ensures if IsReference(place, members[i].key, members[i].value) then Local(members[i].value.s).None?
                else NoLocal(ChildPlace(place, members[i].key), members[i].value)
      {
        var Member(k, v) := members[i];
        LookupAt(members, i);
        StepDown(node, Key(k), v);
        StepsOfEntry(place, k);
        var child := ChildPlace(place, k);
        if IsReference(place, k, v) {
          assert NodeAt(node, [Key(k)]) == Some(Str(v.s));
        } else {
          NoSteps(child);
          forall path, s | NodeAt(v, path) == Some(Str(s)) && EndsInReference(Steps(child) + path)
            ensures !("#/$defs/" <= s)
          {
            assert |path| > 0 by { assert path == [] ==> Steps(child) + path == Steps(child); }
            StepsOfChild(place, k, path);
            assert NodeAt(node, [Key(k)] + path) == Some(Str(s));
          }
          FromPaths(child, v);
        }
      }
    case _ =>
  }

  /**
    If every local reference of the document stands below a block, and no component has one, then none is
    left after hoisting, in the document or in any component: neither a `$ref` nor an entry of a
    discriminator's mapping.
    */
  lemma NothingLocalIsLeft(document: Json, components: Components)
    requires Sound(document) && Closed(components) && Unnested(SCHEMA, document, components)
    requires forall path | HasLocal(document, path) :: Enclosed(document, path)
    requires forall k | k in components :: Sound(components[k]) && forall path :: !HasLocal(components[k], path)
    ensures var h := Hoist(document, components);
      && (forall path :: !HasLocal(h.value, path))
      && forall k | k in h.components :: forall path :: !HasLocal(h.components[k], path)
  {
    var h := Hoist(document, components);
    assert AllEnclosed(Plain, document) by {
      hide EndsInReference, Enclosed;
      forall path, s | NodeAt(document, path) == Some(Str(s)) && EndsInReference(Steps(Plain) + path) && "#/$defs/" <= s
        ensures Enclosed(document, path)
      {
        assert Steps(Plain) + path == path;
        assert HasLocal(document, path);
      }
    }
    hide Unnested, Closed, Hoist, HasLocal, Sound, NoLocal, Scoped, AllEnclosed, Enclosed;
    EnclosedIsScoped(Plain, document);
    HoistedIsNotLocal(SCHEMA, document, components, components);
    forall k | k in components ensures NoLocal(Plain, components[k]) { ComponentIsNotLocal(components[k]); }
    HoistKeepsNotLocal(document, components);
    forall path ensures !HasLocal(h.value, path) { NotLocalAtPath(h.value, path); }
    forall k, path | k in h.components
      ensures !HasLocal(h.components[k], path)
    {
      NotLocalAtPath(h.components[k], path);
    }
  }

  lemma ComponentIsNotLocal(node: Json)
    requires Sound(node) && forall path :: !HasLocal(node, path)
    ensures NoLocal(Plain, node)
  {
    forall path, s | NodeAt(node, path) == Some(Str(s)) && EndsInReference(Steps(Plain) + path)
      ensures !("#/$defs/" <= s)
    {
      assert Steps(Plain) + path == path;
      assert !HasLocal(node, path);
    }
    hide EndsInReference, HasLocal, NoLocal, Sound;
    FromPaths(Plain, node);
  }
}
