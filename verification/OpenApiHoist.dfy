/**
  `normalize_openapi_schema`: inlined `$defs` blocks move into `components/schemas` and references
  are repointed at them. The document is a value; `components`, which every call shares and updates,
  is the field of an object.
  */
module OpenApiHoist {
  import opened Wrappers
  import opened JsonValues
  import opened Numerals

  const DEFS_KEY := "$defs"
  const REF_KEY := "$ref"
  const LOCAL_PREFIX := "#/$defs/"
  const COMPONENTS_PREFIX := "#/components/schemas/"

  type Components = map<string, Json>

  type Renames = map<string, string>

  // ---------------------------------------------------------------- references

  /** The name after a prefix, if the text has it. */
  function NameAfter(prefix: string, text: string): (r: Option<string>)
    ensures r.Some? ==> text == prefix + r.value
  {
    if prefix <= text then Some(text[|prefix|..]) else None
  }

  function Local(reference: string): Option<string> { NameAfter(LOCAL_PREFIX, reference) }

  function Final(renames: Renames, name: string): string { if name in renames then renames[name] else name }

  function RewrittenReference(reference: string, renames: Renames): string {
    var local := Local(reference);
    if local.None? then reference else COMPONENTS_PREFIX + Final(renames, local.value)
  }

  /** Where a dictionary stands: the values of a discriminator's mapping are references too. */
  datatype Place = Plain | Discriminator | Mapping

  function ChildPlace(place: Place, key: string): Place {
    if key == "discriminator" then Discriminator
    else if place == Discriminator && key == "mapping" then Mapping
    else Plain
  }

  predicate IsReference(place: Place, key: string, v: Json) { v.Str? && (key == REF_KEY || place == Mapping) }

  function Rewrite(place: Place, node: Json, renames: Renames): (r: Json)
    decreases node, 0
  {
    match node
    case Arr(items) => Arr(RewriteItems(items, renames))
    case Obj(members) => Obj(RewriteMembers(place, members, renames))
    case _ => node
  }

  function RewriteItems(items: seq<Json>, renames: Renames): (r: seq<Json>)
    ensures |r| == |items|
    decreases items, 1
  {
    if |items| == 0 then [] else [Rewrite(Plain, items[0], renames)] + RewriteItems(items[1..], renames)
  }

  function RewriteMembers(place: Place, members: Members, renames: Renames): (r: Members)
    ensures |r| == |members|
    decreases members, 1
  {
    if |members| == 0 then []
    else
      var Member(key, v) := members[0];
      var v' := if IsReference(place, key, v) then Str(RewrittenReference(v.s, renames))
                else Rewrite(ChildPlace(place, key), v, renames);
      [Member(key, v')] + RewriteMembers(place, members[1..], renames)
  }

  lemma {:induction false} RewriteKeepsSize(place: Place, node: Json, renames: Renames)
    ensures Size(Rewrite(place, node, renames)) == Size(node)
    decreases node, 0
  {
    match node
    case Arr(items) => RewriteItemsKeepsSize(items, renames);
    case Obj(members) => RewriteMembersKeepsSize(place, members, renames);
    case _ =>
  }

  lemma {:induction false} RewriteItemsKeepsSize(items: seq<Json>, renames: Renames)
    ensures ItemsSize(RewriteItems(items, renames)) == ItemsSize(items)
    decreases items, 1
  {
    if |items| > 0 {
      RewriteKeepsSize(Plain, items[0], renames);
      RewriteItemsKeepsSize(items[1..], renames);
      var r := RewriteItems(items, renames);
      assert r[1..] == RewriteItems(items[1..], renames);
    }
  }

  lemma {:induction false} RewriteMembersKeepsSize(place: Place, members: Members, renames: Renames)
    ensures MembersSize(RewriteMembers(place, members, renames)) == MembersSize(members)
    decreases members, 1
  {
    if |members| > 0 {
      var Member(key, v) := members[0];
      if !IsReference(place, key, v) { RewriteKeepsSize(ChildPlace(place, key), v, renames); }
      RewriteMembersKeepsSize(place, members[1..], renames);
      var r := RewriteMembers(place, members, renames);
      assert r[1..] == RewriteMembers(place, members[1..], renames);
    }
  }

  lemma {:induction false} WithoutIsSmaller(members: Members, key: string)
    ensures MembersSize(Without(members, key)) <= MembersSize(members)
  {
    if |members| > 0 {
      WithoutIsSmaller(members[1..], key);
      if members[0].key != key {
        assert Without(members, key)[1..] == Without(members[1..], key);
      }
    }
  }

  // ---------------------------------------------------------------- registering one definition

  function Suffixed(name: string, suffix: nat): string { name + "_" + Numeral(suffix) }

  lemma SuffixInjective(name: string, a: nat, b: nat)
    requires Suffixed(name, a) == Suffixed(name, b)
    ensures a == b
  {
    assert Suffixed(name, a)[|name| + 1..] == Numeral(a);
    assert Suffixed(name, b)[|name| + 1..] == Numeral(b);
    NumeralInjective(a, b);
  }

  /** The component names of the form `name_s` with `s` at least `suffix`. */
  ghost function Ahead(components: Components, name: string, suffix: nat): set<string> {
    set k | k in components && exists s: nat :: suffix <= s && k == Suffixed(name, s)
  }

  lemma OneFewerAhead(components: Components, name: string, suffix: nat)
    requires Suffixed(name, suffix) in components
    ensures Ahead(components, name, suffix + 1) < Ahead(components, name, suffix)
  {
    var k := Suffixed(name, suffix);
    assert k in Ahead(components, name, suffix);
    assert k !in Ahead(components, name, suffix + 1) by {
      if s: nat :| suffix + 1 <= s && k == Suffixed(name, s) { SuffixInjective(name, suffix, s); }
    }
  }

  predicate SuffixTaken(components: Components, name: string, definition: Json, suffix: nat) {
    var k := Suffixed(name, suffix);
    k in components && !PythonEqual(components[k], definition)
  }

  /** The suffix search of lines 109-111. It ends because components are finite. */
  function FreeSuffix(components: Components, name: string, definition: Json, suffix: nat): (s: nat)
    ensures suffix <= s && !SuffixTaken(components, name, definition, s)
    ensures forall t: nat :: suffix <= t < s ==> SuffixTaken(components, name, definition, t)
    decreases Ahead(components, name, suffix)
  {
    if SuffixTaken(components, name, definition, suffix) then
      OneFewerAhead(components, name, suffix);
      FreeSuffix(components, name, definition, suffix + 1)
    else suffix
  }

  /** Whether a definition may take its own name. */
  predicate NameIsFree(components: Components, name: string, definition: Json) {
    name !in components || components[name] == Null || PythonEqual(components[name], definition)
  }

  function FinalName(components: Components, name: string, definition: Json): string {
    if NameIsFree(components, name, definition) then name
    else Suffixed(name, FreeSuffix(components, name, definition, 2))
  }

  datatype Registration = Registration(components: Components, renames: Renames)

  function RegisterOne(r: Registration, name: string, definition: Json): Registration {
    var final := FinalName(r.components, name, definition);
    Registration(r.components[final := definition],
                 if final == name then r.renames else r.renames[name := final])
  }

  function RegisterPrepared(r: Registration, prepared: Members, n: nat): Registration
    requires n <= |prepared|
  {
    if n == 0 then r
    else RegisterOne(RegisterPrepared(r, prepared, n - 1), prepared[n - 1].key, prepared[n - 1].value)
  }

  function Identity(definitions: Members): Renames {
    map k | k in Keys(definitions) :: k
  }

  /** Lines 116-119: once something was renamed, every registered definition is rewritten again. */
  function RepointSiblings(r: Registration, prepared: Members, n: nat): Components
    requires n <= |prepared|
  {
    if n == 0 then r.components
    else
      var before := RepointSiblings(r, prepared, n - 1);
      var final := Final(r.renames, prepared[n - 1].key);
      if final in before then before[final := Rewrite(Plain, before[final], r.renames)] else before
  }

  predicate AnyRenamed(renames: Renames) { exists k | k in renames :: renames[k] != k }

  // ---------------------------------------------------------------- hoisting

  datatype Hoisted<T> = Hoisted(value: T, components: Components)

  predicate HasBlock(members: Members) {
    match Get(members, DEFS_KEY)
    case Some(Obj(definitions)) => |definitions| > 0
    case _ => false
  }

  function Block(members: Members): Members {
    match Get(members, DEFS_KEY)
    case Some(Obj(definitions)) => definitions
    case _ => []
  }

  lemma BlockIsSmaller(members: Members)
    requires HasBlock(members)
    ensures MembersSize(Block(members)) < MembersSize(members)
  {
    LookupIsSmaller(members, DEFS_KEY);
  }

  function Hoist(node: Json, components: Components): Hoisted<Json>
    decreases Size(node), 0, 0
  {
    match node
    case Arr(items) =>
      var r := HoistItems(items, |items|, components);
      Hoisted(Arr(r.value), r.components)
    case Obj(members) =>
      var rest := Without(members, DEFS_KEY);
      WithoutIsSmaller(members, DEFS_KEY);
      if HasBlock(members) then
        BlockIsSmaller(members);
        var registered := Register(Block(members), components);
        var repointed := RewriteMembers(Plain, rest, registered.value);
        RewriteMembersKeepsSize(Plain, rest, registered.value);
        var r := HoistMembers(repointed, |repointed|, registered.components);
        Hoisted(Obj(r.value), r.components)
      else
        var r := HoistMembers(rest, |rest|, components);
        Hoisted(Obj(r.value), r.components)
    case _ => Hoisted(node, components)
  }

  /** The first `n` items, in order. */
  function HoistItems(items: seq<Json>, n: nat, components: Components): Hoisted<seq<Json>>
    requires n <= |items|
    decreases ItemsSize(items), 1, n
  {
    if n == 0 then Hoisted([], components)
    else
      var front := HoistItems(items, n - 1, components);
      ItemIsSmaller(items, n - 1);
      var last := Hoist(items[n - 1], front.components);
      Hoisted(front.value + [last.value], last.components)
  }

  function HoistMembers(members: Members, n: nat, components: Components): Hoisted<Members>
    requires n <= |members|
    decreases MembersSize(members), 1, n
  {
    if n == 0 then Hoisted([], components)
    else
      var front := HoistMembers(members, n - 1, components);
      MemberIsSmaller(members, n - 1);
      var last := Hoist(members[n - 1].value, front.components);
      Hoisted(front.value + [Member(members[n - 1].key, last.value)], last.components)
  }

  /** The first `n` definitions, each hoisted and rewritten under its own name. */
  function Prepare(definitions: Members, n: nat, renames: Renames, components: Components): (r: Hoisted<Members>)
    requires n <= |definitions|
    ensures |r.value| == n
    decreases MembersSize(definitions), 1, n
  {
    if n == 0 then Hoisted([], components)
    else
      var front := Prepare(definitions, n - 1, renames, components);
      MemberIsSmaller(definitions, n - 1);
      var last := Hoist(definitions[n - 1].value, front.components);
      Hoisted(front.value + [Member(definitions[n - 1].key, Rewrite(Plain, last.value, renames))], last.components)
  }

  function Register(definitions: Members, components: Components): Hoisted<Renames>
    decreases MembersSize(definitions), 2, 0
  {
    var prepared := Prepare(definitions, |definitions|, Identity(definitions), components);
    var r := RegisterPrepared(Registration(prepared.components, Identity(definitions)), prepared.value,
      |prepared.value|);
    Hoisted(r.renames, if AnyRenamed(r.renames) then RepointSiblings(r, prepared.value, |prepared.value|)
      else r.components)
  }

  // ---------------------------------------------------------------- the shared dictionary

  /** `components/schemas`, updated in place while the document is traversed. */
  class Registry {
    var schemas: Components

    constructor (schemas: Components)
      ensures this.schemas == schemas
    {
      this.schemas := schemas;
    }

    /** `_hoist_node`. */
    method HoistNode(node: Json) returns (hoisted: Json)
      modifies this
      ensures Hoisted(hoisted, schemas) == Hoist(node, old(schemas))
      decreases Size(node), 0, 0
    {
      match node {
        case Arr(items) =>
          var list := HoistList(items);
          hoisted := Arr(list);
        case Obj(members) =>
          var rest := Without(members, DEFS_KEY);
          WithoutIsSmaller(members, DEFS_KEY);
          if HasBlock(members) {
            BlockIsSmaller(members);
            var renames := RegisterDefinitions(Block(members));
            RewriteMembersKeepsSize(Plain, rest, renames);
            rest := RewriteMembers(Plain, rest, renames);
          }
          var dictionary := HoistDictionary(rest);
          hoisted := Obj(dictionary);
        case _ => hoisted := node;
      }
    }

    method HoistList(items: seq<Json>) returns (hoisted: seq<Json>)
      modifies this
      ensures Hoisted(hoisted, schemas) == HoistItems(items, |items|, old(schemas))
      decreases ItemsSize(items), 1, 0
    {
      hoisted := [];
      for i := 0 to |items|
        invariant Hoisted(hoisted, schemas) == HoistItems(items, i, old(schemas))
      {
        ItemIsSmaller(items, i);
        var first := HoistNode(items[i]);
        hoisted := hoisted + [first];
      }
    }

    method HoistDictionary(members: Members) returns (hoisted: Members)
      modifies this
      ensures Hoisted(hoisted, schemas) == HoistMembers(members, |members|, old(schemas))
      decreases MembersSize(members), 1, 0
    {
      hoisted := [];
      for i := 0 to |members|
        invariant Hoisted(hoisted, schemas) == HoistMembers(members, i, old(schemas))
      {
        MemberIsSmaller(members, i);
        var first := HoistNode(members[i].value);
        hoisted := hoisted + [Member(members[i].key, first)];
      }
    }

    method PrepareDefinitions(definitions: Members, renames: Renames) returns (prepared: Members)
      modifies this
      ensures Hoisted(prepared, schemas) == Prepare(definitions, |definitions|, renames, old(schemas))
      decreases MembersSize(definitions), 1, 0
    {
      prepared := [];
      for i := 0 to |definitions|
        invariant Hoisted(prepared, schemas) == Prepare(definitions, i, renames, old(schemas))
      {
        MemberIsSmaller(definitions, i);
        var first := HoistNode(definitions[i].value);
        prepared := prepared + [Member(definitions[i].key, Rewrite(Plain, first, renames))];
      }
    }

    /** Lines 104-114 for one definition. */
    method RegisterDefinition(name: string, definition: Json) returns (final: string)
      modifies this
      ensures final == FinalName(old(schemas), name, definition)
      ensures schemas == old(schemas)[final := definition]
    {
      if NameIsFree(schemas, name, definition) {
        schemas := schemas[name := definition];
        return name;
      }
      var suffix := 2;
      while SuffixTaken(schemas, name, definition, suffix)
        invariant suffix >= 2 && schemas == old(schemas)
        invariant FreeSuffix(schemas, name, definition, 2) == FreeSuffix(schemas, name, definition, suffix)
        decreases Ahead(schemas, name, suffix)
      {
        OneFewerAhead(schemas, name, suffix);
        suffix := suffix + 1;
      }
      final := Suffixed(name, suffix);
      schemas := schemas[final := definition];
    }

    /** `_register_definitions`. */
    method RegisterDefinitions(definitions: Members) returns (renames: Renames)
      modifies this
      ensures Hoisted(renames, schemas) == Register(definitions, old(schemas))
      decreases MembersSize(definitions), 2, 0
    {
      renames := Identity(definitions);
      var prepared := PrepareDefinitions(definitions, renames);
      ghost var start := Registration(schemas, renames);
      for i := 0 to |prepared|
        invariant RegisterPrepared(start, prepared, i) == Registration(schemas, renames)
      {
        var final := RegisterDefinition(prepared[i].key, prepared[i].value);
        if final != prepared[i].key { renames := renames[prepared[i].key := final]; }
      }
      if AnyRenamed(renames) {
        ghost var registered := Registration(schemas, renames);
        for i := 0 to |prepared|
          invariant RepointSiblings(registered, prepared, i) == schemas
        {
          var final := Final(renames, prepared[i].key);
          if final in schemas { schemas := schemas[final := Rewrite(Plain, schemas[final], renames)]; }
        }
      }
    }
  }
}
