/** Documents that hoisting changes: why the theorems on meaning have the guards they have. */
module OpenApiCounterexamples {
  import opened JsonValues
  import opened Numerals
  import opened OpenApiHoist
  import opened OpenApiTheorems
  import opened OpenApiConflicts
  import opened OpenApiReferences
  import opened OpenApiMeaning
  import SchemaChecks
  import SchemaIssues
  import SchemaExamples

  // ---------------------------------------------------------------- true is not one

  /**
    A component that requires the number 1 and a definition that requires true: Python takes them for
    equal, nothing is renamed, and the component is replaced. It no longer accepts 1.
    */
  lemma ConflationReplacesAComponent(library: SchemaChecks.Library, limit: nat)
    ensures var one, yes := SchemaExamples.ConstOnly(Int(1)), SchemaExamples.ConstOnly(Bool(true));
      var r := RegisterOne(Registration(map["T" := one], map["T" := "T"]), "T", yes);
      && r.renames == map["T" := "T"] && r.components == map["T" := yes] && Conflates(map["T" := one], "T", yes)
      && SchemaIssues.Accepts(SchemaChecks.Document(one, library), limit, one, Int(1))
      && !SchemaIssues.Accepts(SchemaChecks.Document(yes, library), limit, yes, Int(1))
  {
    var one, yes := SchemaExamples.ConstOnly(Int(1)), SchemaExamples.ConstOnly(Bool(true));
    ConstantsConflate();
    RegisteringConflates("T", one, yes);
    hide SchemaIssues.NodeIssues, RegisterOne, Conflates, SchemaIssues.Accepts, SchemaExamples.ConstOnly;
    EqualReflexive(true, Int(1));
    SchemaExamples.ConstAccepts(SchemaChecks.Document(one, library), limit, Int(1), Int(1));
    SchemaExamples.ConstAccepts(SchemaChecks.Document(yes, library), limit, Bool(true), Int(1));
    BooleansStandApart(true, Int(1));
  }

  lemma RegisteringConflates(name: string, held: Json, definition: Json)
    requires held != Null && PythonEqual(held, definition) && !JsonEqual(held, definition)
    ensures RegisterOne(Registration(map[name := held], map[name := name]), name, definition)
         == Registration(map[name := definition], map[name := name])
    ensures Conflates(map[name := held], name, definition)
  {
    hide DeepEqual;
  }

  lemma ConstantsConflate()
    ensures var one, yes := SchemaExamples.ConstOnly(Int(1)), SchemaExamples.ConstOnly(Bool(true));
      PythonEqual(one, yes) && !JsonEqual(one, yes)
  {
    SchemaExamples.OneKey("const", Int(1));
    SchemaExamples.OneKey("const", Bool(true));
  }

  // ---------------------------------------------------------------- `$defs` that is no keyword

  lemma HoistOneMember(key: string, v: Json, components: Components)
    requires key != DEFS_KEY
    ensures var h := Hoist(v, components);
      Hoist(Obj([Member(key, v)]), components) == Hoisted(Obj([Member(key, h.value)]), h.components)
  {
    var members := [Member(key, v)];
    assert Without(members[1..], DEFS_KEY) == [];
    assert Without(members, DEFS_KEY) == members;
    SchemaExamples.OneKey(key, v);
    assert !HasBlock(members);
    var h := Hoist(v, components);
    assert HoistMembers(members, 0, components) == Hoisted([], components);
    assert [] + [Member(key, h.value)] == [Member(key, h.value)];
    assert HoistMembers(members, 1, components) == Hoisted([Member(key, h.value)], h.components);
  }

  lemma HoistLoneDefs(v: Json, components: Components)
    requires !v.Obj?
    ensures Hoist(Obj([Member(DEFS_KEY, v)]), components) == Hoisted(Obj([]), components)
  {
    var members := [Member(DEFS_KEY, v)];
    SchemaExamples.OneKey(DEFS_KEY, v);
    assert Without(members[1..], DEFS_KEY) == [];
    assert Without(members, DEFS_KEY) == [];
    assert HoistMembers([], 0, components) == Hoisted([], components);
  }

  /** A property may be called `$defs`; hoisting loses it, and with it part of the schema's meaning. */
  lemma PropertyNamedDefsIsLost(n: nat, components: Components)
    ensures var document := Obj([Member("properties", Obj([Member(DEFS_KEY, Bool(true))]))]);
      var h := Hoist(document, components);
      && h == Hoisted(Obj([Member("properties", Obj([]))]), components)
      && (n >= 2 ==> !JsonEqual(Tree(n, SCHEMA, document, [], components), Tree(n, SCHEMA, h.value, [], components)))
  {
    var properties := Obj([Member(DEFS_KEY, Bool(true))]);
    HoistLoneDefs(Bool(true), components);
    HoistOneMember("properties", properties, components);
    hide Hoist, Tree, DeepEqual;
    if n >= 2 { LostPropertyShows(n, properties, components); }
  }

  lemma LostPropertyShows(n: nat, properties: Json, components: Components)
    requires n >= 2 && properties == Obj([Member(DEFS_KEY, Bool(true))])
    ensures !JsonEqual(Tree(n, SCHEMA, Obj([Member("properties", properties)]), [], components),
               Tree(n, SCHEMA, Obj([Member("properties", Obj([]))]), [], components))
  {
    hide Tree, DeepEqual;
    TreeOfProperties(n, properties, components);
    TreeOfProperties(n, Obj([]), components);
    TreeOfNames(n - 1, properties.members, components);
    TreeOfNames(n - 1, [], components);
    var a, b := Tree(n - 1, Spot(Plain, Names), properties, [], components),
      Tree(n - 1, Spot(Plain, Names), Obj([]), [], components);
    assert DEFS_KEY in Keys(properties.members) by { assert properties.members[0].key in Keys(properties.members); }
    DifferentKeysDiffer(a, b, DEFS_KEY);
    OneMemberDiffers("properties", a, b);
  }

  /** So may a default value, or an example, that is itself a schema. */
  lemma DefaultWithDefsIsLost(n: nat, components: Components)
    ensures var document := Obj([Member("default", Obj([Member(DEFS_KEY, Bool(true))]))]);
      var h := Hoist(document, components);
      && h == Hoisted(Obj([Member("default", Obj([]))]), components)
      && (n >= 2 ==> !JsonEqual(Tree(n, SCHEMA, document, [], components), Tree(n, SCHEMA, h.value, [], components)))
  {
    var data := Obj([Member(DEFS_KEY, Bool(true))]);
    HoistLoneDefs(Bool(true), components);
    HoistOneMember("default", data, components);
    if n >= 2 {
      TreeOfDefault(n, data, components);
      TreeOfDefault(n, Obj([]), components);
      hide Tree, Branches;
      SchemaExamples.OneKey(DEFS_KEY, Bool(true));
      DifferentKeysDiffer(data, Obj([]), DEFS_KEY);
      OneMemberDiffers("default", data, Obj([]));
    }
  }

  lemma TreeOfProperties(n: nat, v: Json, components: Components)
    requires n >= 1 && v.Obj?
    ensures Tree(n, SCHEMA, Obj([Member("properties", v)]), [], components)
         == Obj([Member("properties", Tree(n - 1, Spot(Plain, Names), v, [], components))])
  {
    var members := [Member("properties", v)];
    SchemaExamples.OneKey("properties", v);
    TreeOfMembers(n, SCHEMA, members, [], components);
    assert ChildSpot(SCHEMA, "properties") == Spot(Plain, Names);
    hide Tree;
    assert Branches(n - 1, SCHEMA, members, [], components)
        == [Member("properties", Tree(n - 1, Spot(Plain, Names), v, [], components))];
  }

  lemma TreeOfDefault(n: nat, v: Json, components: Components)
    requires n >= 2 && v.Obj?
    ensures Tree(n, SCHEMA, Obj([Member("default", v)]), [], components) == Obj([Member("default", v)])
  {
    var members := [Member("default", v)];
    SchemaExamples.OneKey("default", v);
    TreeOfMembers(n, SCHEMA, members, [], components);
    assert ChildSpot(SCHEMA, "default") == Spot(Plain, Data);
    TreeOfData(n - 1, Spot(Plain, Data), v, [], components);
    hide Tree;
    assert Branches(n - 1, SCHEMA, members, [], components) == [Member("default", v)];
  }

  lemma TreeOfNames(n: nat, members: Members, components: Components)
    requires n >= 1
    ensures var t := Tree(n, Spot(Plain, Names), Obj(members), [], components);
      t.Obj? && Keys(t.members) == Keys(members)
  {
    BranchesKeys(n - 1, Spot(Plain, Names), members, [], components);
  }

  lemma DifferentKeysDiffer(a: Json, b: Json, key: string)
    requires a.Obj? && b.Obj? && key in Keys(a.members) && key !in Keys(b.members)
    ensures !JsonEqual(a, b)
  {}

  lemma OneMemberDiffers(key: string, a: Json, b: Json)
    requires !JsonEqual(a, b)
    ensures !JsonEqual(Obj([Member(key, a)]), Obj([Member(key, b)]))
  {
    SchemaExamples.OneKey(key, a);
    SchemaExamples.OneKey(key, b);
  }

  // ---------------------------------------------------------------- a renamed definition

  /** A document that uses a recursive definition of the given name. */
  function UsesItself(name: string): Json {
    Obj([Member(DEFS_KEY, Obj([Member(name, SelfReference(LOCAL_PREFIX, name))])),
      Member(REF_KEY, Str(LOCAL_PREFIX + name))])
  }

  lemma UsesItselfHasBlock(name: string)
    ensures var members := UsesItself(name).members;
      && HasBlock(members) && Block(members) == [Member(name, SelfReference(LOCAL_PREFIX, name))]
      && Without(members, DEFS_KEY) == [Member(REF_KEY, Str(LOCAL_PREFIX + name))]
  {
    var members := UsesItself(name).members;
    assert members[0].key in Keys(members);
    assert REF_KEY != DEFS_KEY;
    assert Without(members[1..][1..], DEFS_KEY) == [];
    assert Without(members[1..], DEFS_KEY) == members[1..];
  }

  /** A name may be taken when it is unused, null or held by what Python calls the same. */
  lemma NamesAreKeptExactly(components: Components, name: string, definition: Json)
    ensures FinalName(components, name, definition) == name
      <==> name in components ==> components[name] == Null || PythonEqual(components[name], definition)
  {
    hide DeepEqual;
    assert |Suffixed(name, FreeSuffix(components, name, definition, 2))| > |name|;
  }

  /** A taken name is given the suffix 2, and the next one while that is taken too. */
  lemma SuffixesCountFromTwo(components: Components, name: string, definition: Json)
    requires name in components && components[name] != Null && !PythonEqual(components[name], definition)
    ensures name + "_2" !in components ==> FinalName(components, name, definition) == name + "_2"
    ensures name + "_2" in components && !PythonEqual(components[name + "_2"], definition) && name + "_3" !in components
      ==> FinalName(components, name, definition) == name + "_3"
  {
    hide DeepEqual;
    assert Numeral(2) == "2" && Numeral(3) == "3";
    assert name + "_" + "2" == name + "_2" && name + "_" + "3" == name + "_3";
    hide Numeral;
    assert Suffixed(name, 2) == name + "_2" && Suffixed(name, 3) == name + "_3";
    assert SuffixTaken(components, name, definition, 2)
      <==> name + "_2" in components && !PythonEqual(components[name + "_2"], definition);
    assert name + "_3" !in components ==> !SuffixTaken(components, name, definition, 3);
  }

  /**
    Hoisted beside a component of that name with other content, the document refers to the renamed
    definition, and the definition still refers to the other component.
    */
  lemma RenamedDocumentGoesAstray(name: string, other: Json)
    requires other != Null && !PythonEqual(other, SelfReference(COMPONENTS_PREFIX, name)) && NoDefs(other)
    ensures var h := Hoist(UsesItself(name), map[name := other]);
      exists final ::
        && final != name && final in h.components && name in h.components
        && h.value == SelfReference(COMPONENTS_PREFIX, final)
        && PythonEqual(h.components[final], SelfReference(COMPONENTS_PREFIX, name))
        && !PythonEqual(h.components[name], SelfReference(COMPONENTS_PREFIX, name))
  {
    hide DeepEqual, Register;
    var components := map[name := other];
    var document := UsesItself(name);
    UsesItselfHasBlock(name);
    RenamedSelfReferenceGoesAstray(name, other);
    var registered := Register(Block(document.members), components);
    RewriteSelfReference(name, registered.value);
    var final := Final(registered.value, name);
    var repointed := SelfReference(COMPONENTS_PREFIX, final);
    SelfReferenceHasNoDefs(COMPONENTS_PREFIX, final);
    HoistWithoutDefs(repointed, registered.components);
    HoistOfBlock(document.members, components, repointed);
  }

  lemma SelfReferenceHasNoDefs(prefix: string, name: string)
    ensures NoDefs(SelfReference(prefix, name))
  {
    SchemaExamples.OneKey(REF_KEY, Str(prefix + name));
  }

  lemma HoistOfBlock(members: Members, components: Components, repointed: Json)
    requires HasBlock(members)
    requires var r := Register(Block(members), components);
      && Rewrite(Plain, Obj(Without(members, DEFS_KEY)), r.value) == repointed && repointed.Obj? && NoDefs(repointed)
    ensures Hoist(Obj(members), components) == Hoisted(repointed, Register(Block(members), components).components)
  {
    hide Register, HasBlock, NoDefs;
    var r := Register(Block(members), components);
    var rest := repointed.members;
    assert NoDefs(Obj(rest));
    MembersOfNoDefs(rest);
    HoistMembersWithoutDefs(rest, |rest|, r.components);
    assert rest[..|rest|] == rest;
  }

  lemma MembersOfNoDefs(members: Members)
    requires NoDefs(Obj(members))
    ensures forall i | 0 <= i < |members| :: NoDefs(members[i].value)
  {}

  /** For one: a tree type beside a component of the same name that accepts anything. */
  lemma RenamedDocumentExample()
    ensures var h := Hoist(UsesItself("T"), map["T" := Bool(true)]);
      exists final ::
        && final != "T" && final in h.components && "T" in h.components
        && h.value == SelfReference(COMPONENTS_PREFIX, final)
        && PythonEqual(h.components[final], SelfReference(COMPONENTS_PREFIX, "T"))
        && !PythonEqual(h.components["T"], SelfReference(COMPONENTS_PREFIX, "T"))
  {
    hide Hoist;
    RenamedDocumentGoesAstray("T", Bool(true));
  }
}
