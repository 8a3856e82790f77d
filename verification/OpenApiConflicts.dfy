/**
  Name conflicts. References beside a block follow a renamed definition; references among the
  definitions of the block were spelled before the names were settled, and do not.
  */
module OpenApiConflicts {
  import opened Wrappers
  import opened JsonValues
  import opened OpenApiHoist
  import opened OpenApiTheorems

  lemma FinalNameKeeps(components: Components, name: string, definition: Json)
    ensures FinalName(components, name, definition) == name <==> NameIsFree(components, name, definition)
  {
    hide DeepEqual;
  }

  /** A definition is renamed exactly when its name is not free at its turn. */
  lemma {:induction false} RenamedExactlyWhenTaken(start: Registration, prepared: Members, i: nat, n: nat)
    requires i < n <= |prepared| && DistinctKeys(prepared) && AllPublished(false, start, prepared, 0)
    ensures var before := RegisterPrepared(start, prepared, i);
      Final(RegisterPrepared(start, prepared, n).renames, prepared[i].key)
      == FinalName(before.components, prepared[i].key, prepared[i].value)
  {
    hide FinalName, Published;
    if n == i + 1 {
      NamedItselfBefore(start, prepared, i, i);
    } else {
      RenamedExactlyWhenTaken(start, prepared, i, n - 1);
    }
  }

  lemma {:induction false} NamedItselfBefore(start: Registration, prepared: Members, i: nat, n: nat)
    requires n <= i < |prepared| && DistinctKeys(prepared) && AllPublished(false, start, prepared, 0)
    ensures Final(RegisterPrepared(start, prepared, n).renames, prepared[i].key) == prepared[i].key
  {
    hide FinalName, Published;
    if n > 0 { NamedItselfBefore(start, prepared, i, n - 1); }
  }

  lemma {:induction false} LaterExtends(start: Registration, prepared: Members, i: nat, n: nat)
    requires i <= n <= |prepared|
    ensures Extends(false, RegisterPrepared(start, prepared, i).components,
      RegisterPrepared(start, prepared, n).components)
  {
    hide Extends, RegisterOne;
    ExtendsReflexive(false, RegisterPrepared(start, prepared, i).components);
    if n > i {
      LaterExtends(start, prepared, i, n - 1);
      var before := RegisterPrepared(start, prepared, n - 1);
      RegisterOneExtends(false, before, prepared[n - 1].key, prepared[n - 1].value);
      ExtendsTransitive(false, RegisterPrepared(start, prepared, i).components, before.components,
                        RegisterPrepared(start, prepared, n).components);
    }
  }

  /** Under its own name stands the definition, if that name was free, and something else if not. */
  lemma OwnNameHolds(start: Registration, prepared: Members, i: nat)
    requires i < |prepared| && Prepared(prepared)
    ensures var before := RegisterPrepared(start, prepared, i).components;
      var after := RegisterPrepared(start, prepared, |prepared|).components;
      var Member(name, definition) := prepared[i];
      name in after && (PythonEqual(after[name], definition) <==> NameIsFree(before, name, definition))
  {
    hide DeepEqual, FinalName, NoDefs, NoLocal;
    var before := RegisterPrepared(start, prepared, i).components;
    var after := RegisterPrepared(start, prepared, |prepared|).components;
    var Member(name, definition) := prepared[i];
    FinalNameKeeps(before, name, definition);
    if NameIsFree(before, name, definition) {
      LaterExtends(start, prepared, i + 1, |prepared|);
      assert RegisterPrepared(start, prepared, i + 1).components[name] == definition;
      EqualSymmetric(false, definition, after[name]);
    } else {
      LaterExtends(start, prepared, i, |prepared|);
      if PythonEqual(after[name], definition) { EqualTransitive(false, before[name], after[name], definition); }
    }
  }

  /**
    What a reference to the definition `i` of a block becomes. Beside the block it names the
    component the definition was published under. Among the definitions it names the component of the
    definition's own name, which holds the definition exactly when that name was free at its turn.
    */
  lemma SiblingReferenceIsRightExactlyWhenNotRenamed(definitions: Members, components: Components, i: nat)
    requires Sound(Obj(definitions)) && NoNulls(definitions) && AllNoDefs(components) && i < |definitions|
    ensures var p := BlockPrepared(definitions, components);
      var before := RegisterPrepared(Registration(p.components, Identity(definitions)), p.value, i).components;
      var r := Register(definitions, components);
      var name := definitions[i].key;
      var definition := p.value[i].value;
      && RewrittenReference(LOCAL_PREFIX + name, Identity(definitions)) == COMPONENTS_PREFIX + name
      && RewrittenReference(LOCAL_PREFIX + name, r.value) == COMPONENTS_PREFIX + Final(r.value, name)
      && Final(r.value, name) in r.components && PythonEqual(r.components[Final(r.value, name)], definition)
      && name in r.components
      && (PythonEqual(r.components[name], definition) <==> NameIsFree(before, name, definition))
      && (Final(r.value, name) == name <==> NameIsFree(before, name, definition))
  {
    PrepareIsPrepared(false, definitions, components);
    var p := BlockPrepared(definitions, components);
    hide BlockPrepared, Register, RegisterPrepared, NoDefs, NoLocal, DeepEqual, FinalName, NameIsFree;
    RegisterPublishes(false, definitions, components);
    RegisterRenames(definitions, components);
    var start := Registration(p.components, Identity(definitions));
    var name, definition := definitions[i].key, p.value[i].value;
    assert name in Keys(definitions);
    assert p.value[i] == Member(name, definition);
    assert Published(false, Registration(Register(definitions, components).components,
      Register(definitions, components).value), p.value[i]);
    OwnNameHolds(start, p.value, i);
    RenamedExactlyWhenTaken(start, p.value, i, |p.value|);
    FinalNameKeeps(RegisterPrepared(start, p.value, i).components, name, definition);
    LocalName(name);
  }

  lemma LocalName(name: string)
    ensures Local(LOCAL_PREFIX + name) == Some(name)
  {
    assert (LOCAL_PREFIX + name)[|LOCAL_PREFIX|..] == name;
  }

  lemma RegisterRenames(definitions: Members, components: Components)
    ensures var p := BlockPrepared(definitions, components);
      Register(definitions, components).value
      == RegisterPrepared(Registration(p.components, Identity(definitions)), p.value, |p.value|).renames
  {
    hide Prepare, RegisterPrepared, Identity, RepointSiblings, AnyRenamed;
  }

  // ---------------------------------------------------------------- the conflict

  /** A definition that refers to itself. */
  function SelfReference(prefix: string, name: string): Json { Obj([Member(REF_KEY, Str(prefix + name))]) }

  lemma SelfReferencePrepared(name: string, components: Components)
    ensures BlockPrepared([Member(name, SelfReference(LOCAL_PREFIX, name))], components)
         == Hoisted([Member(name, SelfReference(COMPONENTS_PREFIX, name))], components)
  {
    var definition := SelfReference(LOCAL_PREFIX, name);
    var block := [Member(name, definition)];
    HoistSelfReference(name, components);
    RewriteSelfReference(name, Identity(block));
    hide Hoist, Rewrite, Identity;
    var renames := Identity(block);
    assert Prepare(block, 0, renames, components) == Hoisted([], components);
    var one := [Member(name, Rewrite(Plain, Hoist(definition, components).value, renames))];
    assert [] + one == one;
    assert Prepare(block, 1, renames, components)
        == Hoisted(one, components);
    assert name in Keys(block) by { assert block[0].key == name; }
    assert Final(renames, name) == name by { IdentityIsIdentity(block, name); }
  }

  lemma IdentityIsIdentity(definitions: Members, name: string)
    ensures Final(Identity(definitions), name) == name
  {}

  lemma HoistSelfReference(name: string, components: Components)
    ensures Hoist(SelfReference(LOCAL_PREFIX, name), components)
      == Hoisted(SelfReference(LOCAL_PREFIX, name), components)
  {
    var members := SelfReference(LOCAL_PREFIX, name).members;
    assert REF_KEY != DEFS_KEY;
    assert Without(members[1..], DEFS_KEY) == [];
    assert Without(members, DEFS_KEY) == members;
    assert !HasBlock(members);
    assert HoistMembers(members, 0, components) == Hoisted([], components);
    assert Hoist(members[0].value, components) == Hoisted(members[0].value, components);
    assert [] + members == members;
    assert HoistMembers(members, 1, components) == Hoisted(members, components);
  }

  lemma RewriteSelfReference(name: string, renames: Renames)
    ensures Rewrite(Plain, SelfReference(LOCAL_PREFIX, name), renames)
      == SelfReference(COMPONENTS_PREFIX, Final(renames, name))
  {
    LocalName(name);
    var members := SelfReference(LOCAL_PREFIX, name).members;
    assert RewriteMembers(Plain, members[1..], renames) == [];
  }

  /**
    A recursive definition whose name another component already bears is published under a new name
    and still refers to the other component.
    */
  lemma RenamedSelfReferenceGoesAstray(name: string, other: Json)
    requires other != Null && !PythonEqual(other, SelfReference(COMPONENTS_PREFIX, name)) && NoDefs(other)
    ensures var r := Register([Member(name, SelfReference(LOCAL_PREFIX, name))], map[name := other]);
      var final := Final(r.value, name);
      && final != name && final in r.components && name in r.components
      && PythonEqual(r.components[final], SelfReference(COMPONENTS_PREFIX, name))
      && !PythonEqual(r.components[name], SelfReference(COMPONENTS_PREFIX, name))
  {
    var block := [Member(name, SelfReference(LOCAL_PREFIX, name))];
    var components := map[name := other];
    hide DeepEqual, Register, Identity, FinalName;
    SelfReferencePrepared(name, components);
    SelfReferenceIsSound(name);
    assert AllNoDefs(components);
    SiblingReferenceIsRightExactlyWhenNotRenamed(block, components, 0);
  }

  lemma SelfReferenceIsSound(name: string)
    ensures var block := [Member(name, SelfReference(LOCAL_PREFIX, name))]; Sound(Obj(block)) && NoNulls(block)
  {
    assert Sound(SelfReference(LOCAL_PREFIX, name));
    assert forall i | 0 <= i < |SelfReference(LOCAL_PREFIX, name).members| ::
      SelfReference(LOCAL_PREFIX, name).members[i].value.Str?;
  }

  /** For one: a tree type beside a component of the same name that accepts anything. */
  lemma ConflictExample()
    ensures var r := Register([Member("T", SelfReference(LOCAL_PREFIX, "T"))], map["T" := Bool(true)]);
      var final := Final(r.value, "T");
      && final != "T" && final in r.components && "T" in r.components
      && PythonEqual(r.components[final], SelfReference(COMPONENTS_PREFIX, "T"))
      && !PythonEqual(r.components["T"], r.components[final])
  {
    hide Register;
    RenamedSelfReferenceGoesAstray("T", Bool(true));
    var r := Register([Member("T", SelfReference(LOCAL_PREFIX, "T"))], map["T" := Bool(true)]);
    var final := Final(r.value, "T");
    if PythonEqual(r.components["T"], r.components[final]) {
      EqualTransitive(false, r.components["T"], r.components[final], SelfReference(COMPONENTS_PREFIX, "T"));
    }
  }
}
