/**
  JSON Schema keywords as one boolean formula over the verdicts of the subschemas, with no hop
  bound, and the proof that the validator computes the one verdict that solves it.
  */
module SchemaSemantics {
  import opened Wrappers
  import opened JsonValues
  import opened JsonPointer
  import opened DistinctItems
  import opened SchemaChecks

  /** A verdict for every schema node and value. */
  type Verdict = (Json, Json) -> bool

  // ---------------------------------------------------------------- the keywords, one by one

  ghost predicate ReferenceHolds(d: Document, sat: Verdict, s: Members, value: Json) {
    match Get(s, "$ref")
    case Some(Str(reference)) =>
      var target := Resolve(reference, d.root, d.library.decoders);
      target.Some? && sat(target.value, value)
    case _ => true
  }

  const TYPE_NAMES: set<string> := {"object", "array", "string", "integer", "number", "boolean", "null"}

  /** A type name admits values by their kind; an unknown one admits every value. */
  ghost predicate IsOfType(value: Json, name: string) {
    || name !in TYPE_NAMES
    || match value
       case Null => name == "null"
       case Bool(_) => name == "boolean"
       case Int(_) => name == "integer" || name == "number"
       case Float(_) => name == "number"
       case Str(_) => name == "string"
       case Arr(_) => name == "array"
       case Obj(_) => name == "object"
  }

  /** One name, or a list with at least one; other entries of the list say nothing. */
  ghost predicate TypeHolds(s: Members, value: Json) {
    match Get(s, "type")
    case Some(Str(name)) => IsOfType(value, name)
    case Some(Arr(names)) =>
      (exists i | 0 <= i < |names| :: names[i].Str?) ==>
        exists i | 0 <= i < |names| :: names[i].Str? && IsOfType(value, names[i].s)
    case _ => true
  }

  ghost predicate ScalarKeywordsHold(s: Members, value: Json) {
    && ("const" in Keys(s) ==> JsonEqual(value, Lookup(s, "const")))
    && (match Get(s, "enum")
        case Some(Arr(choices)) => exists i | 0 <= i < |choices| :: JsonEqual(value, choices[i])
        case _ => true)
    && TypeHolds(s, value)
  }

  ghost predicate AllOfHolds(sat: Verdict, s: Members, value: Json) {
    match Get(s, "allOf")
    case Some(Arr(branches)) => forall i | 0 <= i < |branches| :: sat(branches[i], value)
    case _ => true
  }

  ghost predicate AnyOfHolds(sat: Verdict, s: Members, value: Json) {
    match Get(s, "anyOf")
    case Some(Arr(branches)) => |branches| > 0 ==> exists i | 0 <= i < |branches| :: sat(branches[i], value)
    case _ => true
  }

  ghost predicate OneOfHolds(sat: Verdict, s: Members, value: Json) {
    match Get(s, "oneOf")
    case Some(Arr(branches)) =>
      |branches| > 0 ==>
        exists i | 0 <= i < |branches| ::
          sat(branches[i], value) && forall j | 0 <= j < |branches| && j != i :: !sat(branches[j], value)
    case _ => true
  }

  ghost predicate NotHolds(sat: Verdict, s: Members, value: Json) {
    "not" in Keys(s) ==> !sat(Lookup(s, "not"), value)
  }

  ghost predicate CompositionHolds(sat: Verdict, s: Members, value: Json) {
    AllOfHolds(sat, s, value) && AnyOfHolds(sat, s, value) && OneOfHolds(sat, s, value) && NotHolds(sat, s, value)
  }

  /** An integer keyword bounds `n` from below, or from above. */
  ghost predicate AtLeast(s: Members, key: string, n: nat) {
    match Get(s, key) case Some(Int(bound)) => bound <= n case _ => true
  }

  ghost predicate AtMost(s: Members, key: string, n: nat) {
    match Get(s, key) case Some(Int(bound)) => n <= bound case _ => true
  }

  ghost predicate AllPresent(required: seq<Json>, value: Members) {
    forall i | 0 <= i < |required| :: required[i].Str? ==> required[i].s in Keys(value)
  }

  ghost predicate DependentsPresent(dependent: Members, value: Members, n: nat)
    requires n <= |dependent|
  {
    forall i | 0 <= i < n ::
      dependent[i].key in Keys(value) && dependent[i].value.Arr? ==> AllPresent(dependent[i].value.items, value)
  }

  ghost predicate RequiredHolds(s: Members, value: Members) {
    match Get(s, "required") case Some(Arr(required)) => AllPresent(required, value) case _ => true
  }

  ghost predicate DependentRequiredHolds(s: Members, value: Members) {
    match Get(s, "dependentRequired")
    case Some(Obj(dependent)) => DependentsPresent(dependent, value, |dependent|)
    case _ => true
  }

  ghost predicate RequirementsHold(s: Members, value: Members) {
    && RequiredHolds(s, value) && DependentRequiredHolds(s, value)
    && AtLeast(s, "minProperties", |value|) && AtMost(s, "maxProperties", |value|)
  }

  ghost predicate PropertiesHold(sat: Verdict, s: Members, value: Members) {
    match Get(s, "properties")
    case Some(Obj(properties)) =>
      forall i | 0 <= i < |properties| ::
        properties[i].key in Keys(value) ==> sat(properties[i].value, Lookup(value, properties[i].key))
    case _ => true
  }

  /** The pattern compiles and is found in the text. */
  ghost predicate Found(library: Library, pattern: string, text: string) {
    match library.compile(pattern) case Some(search) => search(text) case None => false
  }

  ghost predicate PatternsHold(library: Library, sat: Verdict, s: Members, value: Members) {
    match Get(s, "patternProperties")
    case Some(Obj(patterns)) => AllFoundHold(library, sat, patterns, value)
    case _ => true
  }

  ghost predicate AllFoundHold(library: Library, sat: Verdict, patterns: Members, value: Members) {
    forall i, j | 0 <= i < |patterns| && 0 <= j < |value| ::
      Found(library, patterns[i].key, value[j].key) ==> sat(patterns[i].value, value[j].value)
  }

  ghost predicate NamesHold(sat: Verdict, s: Members, value: Members) {
    match Get(s, "propertyNames")
    case Some(Null) => true
    case Some(names) => forall j | 0 <= j < |value| :: sat(names, Str(value[j].key))
    case None => true
  }

  /** A key that `properties` names or one of `patternProperties` matches. */
  ghost predicate IsNamed(library: Library, s: Members, key: string) {
    || (match Get(s, "properties") case Some(Obj(properties)) => key in Keys(properties) case _ => false)
    || (match Get(s, "patternProperties")
        case Some(Obj(patterns)) => exists i | 0 <= i < |patterns| :: Found(library, patterns[i].key, key)
        case _ => false)
  }

  ghost predicate AdditionalHolds(library: Library, sat: Verdict, s: Members, value: Members) {
    match Get(s, "additionalProperties")
    case Some(Bool(true)) => true
    case Some(Bool(false)) => forall j | 0 <= j < |value| :: IsNamed(library, s, value[j].key)
    case Some(schema) => forall j | 0 <= j < |value| :: IsNamed(library, s, value[j].key) || sat(schema, value[j].value)
    case None => true
  }

  ghost predicate ObjectHolds(library: Library, sat: Verdict, s: Members, value: Members) {
    && RequirementsHold(s, value)
    && PropertiesHold(sat, s, value)
    && PatternsHold(library, sat, s, value)
    && NamesHold(sat, s, value)
    && AdditionalHolds(library, sat, s, value)
  }

  ghost predicate PrefixHolds(sat: Verdict, s: Members, items: seq<Json>) {
    match Get(s, "prefixItems")
    case Some(Arr(prefix)) => forall i | 0 <= i < |prefix| && i < |items| :: sat(prefix[i], items[i])
    case _ => true
  }

  ghost function PrefixLength(s: Members): nat {
    match Get(s, "prefixItems") case Some(Arr(prefix)) => |prefix| case _ => 0
  }

  ghost predicate ItemsHold(sat: Verdict, s: Members, items: seq<Json>) {
    match Get(s, "items")
    case Some(Null) => true
    case Some(schema) => forall i | PrefixLength(s) <= i < |items| :: sat(schema, items[i])
    case None => true
  }

  ghost function Satisfying(sat: Verdict, schema: Json, items: seq<Json>): set<nat> {
    set i: nat | i < |items| && sat(schema, items[i])
  }

  /** Without an integer `minContains` at least one item must satisfy `contains`. */
  ghost predicate ContainsHolds(sat: Verdict, s: Members, items: seq<Json>) {
    match Get(s, "contains")
    case Some(Null) => true
    case Some(schema) =>
      var count := |Satisfying(sat, schema, items)|;
      && AtMost(s, "maxContains", count)
      && (if Get(s, "minContains").Some? && Get(s, "minContains").value.Int? then AtLeast(s, "minContains", count)
          else 1 <= count)
    case None => true
  }

  ghost predicate ArrayHolds(sat: Verdict, s: Members, items: seq<Json>) {
    && AtLeast(s, "minItems", |items|) && AtMost(s, "maxItems", |items|)
    && (Get(s, "uniqueItems") == Some(Bool(true)) ==>
         forall i, j | 0 <= i < j < |items| :: !JsonEqual(items[j], items[i]))
    && PrefixHolds(sat, s, items)
    && ItemsHold(sat, s, items)
    && ContainsHolds(sat, s, items)
  }

  /** A pattern that does not compile says nothing. */
  ghost predicate PatternHolds(library: Library, s: Members, text: string) {
    match Get(s, "pattern")
    case Some(Str(pattern)) => library.compile(pattern).Some? ==> Found(library, pattern, text)
    case _ => true
  }

  ghost predicate StringHolds(library: Library, s: Members, text: string) {
    AtLeast(s, "minLength", |text|) && AtMost(s, "maxLength", |text|) && PatternHolds(library, s, text)
  }

  /** The keyword is the number `bound`, an integer or a float. */
  ghost predicate IsBound(s: Members, key: string, bound: real) {
    match Get(s, key) case Some(Int(n)) => bound == n as real case Some(Float(x)) => bound == x case _ => false
  }

  /** Some integer is within a billionth. */
  ghost predicate NearInteger(q: real) { exists k: int :: IsNear(q, k) }

  ghost predicate IsNear(q: real, k: int) { -0.000000001 <= q - k as real <= 0.000000001 }

  ghost predicate NumberHolds(s: Members, number: real) {
    forall bound: real ::
      && (IsBound(s, "minimum", bound) ==> number >= bound)
      && (IsBound(s, "maximum", bound) ==> number <= bound)
      && (IsBound(s, "exclusiveMinimum", bound) ==> number > bound)
      && (IsBound(s, "exclusiveMaximum", bound) ==> number < bound)
      && (IsBound(s, "multipleOf", bound) && bound > 0.0 ==> NearInteger(number / bound))
  }

  ghost predicate ValueHolds(library: Library, sat: Verdict, s: Members, value: Json) {
    match value
    case Obj(members) => ObjectHolds(library, sat, s, members)
    case Arr(items) => ArrayHolds(sat, s, items)
    case Str(text) => StringHolds(library, s, text)
    case Int(i) => NumberHolds(s, i as real)
    case Float(x) => NumberHolds(s, x)
    case _ => true
  }

  /** All that a schema node says about a value, given the verdicts `sat`. */
  ghost predicate Holds(d: Document, sat: Verdict, schema: Json, value: Json) {
    match schema
    case Bool(b) => b
    case Obj(s) =>
      && ReferenceHolds(d, sat, s, value)
      && ScalarKeywordsHold(s, value)
      && CompositionHolds(sat, s, value)
      && ValueHolds(d.library, sat, s, value)
    case _ => true
  }

  // ---------------------------------------------------------------- keywords about the value itself

  lemma NamesMean(value: Json, name: string)
    ensures MatchesType(value, name) <==> IsOfType(value, name)
  {}

  lemma {:induction false} StringsAre(items: seq<Json>, t: string)
    ensures t in StringsIn(items) <==> exists i | 0 <= i < |items| :: items[i] == Str(t)
  {
    if |items| > 0 { StringsAre(items[..|items| - 1], t); }
  }

  lemma TypeMeaning(s: Members, value: Json)
    ensures TypeHolds(s, value) <==> !TypeMismatch(s, value)
  {
    hide MatchesType, IsOfType;
    forall name: string ensures MatchesType(value, name) <==> IsOfType(value, name) { NamesMean(value, name); }
    match Get(s, "type")
    case Some(Arr(names)) =>
      hide StringsIn;
      forall t: string ensures t in StringsIn(names) <==> exists i | 0 <= i < |names| :: names[i] == Str(t) {
        StringsAre(names, t);
      }
      if i :| 0 <= i < |names| && names[i].Str? { assert names[i] == Str(names[i].s); }
      if |StringsIn(names)| > 0 { assert StringsIn(names)[0] in StringsIn(names); }
      forall i | 0 <= i < |names| && names[i].Str? ensures names[i].s in StringsIn(names) {
        assert names[i] == Str(names[i].s);
      }
    case _ =>
  }

  lemma ScalarMeaning(s: Members, value: Json)
    ensures ScalarKeywordsHold(s, value) <==>
      !ConstMismatch(s, value) && !EnumMismatch(s, value) && !TypeMismatch(s, value)
  {
    hide TypeHolds, TypeMismatch, DeepEqual;
    TypeMeaning(s, value);
    match Get(s, "enum")
    case Some(Arr(choices)) =>
      forall i | 0 <= i < |choices| ensures choices[i] in choices {}
    case _ =>
  }

  // ---------------------------------------------------------------- checks mean keywords

  ghost function CountSatisfied(sat: Verdict, visits: seq<Visit>): nat {
    if |visits| == 0 then 0
    else CountSatisfied(sat, visits[..|visits| - 1])
         + if sat(visits[|visits| - 1].schema, visits[|visits| - 1].value) then 1 else 0
  }

  ghost predicate CheckHolds(sat: Verdict, check: Check) {
    match check
    case Fail(_) => false
    case Each(visit) => sat(visit.schema, visit.value)
    case Count(visits, least, most, _, _) =>
      least <= CountSatisfied(sat, visits) && (most.Some? ==> CountSatisfied(sat, visits) <= most.value)
  }

  ghost predicate AllHold(sat: Verdict, checks: seq<Check>) {
    forall i | 0 <= i < |checks| :: CheckHolds(sat, checks[i])
  }

  lemma HoldAppend(sat: Verdict, a: seq<Check>, b: seq<Check>)
    ensures AllHold(sat, a + b) <==> AllHold(sat, a) && AllHold(sat, b)
  {
    if AllHold(sat, a + b) {
      forall i | 0 <= i < |a| ensures CheckHolds(sat, a[i]) { assert (a + b)[i] == a[i]; }
      forall i | 0 <= i < |b| ensures CheckHolds(sat, b[i]) { assert (a + b)[|a| + i] == b[i]; }
    }
  }

  lemma OneHolds(sat: Verdict, check: Check)
    ensures AllHold(sat, [check]) <==> CheckHolds(sat, check)
  {
    assert [check][0] == check;
  }

  lemma WhenHolds(sat: Verdict, condition: bool, code: string, at: seq<Segment>)
    ensures AllHold(sat, When(condition, code, at)) <==> !condition
  {
    if condition { OneHolds(sat, Fail(Issue(code, at))); }
  }

  ghost function SatisfiedAt(sat: Verdict, visits: seq<Visit>): set<nat> {
    set i: nat | i < |visits| && sat(visits[i].schema, visits[i].value)
  }

  lemma SatisfiedSnoc(sat: Verdict, front: seq<Visit>, last: Visit)
    ensures SatisfiedAt(sat, front + [last])
         == SatisfiedAt(sat, front) + if sat(last.schema, last.value) then {|front|} else {}
  {
    var all := front + [last];
    forall i: nat | i < |front| ensures i in SatisfiedAt(sat, all) <==> i in SatisfiedAt(sat, front) {
      assert all[i] == front[i];
    }
  }

  /** The count over a list of visits is the size of the set of satisfied positions. */
  lemma {:induction false} CountIsCardinality(sat: Verdict, visits: seq<Visit>)
    ensures CountSatisfied(sat, visits) == |SatisfiedAt(sat, visits)|
  {
    if |visits| == 0 {
      assert SatisfiedAt(sat, visits) == {};
    } else {
      var front, last := visits[..|visits| - 1], visits[|visits| - 1];
      CountIsCardinality(sat, front);
      assert visits == front + [last];
      SatisfiedSnoc(sat, front, last);
      assert |front| !in SatisfiedAt(sat, front);
    }
  }

  lemma AllOfMeaning(sat: Verdict, s: Members, value: Json)
    ensures AllHold(sat, EachOf(SameValue(GetItems(s, "allOf"), value))) <==> AllOfHolds(sat, s, value)
  {
    var items := GetItems(s, "allOf");
    var checks := EachOf(SameValue(items, value));
    assert forall i | 0 <= i < |items| :: CheckHolds(sat, checks[i]) <==> sat(items[i], value);
  }

  lemma AnyOfMeaning(sat: Verdict, s: Members, value: Json)
    ensures AllHold(sat, AnyOfChecks(s, value)) <==> AnyOfHolds(sat, s, value)
  {
    var branches := GetItems(s, "anyOf");
    if |branches| > 0 {
      var visits := SameValue(branches, value);
      CountIsCardinality(sat, visits);
      var matched := SatisfiedAt(sat, visits);
      OneHolds(sat, AnyOfChecks(s, value)[0]);
      if |matched| >= 1 {
        var i :| i in matched;
        assert sat(branches[i], value);
      } else {
        assert matched == {};
        forall i | 0 <= i < |branches| ensures !sat(branches[i], value) { assert i !in matched; }
      }
    }
  }

  lemma OneOfMeaning(sat: Verdict, s: Members, value: Json)
    ensures AllHold(sat, OneOfChecks(s, value)) <==> OneOfHolds(sat, s, value)
  {
    var branches := GetItems(s, "oneOf");
    if |branches| > 0 {
      var visits := SameValue(branches, value);
      CountIsCardinality(sat, visits);
      var matched := SatisfiedAt(sat, visits);
      OneHolds(sat, OneOfChecks(s, value)[0]);
      ExactlyOne(sat, branches, value, matched);
    }
  }

  lemma ExactlyOne(sat: Verdict, branches: seq<Json>, value: Json, matched: set<nat>)
    requires forall i: nat :: i in matched <==> i < |branches| && sat(branches[i], value)
    ensures |matched| == 1 <==>
      exists i | 0 <= i < |branches| ::
        sat(branches[i], value) && forall j | 0 <= j < |branches| && j != i :: !sat(branches[j], value)
  {
    if |matched| == 1 {
      var i :| i in matched;
      assert |matched - {i}| == 0;
      assert matched == {i};
    }
    if i :| 0 <= i < |branches| && sat(branches[i], value)
            && forall j | 0 <= j < |branches| && j != i :: !sat(branches[j], value) {
      assert matched == {i};
    }
  }

  lemma NotMeaning(sat: Verdict, s: Members, value: Json)
    ensures AllHold(sat, NotChecks(s, value)) <==> NotHolds(sat, s, value)
  {
    if "not" in Keys(s) {
      var visits := [Visit(Lookup(s, "not"), value, [], false)];
      assert visits[..0] == [];
      assert CountSatisfied(sat, visits) == if sat(Lookup(s, "not"), value) then 1 else 0;
      OneHolds(sat, NotChecks(s, value)[0]);
    }
  }

  lemma CompositionMeaning(sat: Verdict, s: Members, value: Json)
    ensures AllHold(sat, CompositionChecks(s, value)) <==> CompositionHolds(sat, s, value)
  {
    var all, any := EachOf(SameValue(GetItems(s, "allOf"), value)), AnyOfChecks(s, value);
    var one, neg := OneOfChecks(s, value), NotChecks(s, value);
    HoldAppend(sat, all, any);
    HoldAppend(sat, all + any, one);
    HoldAppend(sat, all + any + one, neg);
    AllOfMeaning(sat, s, value);
    AnyOfMeaning(sat, s, value);
    OneOfMeaning(sat, s, value);
    NotMeaning(sat, s, value);
  }

  lemma {:induction false} MissingMeaning(sat: Verdict, required: seq<Json>, value: Members, code: string, n: nat)
    requires n <= |required|
    ensures AllHold(sat, MissingChecks(required, value, code, n)) <==> AllPresent(required[..n], value)
  {
    if n > 0 {
      var key := required[n - 1];
      var last := if key.Str? then When(key.s !in Keys(value), code, [Key(key.s)]) else [];
      MissingMeaning(sat, required, value, code, n - 1);
      HoldAppend(sat, MissingChecks(required, value, code, n - 1), last);
      if key.Str? { WhenHolds(sat, key.s !in Keys(value), code, [Key(key.s)]); }
      assert required[..n] == required[..n - 1] + [key];
      assert AllPresent(required[..n], value) <==>
        AllPresent(required[..n - 1], value) && (key.Str? ==> key.s in Keys(value)) by {
        assert required[..n][n - 1] == key;
        assert forall i | 0 <= i < n - 1 :: required[..n][i] == required[..n - 1][i];
      }
    }
  }

  lemma {:induction false} DependentMeaning(sat: Verdict, dependent: Members, value: Members, n: nat)
    requires n <= |dependent|
    ensures AllHold(sat, DependentChecks(dependent, value, n)) <==> DependentsPresent(dependent, value, n)
  {
    if n > 0 {
      DependentMeaning(sat, dependent, value, n - 1);
      var item := dependent[n - 1].value;
      if dependent[n - 1].key in Keys(value) && item.Arr? {
        MissingMeaning(sat, item.items, value, "dependent_required_property", |item.items|);
        assert item.items[..|item.items|] == item.items;
        HoldAppend(sat, DependentChecks(dependent, value, n - 1),
          MissingChecks(item.items, value, "dependent_required_property", |item.items|));
      } else {
        HoldAppend(sat, DependentChecks(dependent, value, n - 1), []);
      }
    }
  }

  lemma {:induction false} PropertyMeaning(sat: Verdict, properties: Members, value: Members, n: nat)
    requires n <= |properties|
    ensures AllHold(sat, PropertyChecks(properties, value, n)) <==>
      forall i | 0 <= i < n ::
        properties[i].key in Keys(value) ==> sat(properties[i].value, Lookup(value, properties[i].key))
  {
    if n > 0 {
      PropertyMeaning(sat, properties, value, n - 1);
      var p := properties[n - 1];
      if p.key in Keys(value) {
        var visit := Visit(p.value, Lookup(value, p.key), [Key(p.key)], true);
        HoldAppend(sat, PropertyChecks(properties, value, n - 1), [Each(visit)]);
        OneHolds(sat, Each(visit));
      } else {
        HoldAppend(sat, PropertyChecks(properties, value, n - 1), []);
      }
    }
  }

  lemma {:induction false} MatchingMeaning(sat: Verdict, search: string -> bool, schema: Json, value: Members, n: nat)
    requires n <= |value|
    ensures AllHold(sat, MatchingChecks(search, schema, value, n)) <==>
      forall j | 0 <= j < n :: search(value[j].key) ==> sat(schema, value[j].value)
  {
    if n > 0 {
      MatchingMeaning(sat, search, schema, value, n - 1);
      var m := value[n - 1];
      if search(m.key) {
        var visit := Visit(schema, m.value, [Key(m.key)], true);
        HoldAppend(sat, MatchingChecks(search, schema, value, n - 1), [Each(visit)]);
        OneHolds(sat, Each(visit));
      } else {
        HoldAppend(sat, MatchingChecks(search, schema, value, n - 1), []);
      }
    }
  }

  lemma {:induction false} PatternMeaning(library: Library, sat: Verdict, patterns: Members, value: Members, n: nat)
    requires n <= |patterns|
    ensures AllHold(sat, PatternChecks(library, patterns, value, n)) <==>
      AllFoundHold(library, sat, patterns[..n], value)
  {
    if n > 0 {
      PatternMeaning(library, sat, patterns, value, n - 1);
      var pattern := patterns[n - 1];
      var compiled := library.compile(pattern.key);
      var last := if compiled.None? then [] else MatchingChecks(compiled.value, pattern.value, value, |value|);
      HoldAppend(sat, PatternChecks(library, patterns, value, n - 1), last);
      if compiled.Some? { MatchingMeaning(sat, compiled.value, pattern.value, value, |value|); }
      assert AllHold(sat, last) <==>
        forall j | 0 <= j < |value| ::
          Found(library, pattern.key, value[j].key) ==> sat(pattern.value, value[j].value);
      assert patterns[..n] == patterns[..n - 1] + [pattern];
      PatternsSplit(library, sat, patterns[..n - 1], pattern, value);
    }
  }

  lemma PatternsSplit(library: Library, sat: Verdict, front: Members, last: Member, value: Members)
    ensures AllFoundHold(library, sat, front + [last], value) <==>
      && AllFoundHold(library, sat, front, value)
      && forall j | 0 <= j < |value| ::
           Found(library, last.key, value[j].key) ==> sat(last.value, value[j].value)
  {
    var all := front + [last];
    assert forall i | 0 <= i < |front| :: all[i] == front[i];
    assert all[|front|] == last;
  }

  lemma NameMeaning(sat: Verdict, s: Members, value: Members)
    ensures AllHold(sat, NameChecks(s, value)) <==> NamesHold(sat, s, value)
  {
    var names := GetNonNull(s, "propertyNames");
    if names.Some? {
      var checks := NameChecks(s, value);
      assert forall j | 0 <= j < |value| :: CheckHolds(sat, checks[j]) <==> sat(names.value, Str(value[j].key));
    }
  }

  lemma ExtraMeaning(library: Library, s: Members, key: string)
    ensures Extra(library, s, key) <==> !IsNamed(library, s, key)
  {
    match Get(s, "patternProperties")
    case Some(Obj(patterns)) =>
      forall i | 0 <= i < |patterns|
        ensures PatternMatches(library, patterns[i].key, key) <==> Found(library, patterns[i].key, key)
      {}
    case _ =>
  }

  lemma {:induction false} AdditionalMeaning(library: Library, sat: Verdict, s: Members, value: Members, n: nat)
    requires n <= |value|
    requires Get(s, "additionalProperties").Some? && Get(s, "additionalProperties") != Some(Bool(true))
    ensures AllHold(sat, AdditionalChecks(library, s, value, n)) <==>
      forall j | 0 <= j < n ::
        IsNamed(library, s, value[j].key) ||
          var additional := Get(s, "additionalProperties").value;
          additional != Bool(false) && sat(additional, value[j].value)
  {
    if n > 0 {
      hide IsNamed, Extra, AllHold, Get;
      AdditionalMeaning(library, sat, s, value, n - 1);
      var additional := Get(s, "additionalProperties").value;
      var m := value[n - 1];
      var front := AdditionalChecks(library, s, value, n - 1);
      ExtraMeaning(library, s, m.key);
      if !Extra(library, s, m.key) {
        assert front + [] == front;
      } else if additional == Bool(false) {
        var last := Fail(Issue("additional_property", [Key(m.key)]));
        HoldAppend(sat, front, [last]);
        OneHolds(sat, last);
      } else {
        var visit := Visit(additional, m.value, [Key(m.key)], true);
        HoldAppend(sat, front, [Each(visit)]);
        OneHolds(sat, Each(visit));
      }
    }
  }

  lemma ExtraKeysMeaning(library: Library, sat: Verdict, s: Members, value: Members)
    ensures AllHold(sat, AdditionalChecks(library, s, value, |value|)) <==> AdditionalHolds(library, sat, s, value)
  {
    hide IsNamed, Extra;
    if Get(s, "additionalProperties").Some? && Get(s, "additionalProperties") != Some(Bool(true)) {
      AdditionalMeaning(library, sat, s, value, |value|);
    }
  }

  lemma RequiredMeaning(sat: Verdict, s: Members, value: Members)
    ensures var required := GetItems(s, "required");
      AllHold(sat, MissingChecks(required, value, "required_property", |required|))
      <==> RequiredHolds(s, value)
  {
    hide MissingChecks, AllHold, AllPresent;
    var required := GetItems(s, "required");
    MissingMeaning(sat, required, value, "required_property", |required|);
    assert required[..|required|] == required;
    NothingRequired(value);
  }

  lemma NothingRequired(value: Members)
    ensures AllPresent([], value) && DependentsPresent([], value, 0)
  {}

  lemma DependentKeywordMeaning(sat: Verdict, s: Members, value: Members)
    ensures var dependent := GetMembers(s, "dependentRequired");
      AllHold(sat, DependentChecks(dependent, value, |dependent|))
      <==> DependentRequiredHolds(s, value)
  {
    hide DependentChecks, AllHold, DependentsPresent;
    var dependent := GetMembers(s, "dependentRequired");
    DependentMeaning(sat, dependent, value, |dependent|);
    NothingRequired(value);
  }

  lemma RequirementsMeaning(sat: Verdict, s: Members, value: Members)
    ensures var required, dependent := GetItems(s, "required"), GetMembers(s, "dependentRequired");
      var least, most := GetInt(s, "minProperties"), GetInt(s, "maxProperties");
      AllHold(sat, MissingChecks(required, value, "required_property", |required|)
                   + DependentChecks(dependent, value, |dependent|)
                   + When(least.Some? && |value| < least.value, "min_properties", [])
                   + When(most.Some? && |value| > most.value, "max_properties", []))
      <==> RequirementsHold(s, value)
  {
    var required, dependent := GetItems(s, "required"), GetMembers(s, "dependentRequired");
    var least, most := GetInt(s, "minProperties"), GetInt(s, "maxProperties");
    var few, many := least.Some? && |value| < least.value, most.Some? && |value| > most.value;
    RequiredMeaning(sat, s, value);
    DependentKeywordMeaning(sat, s, value);
    hide MissingChecks, DependentChecks, AllHold, AllPresent, DependentsPresent, When, GetItems, GetMembers;
    var a := MissingChecks(required, value, "required_property", |required|);
    var b := a + DependentChecks(dependent, value, |dependent|);
    HoldAppend(sat, a, DependentChecks(dependent, value, |dependent|));
    WhenHolds(sat, few, "min_properties", []);
    HoldAppend(sat, b, When(few, "min_properties", []));
    WhenHolds(sat, many, "max_properties", []);
    HoldAppend(sat, b + When(few, "min_properties", []), When(many, "max_properties", []));
  }

  lemma PropertiesMeaning(sat: Verdict, s: Members, value: Members)
    ensures var properties := GetMembers(s, "properties");
      AllHold(sat, PropertyChecks(properties, value, |properties|))
      <==> PropertiesHold(sat, s, value)
  {
    hide AllHold;
    var properties := GetMembers(s, "properties");
    PropertyMeaning(sat, properties, value, |properties|);
  }

  lemma PatternKeywordMeaning(library: Library, sat: Verdict, s: Members, value: Members)
    ensures var patterns := GetMembers(s, "patternProperties");
      AllHold(sat, PatternChecks(library, patterns, value, |patterns|))
      <==> PatternsHold(library, sat, s, value)
  {
    hide AllHold, Found;
    var patterns := GetMembers(s, "patternProperties");
    PatternMeaning(library, sat, patterns, value, |patterns|);
    assert patterns[..|patterns|] == patterns;
  }

  lemma ObjectMeaning(library: Library, sat: Verdict, s: Members, value: Members)
    ensures AllHold(sat, ObjectChecks(library, s, value)) <==> ObjectHolds(library, sat, s, value)
  {
    var required, dependent := GetItems(s, "required"), GetMembers(s, "dependentRequired");
    var properties, patterns := GetMembers(s, "properties"), GetMembers(s, "patternProperties");
    var least, most := GetInt(s, "minProperties"), GetInt(s, "maxProperties");
    hide MissingChecks, DependentChecks, PropertyChecks, PatternChecks, NameChecks, AdditionalChecks, NamesHold,
      AllHold, AdditionalHolds, PropertiesHold, PatternsHold, RequirementsHold, When, GetItems, GetMembers, GetInt;
    var d := MissingChecks(required, value, "required_property", |required|)
             + DependentChecks(dependent, value, |dependent|)
             + When(least.Some? && |value| < least.value, "min_properties", [])
             + When(most.Some? && |value| > most.value, "max_properties", []);
    var e := d + PropertyChecks(properties, value, |properties|);
    var f := e + PatternChecks(library, patterns, value, |patterns|);
    RequirementsMeaning(sat, s, value);
    PropertiesMeaning(sat, s, value);
    HoldAppend(sat, d, PropertyChecks(properties, value, |properties|));
    PatternKeywordMeaning(library, sat, s, value);
    HoldAppend(sat, e, PatternChecks(library, patterns, value, |patterns|));
    NameMeaning(sat, s, value);
    HoldAppend(sat, f, NameChecks(s, value));
    HoldAppend(sat, f + NameChecks(s, value), AdditionalChecks(library, s, value, |value|));
    ExtraKeysMeaning(library, sat, s, value);
  }

  // ---------------------------------------------------------------- uniqueItems

  lemma JsonEqualIsEquivalence()
    ensures Equivalence(JsonEqual)
  {
    forall x: Json ensures JsonEqual(x, x) { EqualReflexive(true, x); }
    forall x: Json, y: Json | JsonEqual(x, y) ensures JsonEqual(y, x) { EqualSymmetric(true, x, y); }
    forall x: Json, y: Json, z: Json | JsonEqual(x, y) && JsonEqual(y, z) ensures JsonEqual(x, z) {
      EqualTransitive(true, x, y, z);
    }
  }

  lemma {:induction false} DuplicatesAreRepeats(sat: Verdict, items: seq<Json>, n: nat)
    requires n <= |items|
    ensures |DuplicateChecks(items, n)| == |Repeats(JsonEqual, items, n)|
    ensures AllHold(sat, DuplicateChecks(items, n)) <==> Repeats(JsonEqual, items, n) == []
  {
    if n > 0 {
      DuplicatesAreRepeats(sat, items, n - 1);
      var repeated := EqualsOneOf(JsonEqual, items[n - 1], Seen(JsonEqual, items, n - 1));
      HoldAppend(sat, DuplicateChecks(items, n - 1), When(repeated, "unique_items", [Index(n - 1)]));
      WhenHolds(sat, repeated, "unique_items", [Index(n - 1)]);
    }
  }

  lemma UniqueMeaning(sat: Verdict, items: seq<Json>)
    ensures AllHold(sat, DuplicateChecks(items, |items|)) <==>
      forall i, j | 0 <= i < j < |items| :: !JsonEqual(items[j], items[i])
  {
    JsonEqualIsEquivalence();
    EquivalencesAreFaithful(JsonEqual, items);
    DuplicatesAreRepeats(sat, items, |items|);
    NoRepeatsMeansDistinct(JsonEqual, items, |items|);
    assert items[..|items|] == items;
  }

  /** `uniqueItems` reports the number of items less the number of classes of equal items. */
  lemma DuplicatesCounted(items: seq<Json>)
    ensures |DuplicateChecks(items, |items|)| == |items| - |Classes(JsonEqual, items, |items|)|
  {
    JsonEqualIsEquivalence();
    RepeatsCounted(JsonEqual, items);
    DuplicatesAreRepeats((x, y) => true, items, |items|);
  }

  // ---------------------------------------------------------------- arrays, strings, numbers

  lemma PrefixMeaning(sat: Verdict, s: Members, items: seq<Json>)
    ensures AllHold(sat, PrefixChecks(GetItems(s, "prefixItems"), items)) <==> PrefixHolds(sat, s, items)
  {
    var prefix := GetItems(s, "prefixItems");
    var checks := PrefixChecks(prefix, items);
    assert forall i | 0 <= i < |checks| :: CheckHolds(sat, checks[i]) <==> sat(prefix[i], items[i]);
  }

  lemma ItemsMeaning(sat: Verdict, s: Members, items: seq<Json>)
    ensures AllHold(sat, ItemsChecks(s, items)) <==> ItemsHold(sat, s, items)
  {
    var schema := GetNonNull(s, "items");
    if schema.Some? { RestMeaning(sat, schema.value, items, |GetItems(s, "prefixItems")|); }
  }

  lemma RestMeaning(sat: Verdict, schema: Json, items: seq<Json>, from: nat)
    ensures AllHold(sat, RestChecks(schema, items, from)) <==> forall i | from <= i < |items| :: sat(schema, items[i])
  {
    var checks := RestChecks(schema, items, from);
    assert forall i | 0 <= i < |checks| :: CheckHolds(sat, checks[i]) <==> sat(schema, items[from + i]);
    if AllHold(sat, checks) {
      forall i | from <= i < |items| ensures sat(schema, items[i]) { assert CheckHolds(sat, checks[i - from]); }
    }
  }

  lemma ContainsMeaning(sat: Verdict, s: Members, items: seq<Json>)
    ensures AllHold(sat, ContainsChecks(s, items)) <==> ContainsHolds(sat, s, items)
  {
    var schema := GetNonNull(s, "contains");
    if schema.Some? {
      var visits := ItemVisits(schema.value, items);
      CountIsCardinality(sat, visits);
      assert Satisfying(sat, schema.value, items) == SatisfiedAt(sat, visits);
      OneHolds(sat, ContainsChecks(s, items)[0]);
    }
  }

  lemma ArrayMeaning(sat: Verdict, s: Members, items: seq<Json>)
    ensures AllHold(sat, ArrayChecks(s, items)) <==> ArrayHolds(sat, s, items)
  {
    var least, most := GetInt(s, "minItems"), GetInt(s, "maxItems");
    var few, many := least.Some? && |items| < least.value, most.Some? && |items| > most.value;
    var a := When(few, "min_items", []);
    var b := a + When(many, "max_items", []);
    var c := b + UniqueChecks(s, items);
    var d := c + PrefixChecks(GetItems(s, "prefixItems"), items);
    WhenHolds(sat, few, "min_items", []);
    WhenHolds(sat, many, "max_items", []);
    UniqueMeaning(sat, items);
    PrefixMeaning(sat, s, items);
    ItemsMeaning(sat, s, items);
    ContainsMeaning(sat, s, items);
    HoldAppend(sat, a, When(many, "max_items", []));
    HoldAppend(sat, b, UniqueChecks(s, items));
    HoldAppend(sat, c, PrefixChecks(GetItems(s, "prefixItems"), items));
    HoldAppend(sat, d, ItemsChecks(s, items));
    HoldAppend(sat, d + ItemsChecks(s, items), ContainsChecks(s, items));
  }

  lemma StringMeaning(library: Library, sat: Verdict, s: Members, text: string)
    ensures AllHold(sat, StringChecks(library, s, text)) <==> StringHolds(library, s, text)
  {
    var least, most := GetInt(s, "minLength"), GetInt(s, "maxLength");
    var a := When(least.Some? && |text| < least.value, "min_length", []);
    var b := When(most.Some? && |text| > most.value, "max_length", []);
    WhenHolds(sat, least.Some? && |text| < least.value, "min_length", []);
    WhenHolds(sat, most.Some? && |text| > most.value, "max_length", []);
    WhenHolds(sat, PatternMismatch(library, s, text), "pattern_mismatch", []);
    HoldAppend(sat, a, b);
    HoldAppend(sat, a + b, When(PatternMismatch(library, s, text), "pattern_mismatch", []));
  }

  lemma BoundMeaning(s: Members, key: string)
    ensures forall bound: real :: IsBound(s, key, bound) <==> Limit(s, key) == Some(bound)
  {}

  lemma FarMeaning(q: real)
    ensures FarFromInteger(q) <==> !NearInteger(q)
  {
    var low := q.Floor;
    assert IsNear(q, low) || IsNear(q, low + 1) || FarFromInteger(q);
    forall k: int | IsNear(q, k) ensures !FarFromInteger(q) {
      if k <= low { assert k as real <= low as real; } else { assert k as real >= low as real + 1.0; }
    }
  }

  lemma MultipleMeaning(s: Members, number: real)
    ensures MultipleMismatch(s, number)
      <==> exists bound: real :: IsBound(s, "multipleOf", bound) && bound > 0.0 && !NearInteger(number / bound)
  {
    BoundMeaning(s, "multipleOf");
    hide IsBound, NearInteger, Limit, FarFromInteger;
    var step := Limit(s, "multipleOf");
    if step.Some? && step.value > 0.0 { FarMeaning(number / step.value); }
  }

  lemma NumberMeaning(sat: Verdict, s: Members, number: real)
    ensures AllHold(sat, NumberChecks(s, number)) <==> NumberHolds(s, number)
  {
    var least, most := Limit(s, "minimum"), Limit(s, "maximum");
    var above, below := Limit(s, "exclusiveMinimum"), Limit(s, "exclusiveMaximum");
    hide Limit, MultipleMismatch, AllHold, When, IsBound, NearInteger;
    var small, large := least.Some? && number < least.value, most.Some? && number > most.value;
    var low, high := above.Some? && number <= above.value, below.Some? && number >= below.value;
    var a, b := When(small, "minimum", []), When(large, "maximum", []);
    var c, d := When(low, "exclusive_minimum", []), When(high, "exclusive_maximum", []);
    WhenHolds(sat, small, "minimum", []);
    WhenHolds(sat, large, "maximum", []);
    WhenHolds(sat, low, "exclusive_minimum", []);
    WhenHolds(sat, high, "exclusive_maximum", []);
    WhenHolds(sat, MultipleMismatch(s, number), "multiple_of", []);
    HoldAppend(sat, a, b);
    HoldAppend(sat, a + b, c);
    HoldAppend(sat, a + b + c, d);
    HoldAppend(sat, a + b + c + d, When(MultipleMismatch(s, number), "multiple_of", []));
    BoundsMeaning(s, number);
  }

  lemma BoundsMeaning(s: Members, number: real)
    ensures NumberHolds(s, number) <==>
      && (Limit(s, "minimum").Some? ==> number >= Limit(s, "minimum").value)
      && (Limit(s, "maximum").Some? ==> number <= Limit(s, "maximum").value)
      && (Limit(s, "exclusiveMinimum").Some? ==> number > Limit(s, "exclusiveMinimum").value)
      && (Limit(s, "exclusiveMaximum").Some? ==> number < Limit(s, "exclusiveMaximum").value)
      && !MultipleMismatch(s, number)
  {
    BoundMeaning(s, "minimum");
    BoundMeaning(s, "maximum");
    BoundMeaning(s, "exclusiveMinimum");
    BoundMeaning(s, "exclusiveMaximum");
    MultipleMeaning(s, number);
    hide Limit, MultipleMismatch, IsBound, NearInteger;
  }

  lemma ValueMeaning(library: Library, sat: Verdict, s: Members, value: Json)
    ensures AllHold(sat, ValueChecks(library, s, value)) <==> ValueHolds(library, sat, s, value)
  {
    match value
    case Obj(members) => ObjectMeaning(library, sat, s, members);
    case Arr(items) => ArrayMeaning(sat, s, items);
    case Str(text) => StringMeaning(library, sat, s, text);
    case Int(i) => NumberMeaning(sat, s, i as real);
    case Float(x) => NumberMeaning(sat, s, x);
    case _ =>
  }

  /** The checks of a node say what its keywords say, whatever the verdicts of the subschemas. */
  lemma ChecksMeaning(library: Library, sat: Verdict, s: Members, value: Json)
    ensures AllHold(sat, Checks(library, s, value)) <==>
      CompositionHolds(sat, s, value) && ValueHolds(library, sat, s, value)
  {
    CompositionMeaning(sat, s, value);
    ValueMeaning(library, sat, s, value);
    HoldAppend(sat, CompositionChecks(s, value), ValueChecks(library, s, value));
  }
}
