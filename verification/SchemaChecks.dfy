/**
  What one schema node asks of one value, as a list of checks in the order the validator performs
  them. `SchemaIssues` runs the checks; `SchemaSemantics` states independently what they mean.
  */
module SchemaChecks {
  import opened Wrappers
  import opened JsonValues
  import opened JsonPointer
  import opened DistinctItems

  /** Python's `re` (None for a pattern it cannot compile) and the pointer decoders. */
  datatype Library = Library(compile: string -> Option<string -> bool>, decoders: Decoders)

  datatype Document = Document(root: Json, library: Library)

  datatype Issue = Issue(code: string, path: seq<Segment>)

  /** A subschema to be tried on a value: a part of the current one if `consumes`, else the same value. */
  datatype Visit = Visit(schema: Json, value: Json, at: seq<Segment>, consumes: bool)

  datatype Check =
    | Fail(issue: Issue)
    | Each(visit: Visit)
    | Count(visits: seq<Visit>, least: int, most: Option<int>, tooFew: string, tooMany: string)

  function VisitsOf(check: Check): seq<Visit> {
    match check
    case Fail(_) => []
    case Each(visit) => [visit]
    case Count(visits, _, _, _, _) => visits
  }

  // ---------------------------------------------------------------- keyword access

  /** `schema.get(key)`, which cannot tell null from absent. */
  function GetNonNull(s: Members, key: string): Option<Json> {
    if Get(s, key) == Some(Null) then None else Get(s, key)
  }

  function GetInt(s: Members, key: string): Option<int> {
    match Get(s, key)
    case Some(Int(n)) => Some(n)
    case _ => None
  }

  function GetItems(s: Members, key: string): seq<Json> {
    match Get(s, key)
    case Some(Arr(items)) => items
    case _ => []
  }

  function GetMembers(s: Members, key: string): Members {
    match Get(s, key)
    case Some(Obj(members)) => members
    case _ => []
  }

  function Limit(s: Members, key: string): Option<real> {
    match Get(s, key)
    case Some(Int(n)) => Some(n as real)
    case Some(Float(x)) => Some(x)
    case _ => None
  }

  function When(condition: bool, code: string, at: seq<Segment>): seq<Check> {
    if condition then [Fail(Issue(code, at))] else []
  }

  // ---------------------------------------------------------------- types

  function ExpectedTypes(declared: Option<Json>): seq<string> {
    match declared
    case Some(Str(name)) => [name]
    case Some(Arr(items)) => StringsIn(items)
    case _ => []
  }

  function StringsIn(items: seq<Json>): seq<string> {
    if |items| == 0 then []
    else StringsIn(items[..|items| - 1]) + (if items[|items| - 1].Str? then [items[|items| - 1].s] else [])
  }

  /** An unknown type name matches everything. */
  predicate MatchesType(value: Json, expected: string) {
    if expected == "object" then value.Obj?
    else if expected == "array" then value.Arr?
    else if expected == "string" then value.Str?
    else if expected == "integer" then value.Int?
    else if expected == "number" then value.Int? || value.Float?
    else if expected == "boolean" then value.Bool?
    else if expected == "null" then value.Null?
    else true
  }

  predicate TypeMismatch(s: Members, value: Json) {
    var expected := ExpectedTypes(Get(s, "type"));
    |expected| > 0 && !exists t | t in expected :: MatchesType(value, t)
  }

  predicate ConstMismatch(s: Members, value: Json) {
    "const" in Keys(s) && !JsonEqual(value, Lookup(s, "const"))
  }

  predicate EnumMismatch(s: Members, value: Json) {
    && Get(s, "enum").Some? && Get(s, "enum").value.Arr?
    && !exists x | x in GetItems(s, "enum") :: JsonEqual(value, x)
  }

  // ---------------------------------------------------------------- composition

  function SameValue(schemas: seq<Json>, value: Json): seq<Visit> {
    seq(|schemas|, i requires 0 <= i < |schemas| => Visit(schemas[i], value, [], false))
  }

  function EachOf(visits: seq<Visit>): seq<Check> {
    seq(|visits|, i requires 0 <= i < |visits| => Each(visits[i]))
  }

  function AnyOfChecks(s: Members, value: Json): seq<Check> {
    var branches := GetItems(s, "anyOf");
    if |branches| == 0 then [] else [Count(SameValue(branches, value), 1, None, "any_of_mismatch", "")]
  }

  function OneOfChecks(s: Members, value: Json): seq<Check> {
    var branches := GetItems(s, "oneOf");
    if |branches| == 0 then []
    else [Count(SameValue(branches, value), 1, Some(1), "one_of_mismatch", "one_of_ambiguous")]
  }

  function NotChecks(s: Members, value: Json): seq<Check> {
    if "not" in Keys(s) then
      [Count([Visit(Lookup(s, "not"), value, [], false)], 0, Some(0), "", "not_mismatch")]
    else []
  }

  function CompositionChecks(s: Members, value: Json): seq<Check> {
    EachOf(SameValue(GetItems(s, "allOf"), value))
    + AnyOfChecks(s, value) + OneOfChecks(s, value) + NotChecks(s, value)
  }

  // ---------------------------------------------------------------- objects

  function MissingChecks(required: seq<Json>, value: Members, code: string, n: nat): seq<Check>
    requires n <= |required|
  {
    if n == 0 then []
    else
      var key := required[n - 1];
      MissingChecks(required, value, code, n - 1)
      + (if key.Str? then When(key.s !in Keys(value), code, [Key(key.s)]) else [])
  }

  function DependentChecks(dependencies: Members, value: Members, n: nat): seq<Check>
    requires n <= |dependencies|
  {
    if n == 0 then []
    else
      var dependency := dependencies[n - 1];
      DependentChecks(dependencies, value, n - 1)
      + if dependency.key in Keys(value) && dependency.value.Arr? then
          MissingChecks(dependency.value.items, value, "dependent_required_property", |dependency.value.items|)
        else []
  }

  function PropertyChecks(properties: Members, value: Members, n: nat): seq<Check>
    requires n <= |properties|
  {
    if n == 0 then []
    else
      var p := properties[n - 1];
      PropertyChecks(properties, value, n - 1)
      + if p.key in Keys(value) then [Each(Visit(p.value, Lookup(value, p.key), [Key(p.key)], true))] else []
  }

  /** The keys of the first `n` items that one compiled pattern matches. */
  function MatchingChecks(search: string -> bool, schema: Json, value: Members, n: nat): seq<Check>
    requires n <= |value|
  {
    if n == 0 then []
    else
      var m := value[n - 1];
      MatchingChecks(search, schema, value, n - 1)
      + if search(m.key) then [Each(Visit(schema, m.value, [Key(m.key)], true))] else []
  }

  function PatternChecks(library: Library, patterns: Members, value: Members, n: nat): seq<Check>
    requires n <= |patterns|
  {
    if n == 0 then []
    else
      var compiled := library.compile(patterns[n - 1].key);
      PatternChecks(library, patterns, value, n - 1)
      + if compiled.None? then []
        else MatchingChecks(compiled.value, patterns[n - 1].value, value, |value|)
  }

  predicate PatternMatches(library: Library, pattern: string, key: string) {
    var compiled := library.compile(pattern);
    compiled.Some? && compiled.value(key)
  }

  predicate Matched(library: Library, patterns: Members, key: string) {
    exists i | 0 <= i < |patterns| :: PatternMatches(library, patterns[i].key, key)
  }

  function NameChecks(s: Members, value: Members): seq<Check> {
    match GetNonNull(s, "propertyNames")
    case None => []
    case Some(names) =>
      seq(|value|, i requires 0 <= i < |value| => Each(Visit(names, Str(value[i].key), [Key(value[i].key)], true)))
  }

  predicate Extra(library: Library, s: Members, key: string) {
    key !in Keys(GetMembers(s, "properties")) && !Matched(library, GetMembers(s, "patternProperties"), key)
  }

  function AdditionalChecks(library: Library, s: Members, value: Members, n: nat): seq<Check>
    requires n <= |value|
  {
    var additional := Get(s, "additionalProperties");
    if n == 0 || additional.None? || additional == Some(Bool(true)) then []
    else
      var m := value[n - 1];
      AdditionalChecks(library, s, value, n - 1)
      + if !Extra(library, s, m.key) then []
        else if additional.value == Bool(false) then [Fail(Issue("additional_property", [Key(m.key)]))]
        else [Each(Visit(additional.value, m.value, [Key(m.key)], true))]
  }

  function ObjectChecks(library: Library, s: Members, value: Members): seq<Check> {
    var required := GetItems(s, "required");
    var dependent := GetMembers(s, "dependentRequired");
    var least, most := GetInt(s, "minProperties"), GetInt(s, "maxProperties");
    var properties, patterns := GetMembers(s, "properties"), GetMembers(s, "patternProperties");
    MissingChecks(required, value, "required_property", |required|)
    + DependentChecks(dependent, value, |dependent|)
    + When(least.Some? && |value| < least.value, "min_properties", [])
    + When(most.Some? && |value| > most.value, "max_properties", [])
    + PropertyChecks(properties, value, |properties|)
    + PatternChecks(library, patterns, value, |patterns|)
    + NameChecks(s, value)
    + AdditionalChecks(library, s, value, |value|)
  }

  // ---------------------------------------------------------------- arrays

  function DuplicateChecks(items: seq<Json>, n: nat): seq<Check>
    requires n <= |items|
  {
    if n == 0 then []
    else
      DuplicateChecks(items, n - 1)
      + When(EqualsOneOf(JsonEqual, items[n - 1], Seen(JsonEqual, items, n - 1)), "unique_items", [Index(n - 1)])
  }

  function UniqueChecks(s: Members, items: seq<Json>): seq<Check> {
    if Get(s, "uniqueItems") == Some(Bool(true)) then DuplicateChecks(items, |items|) else []
  }

  function Min(a: nat, b: nat): nat { if a <= b then a else b }

  function PrefixChecks(prefix: seq<Json>, items: seq<Json>): seq<Check> {
    seq(Min(|prefix|, |items|), i requires 0 <= i < Min(|prefix|, |items|) =>
      Each(Visit(prefix[i], items[i], [Index(i)], true)))
  }

  /** `items` applied from index `from` on. */
  function RestChecks(schema: Json, items: seq<Json>, from: nat): seq<Check> {
    seq(if from <= |items| then |items| - from else 0, i requires 0 <= i < |items| - from =>
      Each(Visit(schema, items[from + i], [Index(from + i)], true)))
  }

  function ItemsChecks(s: Members, items: seq<Json>): seq<Check> {
    match GetNonNull(s, "items")
    case None => []
    case Some(schema) => RestChecks(schema, items, |GetItems(s, "prefixItems")|)
  }

  function ItemVisits(schema: Json, items: seq<Json>): seq<Visit> {
    seq(|items|, i requires 0 <= i < |items| => Visit(schema, items[i], [Index(i)], true))
  }

  function MinContains(s: Members): int {
    if GetInt(s, "minContains").Some? then GetInt(s, "minContains").value else 1
  }

  function ContainsChecks(s: Members, items: seq<Json>): seq<Check> {
    match GetNonNull(s, "contains")
    case None => []
    case Some(schema) =>
      [Count(ItemVisits(schema, items), MinContains(s), GetInt(s, "maxContains"), "contains", "max_contains")]
  }

  function ArrayChecks(s: Members, items: seq<Json>): seq<Check> {
    var least, most := GetInt(s, "minItems"), GetInt(s, "maxItems");
    When(least.Some? && |items| < least.value, "min_items", [])
    + When(most.Some? && |items| > most.value, "max_items", [])
    + UniqueChecks(s, items)
    + PrefixChecks(GetItems(s, "prefixItems"), items)
    + ItemsChecks(s, items)
    + ContainsChecks(s, items)
  }

  // ---------------------------------------------------------------- strings and numbers

  predicate PatternMismatch(library: Library, s: Members, value: string) {
    match Get(s, "pattern")
    case Some(Str(pattern)) =>
      var compiled := library.compile(pattern);
      compiled.Some? && !compiled.value(value)
    case _ => false
  }

  function StringChecks(library: Library, s: Members, value: string): seq<Check> {
    var least, most := GetInt(s, "minLength"), GetInt(s, "maxLength");
    When(least.Some? && |value| < least.value, "min_length", [])
    + When(most.Some? && |value| > most.value, "max_length", [])
    + When(PatternMismatch(library, s, value), "pattern_mismatch", [])
  }

  /** `abs(q - round(q)) > 1e-9`, over exact numbers. */
  predicate FarFromInteger(q: real) {
    var f := q - q.Floor as real;
    f > 0.000000001 && 1.0 - f > 0.000000001
  }

  predicate MultipleMismatch(s: Members, value: real) {
    var step := Limit(s, "multipleOf");
    step.Some? && step.value > 0.0 && FarFromInteger(value / step.value)
  }

  function NumberChecks(s: Members, value: real): seq<Check> {
    var least, most := Limit(s, "minimum"), Limit(s, "maximum");
    var above, below := Limit(s, "exclusiveMinimum"), Limit(s, "exclusiveMaximum");
    When(least.Some? && value < least.value, "minimum", [])
    + When(most.Some? && value > most.value, "maximum", [])
    + When(above.Some? && value <= above.value, "exclusive_minimum", [])
    + When(below.Some? && value >= below.value, "exclusive_maximum", [])
    + When(MultipleMismatch(s, value), "multiple_of", [])
  }

  // ---------------------------------------------------------------- all of a node

  function ValueChecks(library: Library, s: Members, value: Json): seq<Check> {
    match value
    case Obj(members) => ObjectChecks(library, s, members)
    case Arr(items) => ArrayChecks(s, items)
    case Str(text) => StringChecks(library, s, text)
    case Int(i) => NumberChecks(s, i as real)
    case Float(x) => NumberChecks(s, x)
    case _ => []
  }

  function Checks(library: Library, s: Members, value: Json): seq<Check> {
    CompositionChecks(s, value) + ValueChecks(library, s, value)
  }

  // ---------------------------------------------------------------- every visit makes progress

  /** `sub` is the value of a keyword of `schema`, or an item or a member of one. */
  predicate IsPart(sub: Json, schema: Json) {
    schema.Obj? && exists k | k in Keys(schema.members) :: PartOf(sub, Lookup(schema.members, k))
  }

  predicate PartOf(sub: Json, keyword: Json) {
    || sub == keyword
    || (keyword.Arr? && sub in keyword.items)
    || (keyword.Obj? && exists i | 0 <= i < |keyword.members| :: keyword.members[i].value == sub)
  }

  /** `sub` is a schema of one of the keywords that try schemas on the value itself. */
  predicate IsBranch(sub: Json, schema: Json) {
    && schema.Obj?
    && (|| sub in GetItems(schema.members, "allOf") || sub in GetItems(schema.members, "anyOf")
        || sub in GetItems(schema.members, "oneOf") || Get(schema.members, "not") == Some(sub))
  }

  /** A visit either descends into the value or stays on it with a smaller schema. */
  predicate Fits(visit: Visit, schema: Json, value: Json) {
    && IsPart(visit.schema, schema)
    && if visit.consumes then Size(visit.value) < Size(value)
       else visit.value == value && IsBranch(visit.schema, schema) && Size(visit.schema) < Size(schema)
  }

  /** The keywords that turn a match into an issue. */
  predicate Bounding(schema: Json) {
    && schema.Obj?
    && ("not" in Keys(schema.members) || "oneOf" in Keys(schema.members) || "maxContains" in Keys(schema.members))
  }

  predicate CheckFits(check: Check, schema: Json, value: Json) {
    var visits := VisitsOf(check);
    && (forall i | 0 <= i < |visits| :: Fits(visits[i], schema, value))
    && (check.Count? && check.most.Some? ==> Bounding(schema))
  }

  predicate AllFit(checks: seq<Check>, schema: Json, value: Json) {
    forall i | 0 <= i < |checks| :: CheckFits(checks[i], schema, value)
  }

  lemma FitAppend(a: seq<Check>, b: seq<Check>, schema: Json, value: Json)
    requires AllFit(a, schema, value) && AllFit(b, schema, value)
    ensures AllFit(a + b, schema, value)
  {}

  lemma PartIsSmaller(sub: Json, keyword: Json)
    requires PartOf(sub, keyword)
    ensures Size(sub) <= Size(keyword)
  {
    if keyword.Arr? && sub in keyword.items {
      var i :| 0 <= i < |keyword.items| && keyword.items[i] == sub;
      ItemIsSmaller(keyword.items, i);
    } else if sub != keyword {
      var i :| 0 <= i < |keyword.members| && keyword.members[i].value == sub;
      MemberIsSmaller(keyword.members, i);
    }
  }

  lemma KeywordPart(s: Members, key: string, sub: Json)
    requires key in Keys(s) && PartOf(sub, Lookup(s, key))
    ensures IsPart(sub, Obj(s)) && Size(sub) < Size(Obj(s))
  {
    LookupIsSmaller(s, key);
    PartIsSmaller(sub, Lookup(s, key));
  }

  lemma ItemsAreParts(s: Members, key: string)
    ensures forall i | 0 <= i < |GetItems(s, key)| ::
      IsPart(GetItems(s, key)[i], Obj(s)) && Size(GetItems(s, key)[i]) < Size(Obj(s))
  {
    forall i | 0 <= i < |GetItems(s, key)|
      ensures IsPart(GetItems(s, key)[i], Obj(s)) && Size(GetItems(s, key)[i]) < Size(Obj(s))
    {
      KeywordPart(s, key, GetItems(s, key)[i]);
    }
  }

  lemma MembersAreParts(s: Members, key: string)
    ensures forall i | 0 <= i < |GetMembers(s, key)| :: IsPart(GetMembers(s, key)[i].value, Obj(s))
  {
    forall i | 0 <= i < |GetMembers(s, key)| ensures IsPart(GetMembers(s, key)[i].value, Obj(s)) {
      KeywordPart(s, key, GetMembers(s, key)[i].value);
    }
  }

  lemma BranchesFit(s: Members, key: string, value: Json)
    requires key == "allOf" || key == "anyOf" || key == "oneOf"
    ensures var visits := SameValue(GetItems(s, key), value);
      forall i | 0 <= i < |visits| :: Fits(visits[i], Obj(s), value)
  {
    hide IsPart, Size;
    ItemsAreParts(s, key);
  }

  lemma AllOfFits(s: Members, value: Json)
    ensures AllFit(EachOf(SameValue(GetItems(s, "allOf"), value)), Obj(s), value)
  {
    hide Fits;
    BranchesFit(s, "allOf", value);
  }

  lemma AnyOfFits(s: Members, value: Json)
    ensures AllFit(AnyOfChecks(s, value), Obj(s), value)
  {
    hide Fits;
    BranchesFit(s, "anyOf", value);
  }

  lemma OneOfFits(s: Members, value: Json)
    ensures AllFit(OneOfChecks(s, value), Obj(s), value)
  {
    hide Fits;
    BranchesFit(s, "oneOf", value);
  }

  lemma NotFits(s: Members, value: Json)
    ensures AllFit(NotChecks(s, value), Obj(s), value)
  {
    if "not" in Keys(s) { KeywordPart(s, "not", Lookup(s, "not")); }
  }

  lemma CompositionFits(s: Members, value: Json)
    ensures AllFit(CompositionChecks(s, value), Obj(s), value)
  {
    var all, any := EachOf(SameValue(GetItems(s, "allOf"), value)), AnyOfChecks(s, value);
    var one, neg := OneOfChecks(s, value), NotChecks(s, value);
    AllOfFits(s, value);
    AnyOfFits(s, value);
    OneOfFits(s, value);
    NotFits(s, value);
    FitAppend(all, any, Obj(s), value);
    FitAppend(all + any, one, Obj(s), value);
    FitAppend(all + any + one, neg, Obj(s), value);
  }

  lemma MembersAreSmaller(value: Members)
    ensures forall k | k in Keys(value) :: Size(Lookup(value, k)) < Size(Obj(value))
    ensures forall i :: 0 <= i < |value| ==> Size(value[i].value) < Size(Obj(value))
    ensures |value| > 0 ==> 1 < Size(Obj(value))
  {
    forall k | k in Keys(value) ensures Size(Lookup(value, k)) < Size(Obj(value)) { LookupIsSmaller(value, k); }
    forall i | 0 <= i < |value| ensures Size(value[i].value) < Size(Obj(value)) { MemberIsSmaller(value, i); }
  }

  lemma MissingFits(required: seq<Json>, value: Members, code: string, n: nat, schema: Json)
    requires n <= |required|
    ensures AllFit(MissingChecks(required, value, code, n), schema, Obj(value))
  {
    if n > 0 { MissingFits(required, value, code, n - 1, schema); }
  }

  lemma DependentFits(dependencies: Members, value: Members, n: nat, schema: Json)
    requires n <= |dependencies|
    ensures AllFit(DependentChecks(dependencies, value, n), schema, Obj(value))
  {
    if n > 0 {
      DependentFits(dependencies, value, n - 1, schema);
      if dependencies[n - 1].value.Arr? {
        var items := dependencies[n - 1].value.items;
        MissingFits(items, value, "dependent_required_property", |items|, schema);
      }
    }
  }

  lemma PropertyFits(properties: Members, value: Members, n: nat, schema: Json)
    requires n <= |properties|
    requires forall i | 0 <= i < |properties| :: IsPart(properties[i].value, schema)
    ensures AllFit(PropertyChecks(properties, value, n), schema, Obj(value))
  {
    MembersAreSmaller(value);
    if n > 0 { PropertyFits(properties, value, n - 1, schema); }
  }

  lemma MatchingFits(search: string -> bool, sub: Json, value: Members, n: nat, schema: Json)
    requires n <= |value| && IsPart(sub, schema)
    ensures AllFit(MatchingChecks(search, sub, value, n), schema, Obj(value))
  {
    MembersAreSmaller(value);
    if n > 0 { MatchingFits(search, sub, value, n - 1, schema); }
  }

  lemma PatternFits(library: Library, patterns: Members, value: Members, n: nat, schema: Json)
    requires n <= |patterns|
    requires forall i | 0 <= i < |patterns| :: IsPart(patterns[i].value, schema)
    ensures AllFit(PatternChecks(library, patterns, value, n), schema, Obj(value))
  {
    if n > 0 {
      PatternFits(library, patterns, value, n - 1, schema);
      var compiled := library.compile(patterns[n - 1].key);
      if compiled.Some? { MatchingFits(compiled.value, patterns[n - 1].value, value, |value|, schema); }
    }
  }

  lemma NameFits(s: Members, value: Members)
    ensures AllFit(NameChecks(s, value), Obj(s), Obj(value))
  {
    MembersAreSmaller(value);
    if "propertyNames" in Keys(s) { KeywordPart(s, "propertyNames", Lookup(s, "propertyNames")); }
  }

  lemma AdditionalFits(library: Library, s: Members, value: Members, n: nat)
    requires n <= |value|
    ensures AllFit(AdditionalChecks(library, s, value, n), Obj(s), Obj(value))
  {
    MembersAreSmaller(value);
    if "additionalProperties" in Keys(s) {
      KeywordPart(s, "additionalProperties", Lookup(s, "additionalProperties"));
    }
    if n > 0 { AdditionalFits(library, s, value, n - 1); }
  }

  lemma ObjectFits(library: Library, s: Members, value: Members)
    ensures AllFit(ObjectChecks(library, s, value), Obj(s), Obj(value))
  {
    var required := GetItems(s, "required");
    var dependent := GetMembers(s, "dependentRequired");
    var properties, patterns := GetMembers(s, "properties"), GetMembers(s, "patternProperties");
    var least, most := GetInt(s, "minProperties"), GetInt(s, "maxProperties");
    var a := MissingChecks(required, value, "required_property", |required|);
    var b := a + DependentChecks(dependent, value, |dependent|);
    var c := b + When(least.Some? && |value| < least.value, "min_properties", []);
    var d := c + When(most.Some? && |value| > most.value, "max_properties", []);
    var e := d + PropertyChecks(properties, value, |properties|);
    var f := e + PatternChecks(library, patterns, value, |patterns|);
    var g := f + NameChecks(s, value);
    MissingFits(required, value, "required_property", |required|, Obj(s));
    DependentFits(dependent, value, |dependent|, Obj(s));
    FitAppend(a, DependentChecks(dependent, value, |dependent|), Obj(s), Obj(value));
    FitAppend(b, When(least.Some? && |value| < least.value, "min_properties", []), Obj(s), Obj(value));
    FitAppend(c, When(most.Some? && |value| > most.value, "max_properties", []), Obj(s), Obj(value));
    MembersAreParts(s, "properties");
    PropertyFits(properties, value, |properties|, Obj(s));
    FitAppend(d, PropertyChecks(properties, value, |properties|), Obj(s), Obj(value));
    MembersAreParts(s, "patternProperties");
    PatternFits(library, patterns, value, |patterns|, Obj(s));
    FitAppend(e, PatternChecks(library, patterns, value, |patterns|), Obj(s), Obj(value));
    NameFits(s, value);
    FitAppend(f, NameChecks(s, value), Obj(s), Obj(value));
    AdditionalFits(library, s, value, |value|);
    FitAppend(g, AdditionalChecks(library, s, value, |value|), Obj(s), Obj(value));
  }

  lemma DuplicateFits(items: seq<Json>, n: nat, schema: Json)
    requires n <= |items|
    ensures AllFit(DuplicateChecks(items, n), schema, Arr(items))
  {
    if n > 0 { DuplicateFits(items, n - 1, schema); }
  }

  lemma ItemsAreSmaller(items: seq<Json>)
    ensures forall i | 0 <= i < |items| :: Size(items[i]) < Size(Arr(items))
  {
    forall i | 0 <= i < |items| ensures Size(items[i]) < Size(Arr(items)) { ItemIsSmaller(items, i); }
  }

  lemma PrefixFits(s: Members, items: seq<Json>)
    ensures AllFit(PrefixChecks(GetItems(s, "prefixItems"), items), Obj(s), Arr(items))
  {
    ItemsAreParts(s, "prefixItems");
    ItemsAreSmaller(items);
  }

  lemma ItemsFit(s: Members, items: seq<Json>)
    ensures AllFit(ItemsChecks(s, items), Obj(s), Arr(items))
  {
    ItemsAreSmaller(items);
    if "items" in Keys(s) { KeywordPart(s, "items", Lookup(s, "items")); }
  }

  lemma ContainsFits(s: Members, items: seq<Json>)
    ensures AllFit(ContainsChecks(s, items), Obj(s), Arr(items))
  {
    ItemsAreSmaller(items);
    if "contains" in Keys(s) { KeywordPart(s, "contains", Lookup(s, "contains")); }
  }

  lemma ArrayFits(s: Members, items: seq<Json>)
    ensures AllFit(ArrayChecks(s, items), Obj(s), Arr(items))
  {
    var least, most := GetInt(s, "minItems"), GetInt(s, "maxItems");
    var a := When(least.Some? && |items| < least.value, "min_items", []);
    var b := a + When(most.Some? && |items| > most.value, "max_items", []);
    var c := b + UniqueChecks(s, items);
    var d := c + PrefixChecks(GetItems(s, "prefixItems"), items);
    DuplicateFits(items, |items|, Obj(s));
    PrefixFits(s, items);
    ItemsFit(s, items);
    ContainsFits(s, items);
    FitAppend(a, When(most.Some? && |items| > most.value, "max_items", []), Obj(s), Arr(items));
    FitAppend(b, UniqueChecks(s, items), Obj(s), Arr(items));
    FitAppend(c, PrefixChecks(GetItems(s, "prefixItems"), items), Obj(s), Arr(items));
    FitAppend(d, ItemsChecks(s, items), Obj(s), Arr(items));
    FitAppend(d + ItemsChecks(s, items), ContainsChecks(s, items), Obj(s), Arr(items));
  }

  lemma StringFits(library: Library, s: Members, text: string, schema: Json, value: Json)
    ensures AllFit(StringChecks(library, s, text), schema, value)
  {
    var checks := StringChecks(library, s, text);
    forall i | 0 <= i < |checks| ensures CheckFits(checks[i], schema, value) { assert checks[i].Fail?; }
  }

  lemma NumberFits(s: Members, number: real, schema: Json, value: Json)
    ensures AllFit(NumberChecks(s, number), schema, value)
  {
    var checks := NumberChecks(s, number);
    forall i | 0 <= i < |checks| ensures CheckFits(checks[i], schema, value) { assert checks[i].Fail?; }
  }

  lemma ValueFits(library: Library, s: Members, value: Json)
    ensures AllFit(ValueChecks(library, s, value), Obj(s), value)
  {
    match value
    case Obj(members) => ObjectFits(library, s, members);
    case Arr(items) => ArrayFits(s, items);
    case Str(text) => StringFits(library, s, text, Obj(s), value);
    case Int(i) => NumberFits(s, i as real, Obj(s), value);
    case Float(x) => NumberFits(s, x, Obj(s), value);
    case _ =>
  }

  /** Every visit a node makes is smaller, which is why validation terminates. */
  lemma ChecksFit(library: Library, s: Members, value: Json)
    ensures AllFit(Checks(library, s, value), Obj(s), value)
  {
    CompositionFits(s, value);
    ValueFits(library, s, value);
    FitAppend(CompositionChecks(s, value), ValueChecks(library, s, value), Obj(s), value);
  }
}
