/**
  The validator in the program's own form: mutually recursive methods that loop over the keywords
  and append to `issues`, proved to report exactly the issues of `SchemaIssues`.
  */
module SchemaValidator {
  import opened Wrappers
  import opened JsonValues
  import opened JsonPointer
  import opened DistinctItems
  import opened SchemaChecks
  import opened SchemaIssues

  // ---------------------------------------------------------------- what a list of checks reports

  /** One call of the validator: the schema node, the value and the hops used so far. */
  datatype Frame = Frame(document: Document, limit: nat, schema: Json, value: Json, depth: nat)

  ghost function Reported(f: Frame, checks: seq<Check>, path: seq<Segment>): seq<Issue>
    requires f.depth <= f.limit && AllFit(checks, f.schema, f.value)
  {
    Shift(path, RunIssues(f.document, f.limit, f.schema, f.value, checks, f.depth))
  }

  lemma ShiftAppend(at: seq<Segment>, a: seq<Issue>, b: seq<Issue>)
    ensures Shift(at, a + b) == Shift(at, a) + Shift(at, b)
  {}

  lemma ShiftShift(path: seq<Segment>, at: seq<Segment>, issues: seq<Issue>)
    ensures Shift(path, Shift(at, issues)) == Shift(path + at, issues)
  {
    var left, right := Shift(path, Shift(at, issues)), Shift(path + at, issues);
    forall i | 0 <= i < |issues| ensures left[i] == right[i] {
      assert path + (at + issues[i].path) == (path + at) + issues[i].path;
    }
  }

  lemma RunSnoc(d: Document, limit: nat, schema: Json, value: Json, checks: seq<Check>, last: Check, depth: nat)
    requires depth <= limit && AllFit(checks, schema, value) && CheckFits(last, schema, value)
    ensures AllFit(checks + [last], schema, value)
    ensures RunIssues(d, limit, schema, value, checks + [last], depth)
         == RunIssues(d, limit, schema, value, checks, depth) + CheckIssues(d, limit, schema, value, last, depth)
  {
    hide CheckFits, CheckIssues;
    assert (checks + [last])[..|checks|] == checks;
  }

  lemma RunNone(d: Document, limit: nat, schema: Json, value: Json, depth: nat)
    requires depth <= limit
    ensures AllFit([], schema, value) && RunIssues(d, limit, schema, value, [], depth) == []
  {}

  lemma FitFront(checks: seq<Check>, schema: Json, value: Json)
    requires |checks| > 0 && AllFit(checks, schema, value)
    ensures AllFit(checks[..|checks| - 1], schema, value) && CheckFits(checks[|checks| - 1], schema, value)
  {
    hide CheckFits;
  }

  lemma {:induction false} RunAppend(d: Document, limit: nat, schema: Json, value: Json, a: seq<Check>, b: seq<Check>,
                                     depth: nat)
    requires depth <= limit && AllFit(a, schema, value) && AllFit(b, schema, value)
    ensures AllFit(a + b, schema, value)
    ensures RunIssues(d, limit, schema, value, a + b, depth)
         == RunIssues(d, limit, schema, value, a, depth) + RunIssues(d, limit, schema, value, b, depth)
  {
    hide CheckFits, CheckIssues, AllFit, RunIssues;
    if |b| == 0 {
      RunNone(d, limit, schema, value, depth);
      assert a + b == a && b == [];
    } else {
      var front, last := b[..|b| - 1], b[|b| - 1];
      FitFront(b, schema, value);
      RunAppend(d, limit, schema, value, a, front, depth);
      RunSnoc(d, limit, schema, value, front, last, depth);
      RunSnoc(d, limit, schema, value, a + front, last, depth);
      assert b == front + [last] && a + b == (a + front) + [last];
    }
  }

  lemma Extend(f: Frame, a: seq<Check>, b: seq<Check>, path: seq<Segment>)
    requires f.depth <= f.limit && AllFit(a, f.schema, f.value) && AllFit(b, f.schema, f.value)
    ensures AllFit(a + b, f.schema, f.value)
    ensures Reported(f, a + b, path) == Reported(f, a, path) + Reported(f, b, path)
  {
    hide AllFit, RunIssues;
    var Frame(d, limit, schema, value, depth) := f;
    RunAppend(d, limit, schema, value, a, b, depth);
    ShiftAppend(path, RunIssues(d, limit, schema, value, a, depth), RunIssues(d, limit, schema, value, b, depth));
  }

  lemma RunOne(d: Document, limit: nat, schema: Json, value: Json, check: Check, depth: nat)
    requires depth <= limit && AllFit([check], schema, value)
    ensures CheckFits(check, schema, value)
    ensures RunIssues(d, limit, schema, value, [check], depth) == CheckIssues(d, limit, schema, value, check, depth)
  {
    hide CheckIssues, CheckFits;
    assert [check][0] == check && [check][..0] == [];
  }

  lemma ReportedNone(f: Frame, path: seq<Segment>)
    requires f.depth <= f.limit
    ensures AllFit([], f.schema, f.value) && Reported(f, [], path) == []
  {}

  lemma ReportedEach(f: Frame, visit: Visit, path: seq<Segment>)
    requires f.depth <= f.limit && AllFit([Each(visit)], f.schema, f.value)
    ensures Fits(visit, f.schema, f.value)
    ensures Reported(f, [Each(visit)], path)
         == Shift(path + visit.at,
                  NodeIssues(f.document, f.limit, visit.schema, visit.value, if visit.consumes then 0 else f.depth))
  {
    hide NodeIssues, Fits;
    RunOne(f.document, f.limit, f.schema, f.value, Each(visit), f.depth);
    assert VisitsOf(Each(visit))[0] == visit;
    ShiftShift(path, visit.at, VisitIssues(f.document, f.limit, f.schema, f.value, visit, f.depth));
  }

  lemma ReportedWhen(f: Frame, condition: bool, code: string, at: seq<Segment>, path: seq<Segment>)
    requires f.depth <= f.limit
    ensures AllFit(When(condition, code, at), f.schema, f.value)
    ensures Reported(f, When(condition, code, at), path) == if condition then [Issue(code, path + at)] else []
  {
    if condition { RunOne(f.document, f.limit, f.schema, f.value, Fail(Issue(code, at)), f.depth); }
  }

  lemma ReportedCount(f: Frame, check: Check, path: seq<Segment>)
    requires f.depth <= f.limit && AllFit([check], f.schema, f.value) && check.Count?
    ensures CheckFits(check, f.schema, f.value) && check.visits == VisitsOf(check)
    ensures var matched := Matches(f.document, f.limit, f.schema, f.value, check.visits, f.depth);
      Reported(f, [check], path)
      == (if matched < check.least then [Issue(check.tooFew, path)] else [])
         + (if check.most.Some? && matched > check.most.value then [Issue(check.tooMany, path)] else [])
  {
    hide Matches, Fits;
    RunOne(f.document, f.limit, f.schema, f.value, check, f.depth);
    assert path + [] == path;
  }

  // ---------------------------------------------------------------- strings and numbers

  /** `if condition: issues.append(...)`. */
  method AppendWhen(before: seq<Issue>, ghost done: seq<Check>, condition: bool, code: string, at: seq<Segment>,
                    path: seq<Segment>, ghost f: Frame)
    returns (issues: seq<Issue>)
    requires f.depth <= f.limit && AllFit(done, f.schema, f.value) && before == Reported(f, done, path)
    ensures AllFit(done + When(condition, code, at), f.schema, f.value)
    ensures issues == Reported(f, done + When(condition, code, at), path)
  {
    hide AllFit, RunIssues, When;
    ReportedWhen(f, condition, code, at, path);
    Extend(f, done, When(condition, code, at), path);
    issues := before;
    if condition { issues := issues + [Issue(code, path + at)]; }
  }

  method ValidateString(library: Library, s: Members, text: string, path: seq<Segment>, ghost f: Frame)
    returns (issues: seq<Issue>)
    requires f.depth <= f.limit
    ensures AllFit(StringChecks(library, s, text), f.schema, f.value)
    ensures issues == Reported(f, StringChecks(library, s, text), path)
  {
    hide AllFit, RunIssues, When, PatternMismatch;
    ReportedNone(f, path);
    var least, most := GetInt(s, "minLength"), GetInt(s, "maxLength");
    var few, many := least.Some? && |text| < least.value, most.Some? && |text| > most.value;
    var mismatch := PatternMismatch(library, s, text);
    issues := AppendWhen([], [], few, "min_length", [], path, f);
    ghost var done := When(few, "min_length", []);
    assert [] + done == done;
    issues := AppendWhen(issues, done, many, "max_length", [], path, f);
    issues := AppendWhen(issues, done + When(many, "max_length", []), mismatch, "pattern_mismatch", [], path, f);
  }

  method ValidateNumber(s: Members, number: real, path: seq<Segment>, ghost f: Frame) returns (issues: seq<Issue>)
    requires f.depth <= f.limit
    ensures AllFit(NumberChecks(s, number), f.schema, f.value)
    ensures issues == Reported(f, NumberChecks(s, number), path)
  {
    hide AllFit, RunIssues, When, MultipleMismatch;
    ReportedNone(f, path);
    var least, most := Limit(s, "minimum"), Limit(s, "maximum");
    var above, below := Limit(s, "exclusiveMinimum"), Limit(s, "exclusiveMaximum");
    var a, b := least.Some? && number < least.value, most.Some? && number > most.value;
    var c, e := above.Some? && number <= above.value, below.Some? && number >= below.value;
    var mismatch := MultipleMismatch(s, number);
    issues := AppendWhen([], [], a, "minimum", [], path, f);
    ghost var done := When(a, "minimum", []);
    assert [] + done == done;
    issues := AppendWhen(issues, done, b, "maximum", [], path, f);
    done := done + When(b, "maximum", []);
    issues := AppendWhen(issues, done, c, "exclusive_minimum", [], path, f);
    done := done + When(c, "exclusive_minimum", []);
    issues := AppendWhen(issues, done, e, "exclusive_maximum", [], path, f);
    done := done + When(e, "exclusive_maximum", []);
    issues := AppendWhen(issues, done, mismatch, "multiple_of", [], path, f);
  }

  // ---------------------------------------------------------------- objects

  method ValidateRequired(required: seq<Json>, value: Members, code: string, path: seq<Segment>, ghost f: Frame)
    returns (issues: seq<Issue>)
    requires f.depth <= f.limit && f.value == Obj(value)
    ensures AllFit(MissingChecks(required, value, code, |required|), f.schema, f.value)
    ensures issues == Reported(f, MissingChecks(required, value, code, |required|), path)
  {
    hide AllFit, RunIssues, When;
    issues := [];
    ReportedNone(f, path);
    for i := 0 to |required|
      invariant AllFit(MissingChecks(required, value, code, i), f.schema, f.value)
      invariant issues == Reported(f, MissingChecks(required, value, code, i), path)
    {
      var key := required[i];
      if key.Str? {
        issues := AppendWhen(issues, MissingChecks(required, value, code, i), key.s !in Keys(value), code,
          [Key(key.s)], path, f);
      } else {
        assert MissingChecks(required, value, code, i + 1) == MissingChecks(required, value, code, i);
      }
    }
  }

  method ValidateDependent(dependent: Members, value: Members, path: seq<Segment>, ghost f: Frame)
    returns (issues: seq<Issue>)
    requires f.depth <= f.limit && f.value == Obj(value)
    ensures AllFit(DependentChecks(dependent, value, |dependent|), f.schema, f.value)
    ensures issues == Reported(f, DependentChecks(dependent, value, |dependent|), path)
  {
    hide AllFit, RunIssues, MissingChecks;
    issues := [];
    ReportedNone(f, path);
    for i := 0 to |dependent|
      invariant AllFit(DependentChecks(dependent, value, i), f.schema, f.value)
      invariant issues == Reported(f, DependentChecks(dependent, value, i), path)
    {
      var item := dependent[i].value;
      if dependent[i].key !in Keys(value) || !item.Arr? {
        assert DependentChecks(dependent, value, i + 1) == DependentChecks(dependent, value, i);
        continue;
      }
      var missing := ValidateRequired(item.items, value, "dependent_required_property", path, f);
      issues := issues + missing;
      Extend(f, DependentChecks(dependent, value, i),
        MissingChecks(item.items, value, "dependent_required_property", |item.items|), path);
    }
  }

  /** `issues.extend(_validate_node(...))` for one visit. */
  method AppendVisit(before: seq<Issue>, ghost done: seq<Check>, ghost schema: Json, ghost value: Json, visit: Visit,
                     d: Document, limit: nat, path: seq<Segment>, from: nat, ghost depth: nat)
    returns (issues: seq<Issue>)
    requires depth <= limit && from == (if visit.consumes then 0 else depth)
    requires Fits(visit, schema, value)
    requires AllFit(done, schema, value) && before == Reported(Frame(d, limit, schema, value, depth), done, path)
    ensures AllFit(done + [Each(visit)], schema, value)
    ensures issues == Reported(Frame(d, limit, schema, value, depth), done + [Each(visit)], path)
    decreases Size(value), limit - depth, Size(schema), 0
  {
    hide RunIssues, NodeIssues, IsPart;
    ghost var f := Frame(d, limit, schema, value, depth);
    assert AllFit([Each(visit)], schema, value);
    hide AllFit;
    ReportedEach(f, visit, path);
    Extend(f, done, [Each(visit)], path);
    var inner := ValidateNode(d, limit, visit.schema, visit.value, path + visit.at, from);
    issues := before + inner;
  }

  method ValidateProperties(d: Document, limit: nat, s: Members, value: Members, path: seq<Segment>, ghost depth: nat)
    returns (issues: seq<Issue>)
    requires depth <= limit
    ensures var properties := GetMembers(s, "properties");
      && AllFit(PropertyChecks(properties, value, |properties|), Obj(s), Obj(value))
      && issues == Reported(Frame(d, limit, Obj(s), Obj(value), depth),
                            PropertyChecks(properties, value, |properties|), path)
    decreases Size(Obj(value)), limit - depth, Size(Obj(s)), 1
  {
    hide AllFit, RunIssues, Size, IsPart;
    var properties := GetMembers(s, "properties");
    ghost var f := Frame(d, limit, Obj(s), Obj(value), depth);
    issues := [];
    ReportedNone(f, path);
    MembersAreParts(s, "properties");
    MembersAreSmaller(value);
    for i := 0 to |properties|
      invariant AllFit(PropertyChecks(properties, value, i), f.schema, f.value)
      invariant issues == Reported(f, PropertyChecks(properties, value, i), path)
    {
      var p := properties[i];
      if p.key in Keys(value) {
        var visit := Visit(p.value, Lookup(value, p.key), [Key(p.key)], true);
        issues := AppendVisit(issues, PropertyChecks(properties, value, i), Obj(s), Obj(value), visit,
          d, limit, path, 0, depth);
      } else {
        assert PropertyChecks(properties, value, i + 1) == PropertyChecks(properties, value, i);
      }
    }
  }

  /** The inner loop over the keys one pattern matches; it records them in `matched`. */
  method ValidateMatching(d: Document, limit: nat, s: Members, search: string -> bool, sub: Json, value: Members,
                          path: seq<Segment>, ghost depth: nat)
    returns (issues: seq<Issue>, matched: set<string>)
    requires depth <= limit && IsPart(sub, Obj(s))
    ensures AllFit(MatchingChecks(search, sub, value, |value|), Obj(s), Obj(value))
    ensures issues == Reported(Frame(d, limit, Obj(s), Obj(value), depth),
                               MatchingChecks(search, sub, value, |value|), path)
    ensures matched == set j | 0 <= j < |value| && search(value[j].key) :: value[j].key
    decreases Size(Obj(value)), limit - depth, Size(Obj(s)), 1
  {
    hide AllFit, RunIssues, Size, IsPart;
    ghost var f := Frame(d, limit, Obj(s), Obj(value), depth);
    issues, matched := [], {};
    ReportedNone(f, path);
    MembersAreSmaller(value);
    for i := 0 to |value|
      invariant AllFit(MatchingChecks(search, sub, value, i), f.schema, f.value)
      invariant issues == Reported(f, MatchingChecks(search, sub, value, i), path)
      invariant matched == set j | 0 <= j < i && search(value[j].key) :: value[j].key
    {
      var m := value[i];
      if !search(m.key) {
        assert MatchingChecks(search, sub, value, i + 1) == MatchingChecks(search, sub, value, i);
        continue;
      }
      matched := matched + {m.key};
      var visit := Visit(sub, m.value, [Key(m.key)], true);
      issues := AppendVisit(issues, MatchingChecks(search, sub, value, i), Obj(s), Obj(value), visit,
        d, limit, path, 0, depth);
    }
  }

  method ValidatePatterns(d: Document, limit: nat, s: Members, value: Members, path: seq<Segment>, ghost depth: nat)
    returns (issues: seq<Issue>, matched: set<string>)
    requires depth <= limit
    ensures var patterns := GetMembers(s, "patternProperties");
      && AllFit(PatternChecks(d.library, patterns, value, |patterns|), Obj(s), Obj(value))
      && issues == Reported(Frame(d, limit, Obj(s), Obj(value), depth),
                            PatternChecks(d.library, patterns, value, |patterns|), path)
    ensures forall j | 0 <= j < |value| ::
      value[j].key in matched <==> Matched(d.library, GetMembers(s, "patternProperties"), value[j].key)
    decreases Size(Obj(value)), limit - depth, Size(Obj(s)), 2
  {
    hide AllFit, RunIssues, Size, IsPart, MatchingChecks;
    var patterns := GetMembers(s, "patternProperties");
    ghost var f := Frame(d, limit, Obj(s), Obj(value), depth);
    issues, matched := [], {};
    ReportedNone(f, path);
    MembersAreParts(s, "patternProperties");
    for i := 0 to |patterns|
      invariant AllFit(PatternChecks(d.library, patterns, value, i), f.schema, f.value)
      invariant issues == Reported(f, PatternChecks(d.library, patterns, value, i), path)
      invariant forall j | 0 <= j < |value| ::
        value[j].key in matched <==> exists k | 0 <= k < i :: PatternMatches(d.library, patterns[k].key, value[j].key)
    {
      var compiled := d.library.compile(patterns[i].key);
      if compiled.None? {
        assert PatternChecks(d.library, patterns, value, i + 1) == PatternChecks(d.library, patterns, value, i);
        continue;
      }
      var inner, found := ValidateMatching(d, limit, s, compiled.value, patterns[i].value, value, path, depth);
      issues, matched := issues + inner, matched + found;
      Extend(f, PatternChecks(d.library, patterns, value, i),
        MatchingChecks(compiled.value, patterns[i].value, value, |value|), path);
    }
  }

  method ValidateNames(d: Document, limit: nat, s: Members, value: Members, path: seq<Segment>, ghost depth: nat)
    returns (issues: seq<Issue>)
    requires depth <= limit
    ensures AllFit(NameChecks(s, value), Obj(s), Obj(value))
    ensures issues == Reported(Frame(d, limit, Obj(s), Obj(value), depth), NameChecks(s, value), path)
    decreases Size(Obj(value)), limit - depth, Size(Obj(s)), 1
  {
    hide AllFit, RunIssues, Size, IsPart;
    ghost var f := Frame(d, limit, Obj(s), Obj(value), depth);
    issues := [];
    ReportedNone(f, path);
    var names := GetNonNull(s, "propertyNames");
    if names.None? { return; }
    KeywordPart(s, "propertyNames", names.value);
    MembersAreSmaller(value);
    ghost var checks := NameChecks(s, value);
    for i := 0 to |value|
      invariant AllFit(checks[..i], f.schema, f.value)
      invariant issues == Reported(f, checks[..i], path)
    {
      var visit := Visit(names.value, Str(value[i].key), [Key(value[i].key)], true);
      KeyIsSmaller(value, i);
      assert checks[..i + 1] == checks[..i] + [Each(visit)];
      issues := AppendVisit(issues, checks[..i], Obj(s), Obj(value), visit, d, limit, path, 0, depth);
    }
    assert checks[..|value|] == checks;
  }

  lemma KeyIsSmaller(value: Members, i: nat)
    requires i < |value|
    ensures Size(Str(value[i].key)) < Size(Obj(value))
  {
    MembersAreSmaller(value);
  }

  method ValidateAdditional(d: Document, limit: nat, s: Members, value: Members, matched: set<string>,
                            path: seq<Segment>, ghost depth: nat)
    returns (issues: seq<Issue>)
    requires depth <= limit
    requires forall j | 0 <= j < |value| ::
      value[j].key in matched <==> Matched(d.library, GetMembers(s, "patternProperties"), value[j].key)
    ensures AllFit(AdditionalChecks(d.library, s, value, |value|), Obj(s), Obj(value))
    ensures issues == Reported(Frame(d, limit, Obj(s), Obj(value), depth),
                               AdditionalChecks(d.library, s, value, |value|), path)
    decreases Size(Obj(value)), limit - depth, Size(Obj(s)), 1
  {
    hide AllFit, RunIssues, Size, IsPart, Matched;
    ghost var f := Frame(d, limit, Obj(s), Obj(value), depth);
    issues := [];
    ReportedNone(f, path);
    var additional := Get(s, "additionalProperties");
    if additional.None? || additional.value == Bool(true) { return; }
    KeywordPart(s, "additionalProperties", additional.value);
    MembersAreSmaller(value);
    for i := 0 to |value|
      invariant AllFit(AdditionalChecks(d.library, s, value, i), f.schema, f.value)
      invariant issues == Reported(f, AdditionalChecks(d.library, s, value, i), path)
    {
      var m := value[i];
      if m.key in Keys(GetMembers(s, "properties")) || m.key in matched {
        assert AdditionalChecks(d.library, s, value, i + 1) == AdditionalChecks(d.library, s, value, i);
      } else if additional.value == Bool(false) {
        issues := AppendWhen(issues, AdditionalChecks(d.library, s, value, i), true, "additional_property",
          [Key(m.key)], path, f);
      } else {
        var visit := Visit(additional.value, m.value, [Key(m.key)], true);
        issues := AppendVisit(issues, AdditionalChecks(d.library, s, value, i), Obj(s), Obj(value), visit,
          d, limit, path, 0, depth);
      }
    }
  }

  method ValidateObject(d: Document, limit: nat, s: Members, value: Members, path: seq<Segment>, ghost depth: nat)
    returns (issues: seq<Issue>)
    requires depth <= limit
    ensures AllFit(ObjectChecks(d.library, s, value), Obj(s), Obj(value))
    ensures issues == Reported(Frame(d, limit, Obj(s), Obj(value), depth), ObjectChecks(d.library, s, value), path)
    decreases Size(Obj(value)), limit - depth, Size(Obj(s)), 3
  {
    hide AllFit, RunIssues, Size, IsPart, MissingChecks, DependentChecks, PropertyChecks, PatternChecks;
    hide NameChecks, AdditionalChecks, When, Matched;
    ghost var f := Frame(d, limit, Obj(s), Obj(value), depth);
    var required, dependent := GetItems(s, "required"), GetMembers(s, "dependentRequired");
    issues := ValidateRequired(required, value, "required_property", path, f);
    ghost var done := MissingChecks(required, value, "required_property", |required|);
    var more := ValidateDependent(dependent, value, path, f);
    Extend(f, done, DependentChecks(dependent, value, |dependent|), path);
    issues, done := issues + more, done + DependentChecks(dependent, value, |dependent|);
    var least, most := GetInt(s, "minProperties"), GetInt(s, "maxProperties");
    var few, many := least.Some? && |value| < least.value, most.Some? && |value| > most.value;
    issues := AppendWhen(issues, done, few, "min_properties", [], path, f);
    done := done + When(few, "min_properties", []);
    issues := AppendWhen(issues, done, many, "max_properties", [], path, f);
    done := done + When(many, "max_properties", []);
    more := ValidateProperties(d, limit, s, value, path, depth);
    ghost var properties, patterns := GetMembers(s, "properties"), GetMembers(s, "patternProperties");
    Extend(f, done, PropertyChecks(properties, value, |properties|), path);
    issues, done := issues + more, done + PropertyChecks(properties, value, |properties|);
    var matched;
    more, matched := ValidatePatterns(d, limit, s, value, path, depth);
    Extend(f, done, PatternChecks(d.library, patterns, value, |patterns|), path);
    issues, done := issues + more, done + PatternChecks(d.library, patterns, value, |patterns|);
    more := ValidateNames(d, limit, s, value, path, depth);
    Extend(f, done, NameChecks(s, value), path);
    issues, done := issues + more, done + NameChecks(s, value);
    more := ValidateAdditional(d, limit, s, value, matched, path, depth);
    Extend(f, done, AdditionalChecks(d.library, s, value, |value|), path);
    issues := issues + more;
  }

  // ---------------------------------------------------------------- arrays

  method ValidateUnique(items: seq<Json>, path: seq<Segment>, ghost f: Frame) returns (issues: seq<Issue>)
    requires f.depth <= f.limit
    ensures AllFit(DuplicateChecks(items, |items|), f.schema, f.value)
    ensures issues == Reported(f, DuplicateChecks(items, |items|), path)
  {
    hide AllFit, RunIssues, When, DeepEqual;
    issues := [];
    ReportedNone(f, path);
    var seen := [];
    for i := 0 to |items|
      invariant seen == Seen(JsonEqual, items, i)
      invariant AllFit(DuplicateChecks(items, i), f.schema, f.value)
      invariant issues == Reported(f, DuplicateChecks(items, i), path)
    {
      var repeated := EqualsOneOf(JsonEqual, items[i], seen);
      issues := AppendWhen(issues, DuplicateChecks(items, i), repeated, "unique_items", [Index(i)], path, f);
      if !repeated { seen := seen + [items[i]]; }
    }
  }

  method ValidatePrefix(d: Document, limit: nat, s: Members, items: seq<Json>, path: seq<Segment>, ghost depth: nat)
    returns (issues: seq<Issue>)
    requires depth <= limit
    ensures AllFit(PrefixChecks(GetItems(s, "prefixItems"), items), Obj(s), Arr(items))
    ensures issues == Reported(Frame(d, limit, Obj(s), Arr(items), depth),
                               PrefixChecks(GetItems(s, "prefixItems"), items), path)
    decreases Size(Arr(items)), limit - depth, Size(Obj(s)), 1
  {
    hide AllFit, RunIssues, Size, IsPart;
    ghost var f := Frame(d, limit, Obj(s), Arr(items), depth);
    var prefix := GetItems(s, "prefixItems");
    issues := [];
    ReportedNone(f, path);
    ItemsAreParts(s, "prefixItems");
    ItemsAreSmaller(items);
    ghost var checks := PrefixChecks(prefix, items);
    var i := 0;
    while i < |prefix| && i < |items|
      invariant 0 <= i <= |checks|
      invariant AllFit(checks[..i], f.schema, f.value)
      invariant issues == Reported(f, checks[..i], path)
    {
      var visit := Visit(prefix[i], items[i], [Index(i)], true);
      assert checks[..i + 1] == checks[..i] + [Each(visit)];
      issues := AppendVisit(issues, checks[..i], Obj(s), Arr(items), visit, d, limit, path, 0, depth);
      i := i + 1;
    }
    assert checks[..i] == checks;
  }

  method ValidateItems(d: Document, limit: nat, s: Members, items: seq<Json>, path: seq<Segment>, ghost depth: nat)
    returns (issues: seq<Issue>)
    requires depth <= limit
    ensures AllFit(ItemsChecks(s, items), Obj(s), Arr(items))
    ensures issues == Reported(Frame(d, limit, Obj(s), Arr(items), depth), ItemsChecks(s, items), path)
    decreases Size(Arr(items)), limit - depth, Size(Obj(s)), 1
  {
    hide AllFit, RunIssues, Size, IsPart;
    ghost var f := Frame(d, limit, Obj(s), Arr(items), depth);
    issues := [];
    ReportedNone(f, path);
    var schema := GetNonNull(s, "items");
    if schema.None? { return; }
    KeywordPart(s, "items", schema.value);
    ItemsAreSmaller(items);
    var first := |GetItems(s, "prefixItems")|;
    ghost var checks := RestChecks(schema.value, items, first);
    var index := first;
    while index < |items|
      invariant first <= index && (index <= |items| || index == first)
      invariant index - first <= |checks|
      invariant AllFit(checks[..index - first], f.schema, f.value)
      invariant issues == Reported(f, checks[..index - first], path)
    {
      var visit := Visit(schema.value, items[index], [Index(index)], true);
      assert checks[..index + 1 - first] == checks[..index - first] + [Each(visit)];
      issues := AppendVisit(issues, checks[..index - first], Obj(s), Arr(items), visit, d, limit, path, 0, depth);
      index := index + 1;
    }
    assert checks[..index - first] == checks;
  }

  method CountContained(d: Document, limit: nat, ghost s: Members, schema: Json, items: seq<Json>, path: seq<Segment>,
                        ghost depth: nat)
    returns (matched: nat)
    requires depth <= limit && IsPart(schema, Obj(s))
    ensures var visits := ItemVisits(schema, items);
      && (forall i | 0 <= i < |visits| :: Fits(visits[i], Obj(s), Arr(items)))
      && matched == Matches(d, limit, Obj(s), Arr(items), visits, depth)
    decreases Size(Arr(items)), limit - depth, Size(Obj(s)), 1
  {
    hide NodeIssues, Size, IsPart;
    ItemsAreSmaller(items);
    ghost var visits := ItemVisits(schema, items);
    matched := 0;
    for i := 0 to |items|
      invariant matched == Matches(d, limit, Obj(s), Arr(items), visits[..i], depth)
    {
      var inner := ValidateNode(d, limit, schema, items[i], path + [Index(i)], 0);
      assert visits[..i + 1][..i] == visits[..i];
      if inner == [] { matched := matched + 1; }
    }
    assert visits[..|items|] == visits;
  }

  method ValidateContains(d: Document, limit: nat, s: Members, items: seq<Json>, path: seq<Segment>, ghost depth: nat)
    returns (issues: seq<Issue>)
    requires depth <= limit
    ensures AllFit(ContainsChecks(s, items), Obj(s), Arr(items))
    ensures issues == Reported(Frame(d, limit, Obj(s), Arr(items), depth), ContainsChecks(s, items), path)
    decreases Size(Arr(items)), limit - depth, Size(Obj(s)), 2
  {
    hide RunIssues, Size, IsPart, Matches;
    ghost var f := Frame(d, limit, Obj(s), Arr(items), depth);
    issues := [];
    ReportedNone(f, path);
    var schema := GetNonNull(s, "contains");
    if schema.None? { return; }
    KeywordPart(s, "contains", schema.value);
    ContainsFits(s, items);
    var matched := CountContained(d, limit, s, schema.value, items, path, depth);
    var least, most := MinContains(s), GetInt(s, "maxContains");
    if matched < least { issues := issues + [Issue("contains", path)]; }
    if most.Some? && matched > most.value { issues := issues + [Issue("max_contains", path)]; }
    ReportedCount(f, ContainsChecks(s, items)[0], path);
  }

  method ValidateArray(d: Document, limit: nat, s: Members, items: seq<Json>, path: seq<Segment>, ghost depth: nat)
    returns (issues: seq<Issue>)
    requires depth <= limit
    ensures AllFit(ArrayChecks(s, items), Obj(s), Arr(items))
    ensures issues == Reported(Frame(d, limit, Obj(s), Arr(items), depth), ArrayChecks(s, items), path)
    decreases Size(Arr(items)), limit - depth, Size(Obj(s)), 3
  {
    hide AllFit, RunIssues, Size, IsPart, DuplicateChecks, PrefixChecks, ItemsChecks, ContainsChecks, When;
    ghost var f := Frame(d, limit, Obj(s), Arr(items), depth);
    ReportedNone(f, path);
    var least, most := GetInt(s, "minItems"), GetInt(s, "maxItems");
    var few, many := least.Some? && |items| < least.value, most.Some? && |items| > most.value;
    issues := AppendWhen([], [], few, "min_items", [], path, f);
    ghost var done := When(few, "min_items", []);
    assert [] + done == done;
    issues := AppendWhen(issues, done, many, "max_items", [], path, f);
    done := done + When(many, "max_items", []);
    var more := [];
    if Get(s, "uniqueItems") == Some(Bool(true)) { more := ValidateUnique(items, path, f); }
    Extend(f, done, UniqueChecks(s, items), path);
    issues, done := issues + more, done + UniqueChecks(s, items);
    more := ValidatePrefix(d, limit, s, items, path, depth);
    Extend(f, done, PrefixChecks(GetItems(s, "prefixItems"), items), path);
    issues, done := issues + more, done + PrefixChecks(GetItems(s, "prefixItems"), items);
    more := ValidateItems(d, limit, s, items, path, depth);
    Extend(f, done, ItemsChecks(s, items), path);
    issues, done := issues + more, done + ItemsChecks(s, items);
    more := ValidateContains(d, limit, s, items, path, depth);
    Extend(f, done, ContainsChecks(s, items), path);
    issues := issues + more;
  }

  // ---------------------------------------------------------------- composition

  method ValidateAllOf(d: Document, limit: nat, s: Members, value: Json, path: seq<Segment>, depth: nat)
    returns (issues: seq<Issue>)
    requires depth <= limit
    ensures AllFit(EachOf(SameValue(GetItems(s, "allOf"), value)), Obj(s), value)
    ensures issues == Reported(Frame(d, limit, Obj(s), value, depth),
                               EachOf(SameValue(GetItems(s, "allOf"), value)), path)
    decreases Size(value), limit - depth, Size(Obj(s)), 1
  {
    hide AllFit, RunIssues, Size, IsPart;
    ghost var f := Frame(d, limit, Obj(s), value, depth);
    var branches := GetItems(s, "allOf");
    issues := [];
    ReportedNone(f, path);
    ItemsAreParts(s, "allOf");
    ghost var checks := EachOf(SameValue(branches, value));
    for i := 0 to |branches|
      invariant AllFit(checks[..i], f.schema, f.value)
      invariant issues == Reported(f, checks[..i], path)
    {
      var visit := Visit(branches[i], value, [], false);
      assert checks[..i + 1] == checks[..i] + [Each(visit)];
      issues := AppendVisit(issues, checks[..i], Obj(s), value, visit, d, limit, path, depth, depth);
    }
    assert checks[..|branches|] == checks;
  }

  /** `branch_issues`, of which only the number of empty ones matters. */
  method CountMatched(d: Document, limit: nat, ghost s: Members, branches: seq<Json>, value: Json, path: seq<Segment>,
                      depth: nat)
    returns (matched: nat)
    requires depth <= limit
    requires var visits := SameValue(branches, value);
      forall i | 0 <= i < |visits| :: Fits(visits[i], Obj(s), value)
    ensures matched == Matches(d, limit, Obj(s), value, SameValue(branches, value), depth)
    decreases Size(value), limit - depth, Size(Obj(s)), 1
  {
    hide NodeIssues, IsPart, Size;
    ghost var visits := SameValue(branches, value);
    matched := 0;
    for i := 0 to |branches|
      invariant matched == Matches(d, limit, Obj(s), value, visits[..i], depth)
    {
      assert Fits(visits[i], Obj(s), value);
      var inner := ValidateNode(d, limit, branches[i], value, path, depth);
      assert visits[..i + 1][..i] == visits[..i];
      if inner == [] { matched := matched + 1; }
    }
    assert visits[..|branches|] == visits;
  }

  method ValidateComposition(d: Document, limit: nat, s: Members, value: Json, path: seq<Segment>, depth: nat)
    returns (issues: seq<Issue>)
    requires depth <= limit
    ensures AllFit(CompositionChecks(s, value), Obj(s), value)
    ensures issues == Reported(Frame(d, limit, Obj(s), value, depth), CompositionChecks(s, value), path)
    decreases Size(value), limit - depth, Size(Obj(s)), 3
  {
    hide AllFit, RunIssues, Size, IsPart, Matches, EachOf, AnyOfChecks, OneOfChecks, NotChecks;
    ghost var f := Frame(d, limit, Obj(s), value, depth);
    issues := ValidateAllOf(d, limit, s, value, path, depth);
    ghost var done := EachOf(SameValue(GetItems(s, "allOf"), value));
    var more := ValidateAnyOf(d, limit, s, value, path, depth);
    Extend(f, done, AnyOfChecks(s, value), path);
    issues, done := issues + more, done + AnyOfChecks(s, value);
    more := ValidateOneOf(d, limit, s, value, path, depth);
    Extend(f, done, OneOfChecks(s, value), path);
    issues, done := issues + more, done + OneOfChecks(s, value);
    more := ValidateNot(d, limit, s, value, path, depth);
    Extend(f, done, NotChecks(s, value), path);
    issues := issues + more;
  }

  method ValidateAnyOf(d: Document, limit: nat, s: Members, value: Json, path: seq<Segment>, depth: nat)
    returns (issues: seq<Issue>)
    requires depth <= limit
    ensures AllFit(AnyOfChecks(s, value), Obj(s), value)
    ensures issues == Reported(Frame(d, limit, Obj(s), value, depth), AnyOfChecks(s, value), path)
    decreases Size(value), limit - depth, Size(Obj(s)), 2
  {
    hide RunIssues, Size, IsPart, Matches, Fits;
    ghost var f := Frame(d, limit, Obj(s), value, depth);
    issues := [];
    ReportedNone(f, path);
    var branches := GetItems(s, "anyOf");
    if |branches| == 0 { return; }
    BranchesFit(s, "anyOf", value);
    AnyOfFits(s, value);
    var matched := CountMatched(d, limit, s, branches, value, path, depth);
    if matched == 0 { issues := [Issue("any_of_mismatch", path)]; }
    ReportedCount(f, AnyOfChecks(s, value)[0], path);
  }

  method ValidateOneOf(d: Document, limit: nat, s: Members, value: Json, path: seq<Segment>, depth: nat)
    returns (issues: seq<Issue>)
    requires depth <= limit
    ensures AllFit(OneOfChecks(s, value), Obj(s), value)
    ensures issues == Reported(Frame(d, limit, Obj(s), value, depth), OneOfChecks(s, value), path)
    decreases Size(value), limit - depth, Size(Obj(s)), 2
  {
    hide RunIssues, Size, IsPart, Matches, Fits;
    ghost var f := Frame(d, limit, Obj(s), value, depth);
    issues := [];
    ReportedNone(f, path);
    var branches := GetItems(s, "oneOf");
    if |branches| == 0 { return; }
    BranchesFit(s, "oneOf", value);
    OneOfFits(s, value);
    var matched := CountMatched(d, limit, s, branches, value, path, depth);
    if matched == 0 {
      issues := [Issue("one_of_mismatch", path)];
    } else if matched > 1 {
      issues := [Issue("one_of_ambiguous", path)];
    }
    ReportedCount(f, OneOfChecks(s, value)[0], path);
  }

  method ValidateNot(d: Document, limit: nat, s: Members, value: Json, path: seq<Segment>, depth: nat)
    returns (issues: seq<Issue>)
    requires depth <= limit
    ensures AllFit(NotChecks(s, value), Obj(s), value)
    ensures issues == Reported(Frame(d, limit, Obj(s), value, depth), NotChecks(s, value), path)
    decreases Size(value), limit - depth, Size(Obj(s)), 2
  {
    hide RunIssues, Size, IsPart;
    ghost var f := Frame(d, limit, Obj(s), value, depth);
    issues := [];
    ReportedNone(f, path);
    if "not" !in Keys(s) { return; }
    NotFits(s, value);
    KeywordPart(s, "not", Lookup(s, "not"));
    var negated := CountMatched(d, limit, s, [Lookup(s, "not")], value, path, depth);
    if negated > 0 { issues := [Issue("not_mismatch", path)]; }
    assert SameValue([Lookup(s, "not")], value) == NotChecks(s, value)[0].visits;
    ReportedCount(f, NotChecks(s, value)[0], path);
  }

  // ---------------------------------------------------------------- references and nodes

  method ValidateReference(d: Document, limit: nat, s: Members, value: Json, path: seq<Segment>, depth: nat)
    returns (issues: seq<Issue>)
    requires depth <= limit
    ensures issues == Shift(path, ReferenceIssues(d, limit, s, value, depth))
    decreases Size(value), limit - depth, 0, 0
  {
    hide NodeIssues;
    assert path + [] == path;
    var reference := Reference(s);
    if reference.None? { return []; }
    if depth >= limit { return [Issue("schema_recursion", path)]; }
    var target := ResolveReference(reference.value, d.root, d.library.decoders);
    if target.None? { return [Issue("unresolvable_ref", path)]; }
    issues := ValidateNode(d, limit, target.value, value, path, depth + 1);
  }

  method ValidateValue(d: Document, limit: nat, s: Members, value: Json, path: seq<Segment>, ghost depth: nat)
    returns (issues: seq<Issue>)
    requires depth <= limit
    ensures AllFit(ValueChecks(d.library, s, value), Obj(s), value)
    ensures issues == Reported(Frame(d, limit, Obj(s), value, depth), ValueChecks(d.library, s, value), path)
    decreases Size(value), limit - depth, Size(Obj(s)), 4
  {
    hide RunIssues, AllFit, ObjectChecks, ArrayChecks, StringChecks, NumberChecks;
    ghost var f := Frame(d, limit, Obj(s), value, depth);
    ReportedNone(f, path);
    match value {
      case Obj(members) => issues := ValidateObject(d, limit, s, members, path, depth);
      case Arr(items) => issues := ValidateArray(d, limit, s, items, path, depth);
      case Str(text) => issues := ValidateString(d.library, s, text, path, f);
      case Int(i) => issues := ValidateNumber(s, i as real, path, f);
      case Float(x) => issues := ValidateNumber(s, x, path, f);
      case _ => issues := [];
    }
  }

  /** `_validate_node`: exactly the issues of `NodeIssues`, reported from `path`. */
  method ValidateNode(d: Document, limit: nat, schema: Json, value: Json, path: seq<Segment>, depth: nat)
    returns (issues: seq<Issue>)
    requires depth <= limit
    ensures issues == Shift(path, NodeIssues(d, limit, schema, value, depth))
    decreases Size(value), limit - depth, Size(schema), 5
  {
    hide ReferenceIssues, RunIssues, CompositionChecks, ValueChecks, AllFit, TypeMismatch, ConstMismatch, EnumMismatch;
    assert path + [] == path;
    if schema.Bool? {
      if schema.b { return []; }
      return [Issue("schema_forbids_value", path)];
    }
    if !schema.Obj? { return []; }
    var s := schema.members;
    issues := ValidateReference(d, limit, s, value, path, depth);
    if ConstMismatch(s, value) { issues := issues + [Issue("const_mismatch", path)]; }
    if EnumMismatch(s, value) { issues := issues + [Issue("enum_mismatch", path)]; }
    ghost var head := ReferenceIssues(d, limit, s, value, depth)
      + One(ConstMismatch(s, value), "const_mismatch") + One(EnumMismatch(s, value), "enum_mismatch");
    assert issues == Shift(path, head);
    if TypeMismatch(s, value) {
      issues := issues + [Issue("type_mismatch", path)];
      assert NodeIssues(d, limit, schema, value, depth) == head + [Issue("type_mismatch", [])];
      return;
    }
    ghost var f := Frame(d, limit, schema, value, depth);
    var composed := ValidateComposition(d, limit, s, value, path, depth);
    var inside := ValidateValue(d, limit, s, value, path, depth);
    Extend(f, CompositionChecks(s, value), ValueChecks(d.library, s, value), path);
    issues := issues + composed + inside;
    ghost var checks := Checks(d.library, s, value);
    assert NodeIssues(d, limit, schema, value, depth) == head + RunIssues(d, limit, schema, value, checks, depth);
    ShiftAppend(path, head, RunIssues(d, limit, schema, value, checks, depth));
  }

  /** `validate_value_against_json_schema`. */
  method ValidateAgainstSchema(schema: Json, value: Json, library: Library) returns (issues: seq<Issue>)
    ensures issues == Validate(schema, value, library)
  {
    hide NodeIssues;
    issues := ValidateNode(Document(schema, library), MAX_REF_DEPTH, schema, value, [], 0);
    var direct := NodeIssues(Document(schema, library), MAX_REF_DEPTH, schema, value, 0);
    assert forall i | 0 <= i < |direct| :: [] + direct[i].path == direct[i].path;
  }
}
