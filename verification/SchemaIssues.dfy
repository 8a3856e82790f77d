/**
  The issues the validator reports, with paths relative to the value it was given. `limit` is the
  number of `$ref` hops allowed before some of the value has to be consumed (64 in the program).
  */
module SchemaIssues {
  import opened Wrappers
  import opened JsonValues
  import opened JsonPointer
  import opened SchemaChecks

  const MAX_REF_DEPTH: nat := 64

  /** Issues of a part, reported from `at`. */
  function Shift(at: seq<Segment>, issues: seq<Issue>): seq<Issue> {
    seq(|issues|, i requires 0 <= i < |issues| => Issue(issues[i].code, at + issues[i].path))
  }

  function One(condition: bool, code: string): seq<Issue> {
    if condition then [Issue(code, [])] else []
  }

  function Reference(s: Members): Option<string> {
    match Get(s, "$ref")
    case Some(Str(reference)) => Some(reference)
    case _ => None
  }

  function Target(d: Document, reference: string): Option<Json> {
    Resolve(reference, d.root, d.library.decoders)
  }

  function NodeIssues(d: Document, limit: nat, schema: Json, value: Json, depth: nat): seq<Issue>
    requires depth <= limit
    decreases Size(value), limit - depth, Size(schema), 4, 0
  {
    match schema
    case Bool(b) => One(!b, "schema_forbids_value")
    case Obj(s) =>
      ReferenceIssues(d, limit, s, value, depth)
      + One(ConstMismatch(s, value), "const_mismatch")
      + One(EnumMismatch(s, value), "enum_mismatch")
      + if TypeMismatch(s, value) then [Issue("type_mismatch", [])]
        else
          ChecksFit(d.library, s, value);
          RunIssues(d, limit, schema, value, Checks(d.library, s, value), depth)
    case _ => []
  }

  function ReferenceIssues(d: Document, limit: nat, s: Members, value: Json, depth: nat): seq<Issue>
    requires depth <= limit
    decreases Size(value), limit - depth, 0, 0, 0
  {
    match Reference(s)
    case None => []
    case Some(reference) =>
      if depth >= limit then [Issue("schema_recursion", [])]
      else
        match Target(d, reference)
        case None => [Issue("unresolvable_ref", [])]
        case Some(target) => NodeIssues(d, limit, target, value, depth + 1)
  }

  function RunIssues(d: Document, limit: nat, schema: Json, value: Json, checks: seq<Check>, depth: nat): seq<Issue>
    requires depth <= limit && AllFit(checks, schema, value)
    decreases Size(value), limit - depth, Size(schema), 3, |checks|
  {
    if |checks| == 0 then []
    else
      var last := |checks| - 1;
      RunIssues(d, limit, schema, value, checks[..last], depth)
      + CheckIssues(d, limit, schema, value, checks[last], depth)
  }

  function VisitIssues(d: Document, limit: nat, schema: Json, value: Json, visit: Visit, depth: nat): seq<Issue>
    requires depth <= limit && Fits(visit, schema, value)
    decreases Size(value), limit - depth, Size(schema), 0, 0
  {
    NodeIssues(d, limit, visit.schema, visit.value, if visit.consumes then 0 else depth)
  }

  function CheckIssues(d: Document, limit: nat, schema: Json, value: Json, check: Check, depth: nat): seq<Issue>
    requires depth <= limit && CheckFits(check, schema, value)
    decreases Size(value), limit - depth, Size(schema), 2, 0
  {
    match check
    case Fail(issue) => [issue]
    case Each(visit) =>
      assert Fits(VisitsOf(check)[0], schema, value);
      Shift(visit.at, VisitIssues(d, limit, schema, value, visit, depth))
    case Count(visits, least, most, tooFew, tooMany) =>
      assert visits == VisitsOf(check);
      var matched := Matches(d, limit, schema, value, visits, depth);
      One(matched < least, tooFew) + One(most.Some? && matched > most.value, tooMany)
  }

  /** How many visits report nothing. */
  function Matches(d: Document, limit: nat, schema: Json, value: Json, visits: seq<Visit>, depth: nat): nat
    requires depth <= limit
    requires forall i | 0 <= i < |visits| :: Fits(visits[i], schema, value)
    decreases Size(value), limit - depth, Size(schema), 1, |visits|
  {
    if |visits| == 0 then 0
    else
      var last := |visits| - 1;
      Matches(d, limit, schema, value, visits[..last], depth)
      + if VisitIssues(d, limit, schema, value, visits[last], depth) == [] then 1 else 0
  }

  /** `validate_value_against_json_schema`: the schema is its own reference root. */
  function Validate(schema: Json, value: Json, library: Library): seq<Issue> {
    NodeIssues(Document(schema, library), MAX_REF_DEPTH, schema, value, 0)
  }

  predicate Accepts(d: Document, limit: nat, schema: Json, value: Json) {
    NodeIssues(d, limit, schema, value, 0) == []
  }
}
