/**
  Small documents on which the validator departs from its standard or its bound decides: what one node
  accepts, worked out from its keywords.
  */
module SchemaExamples {
  import opened Wrappers
  import opened JsonValues
  import opened Numerals
  import opened JsonPointer
  import opened SchemaChecks
  import opened SchemaIssues
  import opened SchemaSemantics
  import opened SchemaTheorems

  // ---------------------------------------------------------------- one node

  /** The validator's own verdicts on the parts of a node: a part of the value starts at no hops. */
  ghost function Verdicts(d: Document, limit: nat, value: Json, depth: nat): Verdict
    requires depth <= limit
  {
    (s, v) => NodeIssues(d, limit, s, v, if v == value then depth else 0) == []
  }

  lemma CheckMeans(d: Document, limit: nat, s: Members, value: Json, depth: nat, check: Check)
    requires depth <= limit && CheckFits(check, Obj(s), value)
    ensures CheckIssues(d, limit, Obj(s), value, check, depth) == []
      <==> CheckHolds(Verdicts(d, limit, value, depth), check)
  {
    var sat := Verdicts(d, limit, value, depth);
    var visits := VisitsOf(check);
    forall j | 0 <= j < |visits|
      ensures VisitIssues(d, limit, Obj(s), value, visits[j], depth) == [] <==> sat(visits[j].schema, visits[j].value)
    {
      hide NodeIssues, IsPart;
      assert Fits(visits[j], Obj(s), value);
    }
    hide CheckIssues, CheckHolds, VisitIssues, Verdicts, NodeIssues, Fits;
    CheckAgrees(d, limit, sat, Obj(s), value, check, depth);
  }

  /** A node has no issues exactly when its keywords hold, given the validator's verdicts on its parts. */
  lemma NodeMeans(d: Document, limit: nat, s: Members, value: Json, depth: nat)
    requires depth <= limit
    ensures var sat := Verdicts(d, limit, value, depth);
      NodeIssues(d, limit, Obj(s), value, depth) == [] <==>
        && ReferenceIssues(d, limit, s, value, depth) == [] && ScalarKeywordsHold(s, value)
        && CompositionHolds(sat, s, value) && ValueHolds(d.library, sat, s, value)
  {
    ScalarMeaning(s, value);
    hide Checks, RunIssues, CompositionHolds, ValueHolds, AllFit, AllAgree, ReferenceIssues, CheckIssues, CheckHolds,
      Verdicts, ScalarKeywordsHold, ConstMismatch, EnumMismatch, TypeMismatch;
    var sat := Verdicts(d, limit, value, depth);
    ChecksFit(d.library, s, value);
    ChecksMeaning(d.library, sat, s, value);
    if !TypeMismatch(s, value) {
      ChecksAgree(d, limit, s, value, depth);
      RunAgrees(d, limit, sat, Obj(s), value, Checks(d.library, s, value), depth);
    }
  }

  lemma ChecksAgree(d: Document, limit: nat, s: Members, value: Json, depth: nat)
    requires depth <= limit && AllFit(Checks(d.library, s, value), Obj(s), value)
    ensures AllAgree(d, limit, Verdicts(d, limit, value, depth), Obj(s), value, Checks(d.library, s, value), depth)
  {
    hide Checks, CheckFits, CheckIssues, CheckHolds, Verdicts;
    var checks := Checks(d.library, s, value);
    forall i | 0 <= i < |checks|
      ensures CheckFits(checks[i], Obj(s), value)
      ensures CheckIssues(d, limit, Obj(s), value, checks[i], depth) == []
        <==> CheckHolds(Verdicts(d, limit, value, depth), checks[i])
    {
      CheckMeans(d, limit, s, value, depth, checks[i]);
    }
  }

  // ---------------------------------------------------------------- keywords that are not there

  /** None of the keywords that look inside a value. */
  ghost predicate LooksAtNothing(s: Members) {
    && Keys(s) !! {"required", "dependentRequired", "minProperties", "maxProperties", "properties", "patternProperties",
                   "propertyNames", "additionalProperties"}
    && Keys(s) !! {"minItems", "maxItems", "uniqueItems", "prefixItems", "items", "contains"}
    && Keys(s) !! {"minLength", "maxLength", "pattern"}
    && Keys(s) !! {"minimum", "maximum", "exclusiveMinimum", "exclusiveMaximum", "multipleOf"}
  }

  lemma NothingInside(library: Library, sat: Verdict, s: Members, value: Json)
    requires LooksAtNothing(s)
    ensures ValueHolds(library, sat, s, value)
  {
    match value
    case Obj(m) =>
      assert "required" !in Keys(s) && "dependentRequired" !in Keys(s) && "minProperties" !in Keys(s)
        && "maxProperties" !in Keys(s);
      assert "properties" !in Keys(s) && "patternProperties" !in Keys(s) && "propertyNames" !in Keys(s);
      assert "additionalProperties" !in Keys(s);
    case Arr(items) =>
      assert "minItems" !in Keys(s) && "maxItems" !in Keys(s) && "uniqueItems" !in Keys(s);
      assert "prefixItems" !in Keys(s) && "items" !in Keys(s) && "contains" !in Keys(s);
    case Str(text) => assert "minLength" !in Keys(s) && "maxLength" !in Keys(s) && "pattern" !in Keys(s);
    case Int(i) => NothingAboutNumbers(s, i as real);
    case Float(x) => NothingAboutNumbers(s, x);
    case _ =>
  }

  lemma NothingAboutNumbers(s: Members, number: real)
    requires LooksAtNothing(s)
    ensures NumberHolds(s, number)
  {
    assert "minimum" !in Keys(s) && "maximum" !in Keys(s) && "exclusiveMinimum" !in Keys(s);
    assert "exclusiveMaximum" !in Keys(s) && "multipleOf" !in Keys(s);
  }

  lemma OneKey(key: string, v: Json)
    ensures Keys([Member(key, v)]) == {key} && Get([Member(key, v)], key) == Some(v)
  {
    var s := [Member(key, v)];
    assert s[0].key in Keys(s);
  }

  // ---------------------------------------------------------------- constants and types

  function ConstOnly(c: Json): Json { Obj([Member("const", c)]) }

  function TypeOnly(t: string): Json { Obj([Member("type", Str(t))]) }

  /** `{"const": c}` accepts the values that are JSON-equal to `c`. */
  lemma ConstAccepts(d: Document, limit: nat, c: Json, value: Json)
    ensures Accepts(d, limit, ConstOnly(c), value) <==> JsonEqual(value, c)
  {
    hide DeepEqual, ValueHolds, NodeIssues;
    var s := [Member("const", c)];
    OneKey("const", c);
    NodeMeans(d, limit, s, value, 0);
    NothingInside(d.library, Verdicts(d, limit, value, 0), s, value);
  }

  function TypeIn(names: seq<Json>): Json { Obj([Member("type", Arr(names))]) }

  lemma TypeMeans(d: Document, limit: nat, types: Json, value: Json)
    ensures Accepts(d, limit, Obj([Member("type", types)]), value) <==> TypeHolds([Member("type", types)], value)
  {
    hide ValueHolds, NodeIssues, TypeHolds;
    var s := [Member("type", types)];
    OneKey("type", types);
    NodeMeans(d, limit, s, value, 0);
    NothingInside(d.library, Verdicts(d, limit, value, 0), s, value);
  }

  lemma TypeOfOneName(d: Document, limit: nat, t: string, value: Json)
    ensures Accepts(d, limit, TypeOnly(t), value) <==> IsOfType(value, t)
  {
    hide IsOfType, NodeIssues;
    OneKey("type", Str(t));
    TypeMeans(d, limit, Str(t), value);
  }

  /** The values that each type name accepts: a number may be an integer, and an unknown name accepts everything. */
  lemma TypeAccepts(d: Document, limit: nat, t: string, value: Json)
    ensures Accepts(d, limit, TypeOnly("object"), value) <==> value.Obj?
    ensures Accepts(d, limit, TypeOnly("array"), value) <==> value.Arr?
    ensures Accepts(d, limit, TypeOnly("string"), value) <==> value.Str?
    ensures Accepts(d, limit, TypeOnly("integer"), value) <==> value.Int?
    ensures Accepts(d, limit, TypeOnly("number"), value) <==> value.Int? || value.Float?
    ensures Accepts(d, limit, TypeOnly("boolean"), value) <==> value.Bool?
    ensures Accepts(d, limit, TypeOnly("null"), value) <==> value.Null?
    ensures t !in {"object", "array", "string", "integer", "number", "boolean", "null"}
      ==> Accepts(d, limit, TypeOnly(t), value)
  {
    hide NodeIssues, Accepts;
    TypeOfOneName(d, limit, "object", value);
    TypeOfOneName(d, limit, "array", value);
    TypeOfOneName(d, limit, "string", value);
    TypeOfOneName(d, limit, "integer", value);
    TypeOfOneName(d, limit, "number", value);
    TypeOfOneName(d, limit, "boolean", value);
    TypeOfOneName(d, limit, "null", value);
    TypeOfOneName(d, limit, t, value);
  }

  /** A list of types accepts what one of its names accepts, and everything if it has no name. */
  lemma TypesAccept(d: Document, limit: nat, types: seq<Json>, value: Json)
    ensures Accepts(d, limit, TypeIn(types), value)
      <==> (forall i | 0 <= i < |types| :: !types[i].Str?)
           || exists i | 0 <= i < |types| :: types[i].Str? && Accepts(d, limit, TypeOnly(types[i].s), value)
  {
    hide IsOfType, NodeIssues, Accepts, TypeOnly;
    OneKey("type", Arr(types));
    TypeMeans(d, limit, Arr(types), value);
    forall i | 0 <= i < |types| && types[i].Str?
      ensures Accepts(d, limit, TypeOnly(types[i].s), value) <==> IsOfType(value, types[i].s)
    {
      TypeOfOneName(d, limit, types[i].s, value);
    }
  }

  // ---------------------------------------------------------------- contains and multipleOf

  lemma OneKeywordAlone(sat: Verdict, key: string, v: Json, value: Json)
    requires key == "contains" || key == "multipleOf"
    ensures var s := [Member(key, v)];
      CompositionHolds(sat, s, value) && ScalarKeywordsHold(s, value) && Reference(s).None?
  {
    OneKey(key, v);
  }

  lemma ContainsAlone(sat: Verdict, schema: Json, items: seq<Json>)
    requires schema != Null
    ensures ArrayHolds(sat, [Member("contains", schema)], items)
      <==> exists i | 0 <= i < |items| :: sat(schema, items[i])
  {
    OneKey("contains", schema);
    var satisfying := Satisfying(sat, schema, items);
    if i :| 0 <= i < |items| && sat(schema, items[i]) {
      assert i in satisfying;
    } else {
      assert satisfying == {};
    }
  }

  /** `contains` alone asks for one item that its schema accepts. */
  lemma ContainsAccepts(d: Document, limit: nat, schema: Json, items: seq<Json>)
    requires schema != Null
    ensures Accepts(d, limit, Obj([Member("contains", schema)]), Arr(items))
      <==> exists i | 0 <= i < |items| :: Accepts(d, limit, schema, items[i])
  {
    var s, value := [Member("contains", schema)], Arr(items);
    var sat := Verdicts(d, limit, value, 0);
    NodeMeans(d, limit, s, value, 0);
    OneKeywordAlone(sat, "contains", schema, value);
    ContainsAlone(sat, schema, items);
    hide NodeIssues, CompositionHolds, ScalarKeywordsHold, ArrayHolds, Reference;
    forall i | 0 <= i < |items| ensures sat(schema, items[i]) <==> Accepts(d, limit, schema, items[i]) {}
  }

  lemma MultipleAlone(step: real, x: real)
    requires step > 0.0
    ensures NumberHolds([Member("multipleOf", Float(step))], x) <==> NearInteger(x / step)
  {
    var s := [Member("multipleOf", Float(step))];
    OneKey("multipleOf", Float(step));
    hide NearInteger;
    assert IsBound(s, "multipleOf", step);
  }

  /** A float is a multiple of a positive number when the quotient is within a billionth of an integer. */
  lemma MultipleAccepts(d: Document, limit: nat, step: real, x: real)
    requires step > 0.0
    ensures Accepts(d, limit, Obj([Member("multipleOf", Float(step))]), Float(x)) <==> NearInteger(x / step)
  {
    var s := [Member("multipleOf", Float(step))];
    var sat := Verdicts(d, limit, Float(x), 0);
    NodeMeans(d, limit, s, Float(x), 0);
    OneKeywordAlone(sat, "multipleOf", Float(step), Float(x));
    MultipleAlone(step, x);
    hide NodeIssues, NearInteger, CompositionHolds, ScalarKeywordsHold, Reference, NumberHolds, Verdicts;
  }

  // ---------------------------------------------------------------- integers

  predicate IsWhole(x: real) { x == x.Floor as real }

  /** JSON Schema Validation section 6.1.1: "integer" matches any number with a zero fractional part. */
  predicate IsIntegerByStandard(value: Json) { value.Int? || (value.Float? && IsWhole(value.x)) }

  /** The code agrees with the standard on integers exactly when the value is no float without a fraction. */
  lemma IntegerAgreesExactly(d: Document, limit: nat, value: Json)
    ensures (Accepts(d, limit, TypeOnly("integer"), value) <==> IsIntegerByStandard(value))
      <==> !(value.Float? && IsWhole(value.x))
  {
    TypeAccepts(d, limit, "integer", value);
  }

  /** For one, `1.0`. */
  lemma IntegerRefusesOnePointZero(d: Document, limit: nat)
    ensures !Accepts(d, limit, TypeOnly("integer"), Float(1.0)) && IsIntegerByStandard(Float(1.0))
  {
    TypeAccepts(d, limit, "integer", Float(1.0));
  }

  // ---------------------------------------------------------------- the bound under oneOf

  /** `{"oneOf": [{"$ref": "#"}, true]}`. */
  const SELF_CHOICE := Obj([Member("oneOf", Arr([SELF_REFERENCE, Bool(true)]))])

  lemma ExactlyOneOfTwo(sat: Verdict, branch: Json, value: Json)
    requires sat(Bool(true), value)
    ensures OneOfHolds(sat, [Member("oneOf", Arr([branch, Bool(true)]))], value) <==> !sat(branch, value)
  {
    var branches := [branch, Bool(true)];
    var s := [Member("oneOf", Arr(branches))];
    OneKey("oneOf", Arr(branches));
    assert GetItems(s, "oneOf") == branches;
    assert sat(branches[1], value);
    if !sat(branch, value) {
      assert forall j | 0 <= j < |branches| && j != 1 :: !sat(branches[j], value);
    } else {
      assert sat(branches[0], value);
    }
  }

  lemma EitherOrTrue(sat: Verdict, branch: Json, value: Json)
    requires sat(Bool(true), value)
    ensures var s := [Member("oneOf", Arr([branch, Bool(true)]))];
      && (CompositionHolds(sat, s, value) <==> !sat(branch, value))
      && ScalarKeywordsHold(s, value) && LooksAtNothing(s) && Reference(s).None?
  {
    hide OneOfHolds, CompositionHolds, ScalarKeywordsHold;
    var s := [Member("oneOf", Arr([branch, Bool(true)]))];
    OneKey("oneOf", Arr([branch, Bool(true)]));
    ExactlyOneOfTwo(sat, branch, value);
    OnlyOneOf(sat, s, value);
    NoScalarKeyword(s, value);
  }

  lemma OnlyOneOf(sat: Verdict, s: Members, value: Json)
    requires Keys(s) <= {"oneOf"}
    ensures CompositionHolds(sat, s, value) <==> OneOfHolds(sat, s, value)
  {
    hide OneOfHolds;
    assert "allOf" !in Keys(s) && "anyOf" !in Keys(s) && "not" !in Keys(s);
  }

  lemma NoScalarKeyword(s: Members, value: Json)
    requires Keys(s) <= {"oneOf"}
    ensures ScalarKeywordsHold(s, value) && Reference(s).None?
  {
    assert "const" !in Keys(s) && "enum" !in Keys(s) && "type" !in Keys(s) && "$ref" !in Keys(s);
  }

  lemma TrueAccepts(d: Document, limit: nat, value: Json, depth: nat)
    requires depth <= limit
    ensures NodeIssues(d, limit, Bool(true), value, depth) == []
  {}

  lemma ChoiceFlips(d: Document, limit: nat, value: Json, depth: nat)
    requires depth <= limit
    ensures NodeIssues(d, limit, SELF_CHOICE, value, depth) == []
      <==> NodeIssues(d, limit, SELF_REFERENCE, value, depth) != []
  {
    hide ValueHolds, NodeIssues, ReferenceIssues, CompositionHolds, ScalarKeywordsHold, LooksAtNothing;
    var s := [Member("oneOf", Arr([SELF_REFERENCE, Bool(true)]))];
    var sat := Verdicts(d, limit, value, depth);
    TrueAccepts(d, limit, value, depth);
    EitherOrTrue(sat, SELF_REFERENCE, value);
    NodeMeans(d, limit, s, value, depth);
    NothingInside(d.library, sat, s, value);
    NoReferenceNoIssue(d, limit, s, value, depth);
  }

  lemma NoReferenceNoIssue(d: Document, limit: nat, s: Members, value: Json, depth: nat)
    requires depth <= limit && Reference(s).None?
    ensures ReferenceIssues(d, limit, s, value, depth) == []
  {}

  lemma ChoiceStep(library: Library, limit: nat, value: Json, depth: nat)
    requires depth <= limit
    ensures var d := Document(SELF_CHOICE, library);
      NodeIssues(d, limit, SELF_CHOICE, value, depth) == []
      <==> depth == limit || NodeIssues(d, limit, SELF_CHOICE, value, depth + 1) != []
  {
    hide NodeIssues;
    var d := Document(SELF_CHOICE, library);
    ChoiceFlips(d, limit, value, depth);
    ReferenceOnly(d, limit, "#", value, depth);
    assert Target(d, "#") == Some(SELF_CHOICE);
  }

  /** Its verdict too is the parity of the hops left: a larger bound turns acceptance into rejection. */
  lemma {:induction false} OneOfCountsHops(library: Library, limit: nat, value: Json, depth: nat)
    requires depth <= limit
    ensures NodeIssues(Document(SELF_CHOICE, library), limit, SELF_CHOICE, value, depth) == []
      <==> (limit - depth) % 2 == 0
    decreases limit - depth
  {
    hide NodeIssues;
    ChoiceStep(library, limit, value, depth);
    if depth < limit { OneOfCountsHops(library, limit, value, depth + 1); }
  }

  // ---------------------------------------------------------------- the bound under maxContains

  /** The `i`-th link of a chain of references that ends in `true`. */
  function Link(i: nat): Json {
    if i == 0 then Bool(true) else Obj([Member("$ref", Str("#/" + Numeral(i - 1)))])
  }

  function Links(k: nat): (m: Members)
    ensures |m| == k + 1
  {
    seq(k + 1, i requires 0 <= i < k + 1 => Member(Numeral(i), Link(i)))
  }

  /** An array that may hold no item the chain accepts, beside the chain's `k + 1` links. */
  function ChainMembers(k: nat): Members {
    [Member("contains", Link(k + 1)), Member("maxContains", Int(0)), Member("minContains", Int(0))] + Links(k)
  }

  function NothingContained(k: nat): Json { Obj(ChainMembers(k)) }

  lemma ChainKeys(k: nat, key: string)
    requires key in Keys(ChainMembers(k))
    ensures key == "contains" || key == "maxContains" || key == "minContains" || (|key| > 0 && IsDigit(key[0]))
  {
    var m := ChainMembers(k);
    var i :| 0 <= i < |m| && m[i].key == key;
    if i >= 3 {
      assert m[i] == Links(k)[i - 3];
      assert AllDigits(Numeral(i - 3));
    }
  }

  lemma ChainIsDistinct(k: nat)
    ensures DistinctKeys(ChainMembers(k))
  {
    var m := ChainMembers(k);
    forall i, j | 0 <= i < j < |m| ensures m[i].key != m[j].key {
      if j >= 3 {
        assert m[j] == Links(k)[j - 3] && AllDigits(Numeral(j - 3));
        if i >= 3 {
          assert m[i] == Links(k)[i - 3];
          if m[i].key == m[j].key { NumeralInjective(i - 3, j - 3); }
        } else {
          assert IsDigit(m[j].key[0]) && !IsDigit(m[i].key[0]);
        }
      }
    }
  }

  lemma ChainLooksUp(k: nat)
    ensures var m := ChainMembers(k);
      && Get(m, "contains") == Some(Link(k + 1)) && Get(m, "maxContains") == Some(Int(0))
        && Get(m, "minContains") == Some(Int(0))
      && forall i | 0 <= i <= k :: Get(m, Numeral(i)) == Some(Link(i))
  {
    var m := ChainMembers(k);
    ChainIsDistinct(k);
    hide Link;
    LookupAt(m, 0);
    LookupAt(m, 1);
    LookupAt(m, 2);
    assert m[0].key == "contains" && m[1].key == "maxContains" && m[2].key == "minContains";
    forall i | 0 <= i <= k ensures Get(m, Numeral(i)) == Some(Link(i)) {
      assert m[i + 3] == Links(k)[i];
      LookupAt(m, i + 3);
    }
  }

  lemma KeyEscapesToItself(key: string)
    requires AllDigits(key)
    ensures EscapeKey(key) == key
  {
    if key != "" { KeyEscapesToItself(key[1..]); }
  }

  lemma NumeralReferenceResolves(root: Json, key: string, target: Json, decoders: Decoders)
    requires Lawful(decoders) && AllDigits(key) && root.Obj? && Get(root.members, key) == Some(target)
    ensures Resolve("#/" + key, root, decoders) == Some(target)
  {
    var path := [Key(key)];
    OneKeyPath(root, key);
    NothingToUnquote(key, decoders);
    hide Resolve, Lawful, PointerText, NodeAt, UnquoteAfter;
    PointerRoundTrip(root, path, decoders);
    assert "#" + PointerText(path) == "#/" + key;
  }

  lemma OneKeyPath(root: Json, key: string)
    requires AllDigits(key)
    ensures NodeAt(root, [Key(key)]) == if root.Obj? then Get(root.members, key) else None
    ensures PointerText([Key(key)]) == "/" + key
  {
    KeyEscapesToItself(key);
    var path := [Key(key)];
    assert path[1..] == [] && PointerText([]) == "";
    assert "/" + key + "" == "/" + key;
    forall v: Json ensures NodeAt(v, []) == Some(v) {}
  }

  /** The reference to link `i` resolves to it. */
  lemma LinkResolves(k: nat, i: nat, library: Library)
    requires i <= k && Lawful(library.decoders)
    ensures Target(Document(NothingContained(k), library), "#/" + Numeral(i)) == Some(Link(i))
  {
    ChainLooksUp(k);
    hide Link, Resolve, Lawful, ChainMembers;
    NumeralReferenceResolves(NothingContained(k), Numeral(i), Link(i), library.decoders);
  }

  lemma LinkStep(k: nat, i: nat, library: Library, limit: nat, value: Json, depth: nat)
    requires i <= k && depth <= limit && Lawful(library.decoders)
    ensures var d := Document(NothingContained(k), library);
      NodeIssues(d, limit, Link(i + 1), value, depth) == []
      <==> depth < limit && NodeIssues(d, limit, Link(i), value, depth + 1) == []
  {
    LinkIs(i + 1);
    hide NodeIssues, Link, Resolve, NothingContained, Numeral, Lawful;
    var d := Document(NothingContained(k), library);
    LinkResolves(k, i, library);
    var reference := "#/" + Numeral(i);
    ReferenceOnly(d, limit, reference, value, depth);
    ReferenceStep(d, limit, reference, Link(i), value, depth);
  }

  lemma LinkIs(i: nat)
    requires i > 0
    ensures Link(i) == Obj([Member("$ref", Str("#/" + Numeral(i - 1)))])
  {}

  lemma LastLinkIs()
    ensures Link(0) == Bool(true)
  {}

  lemma ReferenceStep(d: Document, limit: nat, reference: string, target: Json, value: Json, depth: nat)
    requires depth <= limit && Target(d, reference) == Some(target)
    ensures var s := [Member("$ref", Str(reference))];
      ReferenceIssues(d, limit, s, value, depth) == []
      <==> depth < limit && NodeIssues(d, limit, target, value, depth + 1) == []
  {
    hide NodeIssues, Target;
    OneKey("$ref", Str(reference));
  }

  /** Link `i` accepts a value exactly when `i` hops are left. */
  lemma {:induction false} LinkCountsHops(k: nat, i: nat, library: Library, limit: nat, value: Json, depth: nat)
    requires i <= k + 1 && depth <= limit && Lawful(library.decoders)
    ensures NodeIssues(Document(NothingContained(k), library), limit, Link(i), value, depth) == []
      <==> i <= limit - depth
    decreases i
  {
    hide NodeIssues, Link, NothingContained, Lawful;
    if i == 0 {
      LastLinkIs();
      TrueAccepts(Document(NothingContained(k), library), limit, value, depth);
    } else {
      LinkStep(k, i - 1, library, limit, value, depth);
      if depth < limit { LinkCountsHops(k, i - 1, library, limit, value, depth + 1); }
    }
  }

  lemma NotAKeyword(k: nat, key: string)
    requires |key| > 0 && !IsDigit(key[0]) && key != "contains" && key != "maxContains" && key != "minContains"
    ensures key !in Keys(ChainMembers(k))
  {
    if key in Keys(ChainMembers(k)) { ChainKeys(k, key); }
  }

  lemma ChainHasNoComposition(k: nat, sat: Verdict, value: Json)
    ensures var s := ChainMembers(k);
      CompositionHolds(sat, s, value) && ScalarKeywordsHold(s, value) && Reference(s).None?
  {
    NotAKeyword(k, "allOf");
    NotAKeyword(k, "anyOf");
    NotAKeyword(k, "oneOf");
    NotAKeyword(k, "not");
    NotAKeyword(k, "const");
    NotAKeyword(k, "enum");
    NotAKeyword(k, "type");
    NotAKeyword(k, "$ref");
  }

  lemma ChainIsAboutContains(k: nat, sat: Verdict, items: seq<Json>)
    ensures ArrayHolds(sat, ChainMembers(k), items) <==> ContainsHolds(sat, ChainMembers(k), items)
  {
    hide ContainsHolds;
    NotAKeyword(k, "minItems");
    NotAKeyword(k, "maxItems");
    NotAKeyword(k, "uniqueItems");
    NotAKeyword(k, "prefixItems");
    NotAKeyword(k, "items");
  }

  lemma ContainsNothing(k: nat, sat: Verdict, item: Json)
    ensures ContainsHolds(sat, ChainMembers(k), [item]) <==> !sat(Link(k + 1), item)
  {
    ChainLooksUp(k);
    hide Link;
    var schema := Link(k + 1);
    LinkIsSchema(k + 1);
    if sat(schema, item) {
      assert Satisfying(sat, schema, [item]) == {0};
    } else {
      assert Satisfying(sat, schema, [item]) == {};
    }
  }

  lemma LinkIsSchema(i: nat)
    ensures Link(i) != Null
  {}

  /**
    With `maxContains` a long chain of references does the same: the one-item array is accepted by every
    bound too small to follow the chain (the program's own, if `k` is 64 or more) and rejected by every larger one.
    */
  lemma MaxContainsCountsHops(k: nat, library: Library, limit: nat, item: Json)
    requires Lawful(library.decoders)
    ensures Accepts(Document(NothingContained(k), library), limit, NothingContained(k), Arr([item])) <==> limit <= k
  {
    hide NodeIssues, CompositionHolds, ScalarKeywordsHold, ArrayHolds, ReferenceIssues, ChainMembers, ContainsHolds,
      Link;
    var d := Document(NothingContained(k), library);
    var s, value := ChainMembers(k), Arr([item]);
    var sat := Verdicts(d, limit, value, 0);
    NodeMeans(d, limit, s, value, 0);
    ChainHasNoComposition(k, sat, value);
    NoReferenceNoIssue(d, limit, s, value, 0);
    ChainIsAboutContains(k, sat, [item]);
    ContainsNothing(k, sat, item);
    LinkCountsHops(k, k + 1, library, limit, item, 0);
  }

  /** The program's bound is 64 hops: it follows a chain of 64 references and no longer one. */
  lemma ProgramFollowsSixtyFour(k: nat, library: Library, item: Json)
    requires Lawful(library.decoders)
    ensures Validate(NothingContained(k), Arr([item]), library) == [] <==> 64 <= k
  {
    hide NodeIssues;
    MaxContainsCountsHops(k, library, MAX_REF_DEPTH, item);
  }
}
