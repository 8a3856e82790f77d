/**
  What the hop bound of the validator does and does not change.

  A value is settled for a schema when some bound is never met while it is validated. On settled
  values the keyword equations have exactly one solution, the validator computes it, and no larger
  bound changes a single issue.
  */
module SchemaTheorems {
  import opened Wrappers
  import opened JsonValues
  import opened JsonPointer
  import opened SchemaChecks
  import opened SchemaIssues
  import opened SchemaSemantics

  /** Validation at `depth` never meets the hop bound. */
  ghost predicate Clean(d: Document, limit: nat, schema: Json, value: Json, depth: nat)
    requires depth <= limit
    decreases Size(value), limit - depth, Size(schema), 1
  {
    schema.Obj? ==>
      && (Reference(schema.members).Some? ==>
            && depth < limit
            && var target := Target(d, Reference(schema.members).value);
               target.Some? ==> Clean(d, limit, target.value, value, depth + 1))
      && (!TypeMismatch(schema.members, value) ==>
            VisitsClean(d, limit, schema, value, Checks(d.library, schema.members, value), depth))
  }

  ghost predicate VisitsClean(d: Document, limit: nat, schema: Json, value: Json, checks: seq<Check>, depth: nat)
    requires depth <= limit
    decreases Size(value), limit - depth, Size(schema), 0
  {
    forall i | 0 <= i < |checks| :: forall j | 0 <= j < |VisitsOf(checks[i])| ::
      var v := VisitsOf(checks[i])[j];
      Fits(v, schema, value) && Clean(d, limit, v.schema, v.value, if v.consumes then 0 else depth)
  }

  ghost predicate Settled(d: Document, schema: Json, value: Json) {
    exists limit: nat :: Clean(d, limit, schema, value, 0)
  }

  // ---------------------------------------------------------------- a larger bound changes nothing

  ghost predicate SameOnVisits(d: Document, limit: nat, limit': nat, schema: Json, value: Json,
                               visits: seq<Visit>, depth: nat, depth': nat)
    requires depth <= limit && depth' <= limit'
    requires forall i | 0 <= i < |visits| :: Fits(visits[i], schema, value)
  {
    forall i | 0 <= i < |visits| ::
      VisitIssues(d, limit', schema, value, visits[i], depth') == VisitIssues(d, limit, schema, value, visits[i], depth)
  }

  lemma {:induction false} MatchesSame(d: Document, limit: nat, limit': nat, schema: Json, value: Json,
                                       visits: seq<Visit>, depth: nat, depth': nat)
    requires depth <= limit && depth' <= limit'
    requires forall i | 0 <= i < |visits| :: Fits(visits[i], schema, value)
    requires SameOnVisits(d, limit, limit', schema, value, visits, depth, depth')
    ensures Matches(d, limit', schema, value, visits, depth') == Matches(d, limit, schema, value, visits, depth)
  {
    hide VisitIssues, Fits;
    if |visits| > 0 {
      hide Matches;
      MatchesSame(d, limit, limit', schema, value, visits[..|visits| - 1], depth, depth');
      MatchesLast(d, limit, schema, value, visits, depth);
      MatchesLast(d, limit', schema, value, visits, depth');
    }
  }

  lemma MatchesLast(d: Document, limit: nat, schema: Json, value: Json, visits: seq<Visit>, depth: nat)
    requires depth <= limit && |visits| > 0
    requires forall i | 0 <= i < |visits| :: Fits(visits[i], schema, value)
    ensures var last := |visits| - 1;
      Matches(d, limit, schema, value, visits, depth)
      == Matches(d, limit, schema, value, visits[..last], depth)
         + (if VisitIssues(d, limit, schema, value, visits[last], depth) == [] then 1 else 0)
  {
    hide VisitIssues, Fits;
  }

  lemma CheckSame(d: Document, limit: nat, limit': nat, schema: Json, value: Json,
                  check: Check, depth: nat, depth': nat)
    requires depth <= limit && depth' <= limit' && CheckFits(check, schema, value)
    requires SameOnVisits(d, limit, limit', schema, value, VisitsOf(check), depth, depth')
    ensures CheckIssues(d, limit', schema, value, check, depth') == CheckIssues(d, limit, schema, value, check, depth)
  {
    hide VisitIssues, Fits, NodeIssues, IsPart, Size, Matches, Shift, One, Bounding;
    match check
    case Fail(_) =>
    case Each(visit) => assert VisitsOf(check)[0] == visit;
    case Count(visits, _, _, _, _) => MatchesSame(d, limit, limit', schema, value, visits, depth, depth');
  }

  lemma {:induction false} RunSame(d: Document, limit: nat, limit': nat, schema: Json, value: Json,
                                   checks: seq<Check>, depth: nat, depth': nat)
    requires depth <= limit && depth' <= limit' && AllFit(checks, schema, value)
    requires forall i | 0 <= i < |checks| ::
      && CheckFits(checks[i], schema, value)
      && CheckIssues(d, limit', schema, value, checks[i], depth')
         == CheckIssues(d, limit, schema, value, checks[i], depth)
    ensures RunIssues(d, limit', schema, value, checks, depth') == RunIssues(d, limit, schema, value, checks, depth)
  {
    hide CheckIssues, CheckFits;
    if |checks| > 0 { RunSame(d, limit, limit', schema, value, checks[..|checks| - 1], depth, depth'); }
  }

  lemma CleanParts(d: Document, limit: nat, s: Members, value: Json, depth: nat)
    requires depth <= limit
    ensures Clean(d, limit, Obj(s), value, depth) <==>
      && (Reference(s).Some? ==>
            && depth < limit
            && var target := Target(d, Reference(s).value);
               target.Some? ==> Clean(d, limit, target.value, value, depth + 1))
      && (!TypeMismatch(s, value) ==> VisitsClean(d, limit, Obj(s), value, Checks(d.library, s, value), depth))
  {
    hide Checks, VisitsClean, TypeMismatch, Target;
  }

  lemma NothingToClean(d: Document, limit: nat, schema: Json, value: Json, depth: nat)
    requires depth <= limit && !schema.Obj?
    ensures Clean(d, limit, schema, value, depth)
  {}

  lemma NodeSame(d: Document, limit: nat, limit': nat, s: Members, value: Json, depth: nat, depth': nat)
    requires depth <= limit && depth' <= limit'
    requires Reference(s).Some? ==> depth < limit && depth' < limit'
    requires Reference(s).Some? && Target(d, Reference(s).value).Some? ==>
      var target := Target(d, Reference(s).value).value;
      NodeIssues(d, limit', target, value, depth' + 1) == NodeIssues(d, limit, target, value, depth + 1)
    requires AllFit(Checks(d.library, s, value), Obj(s), value)
    requires !TypeMismatch(s, value) ==>
      var checks := Checks(d.library, s, value);
      RunIssues(d, limit', Obj(s), value, checks, depth') == RunIssues(d, limit, Obj(s), value, checks, depth)
    ensures NodeIssues(d, limit', Obj(s), value, depth') == NodeIssues(d, limit, Obj(s), value, depth)
  {
    hide Checks, RunIssues, TypeMismatch, Target, AllFit;
  }

  lemma {:induction false} LargerBoundStaysClean(d: Document, limit: nat, limit': nat, schema: Json, value: Json,
                                                 depth: nat, depth': nat)
    requires depth <= limit && depth' <= limit' && limit <= limit' && limit - depth <= limit' - depth'
    requires Clean(d, limit, schema, value, depth)
    ensures Clean(d, limit', schema, value, depth')
    decreases Size(value), limit - depth, Size(schema), 1
  {
    hide Clean, Checks, VisitsClean;
    if schema.Obj? {
      var s := schema.members;
      CleanParts(d, limit, s, value, depth);
      CleanParts(d, limit', s, value, depth');
      if Reference(s).Some? {
        var target := Target(d, Reference(s).value);
        if target.Some? { LargerBoundStaysClean(d, limit, limit', target.value, value, depth + 1, depth' + 1); }
      }
      if !TypeMismatch(s, value) {
        VisitsStayClean(d, limit, limit', schema, value, Checks(d.library, s, value), depth, depth');
      }
    } else {
      assert Clean(d, limit', schema, value, depth') by { NothingToClean(d, limit', schema, value, depth'); }
    }
  }

  lemma {:induction false} VisitsStayClean(d: Document, limit: nat, limit': nat, schema: Json, value: Json,
                                           checks: seq<Check>, depth: nat, depth': nat)
    requires depth <= limit && depth' <= limit' && limit <= limit' && limit - depth <= limit' - depth'
    requires VisitsClean(d, limit, schema, value, checks, depth)
    ensures VisitsClean(d, limit', schema, value, checks, depth')
    decreases Size(value), limit - depth, Size(schema), 0
  {
    forall i, j | 0 <= i < |checks| && 0 <= j < |VisitsOf(checks[i])|
      ensures var v := VisitsOf(checks[i])[j];
        Fits(v, schema, value) && Clean(d, limit', v.schema, v.value, if v.consumes then 0 else depth')
    {
      var v := VisitsOf(checks[i])[j];
      LargerBoundStaysClean(d, limit, limit', v.schema, v.value,
        if v.consumes then 0 else depth, if v.consumes then 0 else depth');
    }
  }

  /** With at least as many hops left, a clean validation reports exactly the same issues. */
  lemma {:induction false} LargerBoundSameIssues(d: Document, limit: nat, limit': nat, schema: Json, value: Json,
                                                 depth: nat, depth': nat)
    requires depth <= limit && depth' <= limit' && limit <= limit' && limit - depth <= limit' - depth'
    requires Clean(d, limit, schema, value, depth)
    ensures Clean(d, limit', schema, value, depth')
    ensures NodeIssues(d, limit', schema, value, depth') == NodeIssues(d, limit, schema, value, depth)
    decreases Size(value), limit - depth, Size(schema), 1
  {
    hide Clean, Checks, VisitsClean, RunIssues, AllFit, NodeIssues, Reference, Target, TypeMismatch;
    LargerBoundStaysClean(d, limit, limit', schema, value, depth, depth');
    if !schema.Obj? {
      NoHopsToCount(d, limit, limit', schema, value, depth, depth');
    } else {
      var s := schema.members;
      CleanParts(d, limit, s, value, depth);
      if Reference(s).Some? {
        var target := Target(d, Reference(s).value);
        if target.Some? { LargerBoundSameIssues(d, limit, limit', target.value, value, depth + 1, depth' + 1); }
      }
      ChecksFit(d.library, s, value);
      if !TypeMismatch(s, value) {
        LargerBoundSameRun(d, limit, limit', schema, value, Checks(d.library, s, value), depth, depth');
      }
      NodeSame(d, limit, limit', s, value, depth, depth');
    }
  }

  lemma NoHopsToCount(d: Document, limit: nat, limit': nat, schema: Json, value: Json, depth: nat, depth': nat)
    requires depth <= limit && depth' <= limit' && !schema.Obj?
    ensures NodeIssues(d, limit', schema, value, depth') == NodeIssues(d, limit, schema, value, depth)
  {}

  /** One visit of a clean validation: it fits, it is smaller, and it is clean itself. */
  lemma VisitAt(d: Document, limit: nat, schema: Json, value: Json, checks: seq<Check>, depth: nat, i: nat, j: nat)
    requires depth <= limit && AllFit(checks, schema, value) && VisitsClean(d, limit, schema, value, checks, depth)
    requires i < |checks| && j < |VisitsOf(checks[i])|
    ensures var v := VisitsOf(checks[i])[j];
      var from := if v.consumes then 0 else depth;
      && Fits(v, schema, value) && Clean(d, limit, v.schema, v.value, from)
      && (if v.consumes then Size(v.value) < Size(value) else v.value == value && Size(v.schema) < Size(schema))
      && VisitIssues(d, limit, schema, value, v, depth) == NodeIssues(d, limit, v.schema, v.value, from)
  {
    hide Clean, NodeIssues, IsPart, Size;
    assert CheckFits(checks[i], schema, value);
  }

  lemma VisitIs(d: Document, limit: nat, schema: Json, value: Json, v: Visit, depth: nat)
    requires depth <= limit && Fits(v, schema, value)
    ensures VisitIssues(d, limit, schema, value, v, depth)
         == NodeIssues(d, limit, v.schema, v.value, if v.consumes then 0 else depth)
  {
    hide NodeIssues, Fits;
  }

  lemma {:induction false} LargerBoundSameRun(d: Document, limit: nat, limit': nat, schema: Json, value: Json,
                                              checks: seq<Check>, depth: nat, depth': nat)
    requires depth <= limit && depth' <= limit' && limit <= limit' && limit - depth <= limit' - depth'
    requires AllFit(checks, schema, value) && VisitsClean(d, limit, schema, value, checks, depth)
    ensures RunIssues(d, limit', schema, value, checks, depth') == RunIssues(d, limit, schema, value, checks, depth)
    decreases Size(value), limit - depth, Size(schema), 0
  {
    forall i | 0 <= i < |checks|
      ensures CheckFits(checks[i], schema, value)
      ensures CheckIssues(d, limit', schema, value, checks[i], depth')
           == CheckIssues(d, limit, schema, value, checks[i], depth)
    {
      hide CheckIssues, NodeIssues, VisitIssues, Fits, Clean, VisitsClean, Size;
      assert CheckFits(checks[i], schema, value);
      var visits := VisitsOf(checks[i]);
      forall j | 0 <= j < |visits|
        ensures VisitIssues(d, limit', schema, value, visits[j], depth')
             == VisitIssues(d, limit, schema, value, visits[j], depth)
      {
        var v := visits[j];
        VisitAt(d, limit, schema, value, checks, depth, i, j);
        VisitIs(d, limit', schema, value, v, depth');
        LargerBoundSameIssues(d, limit, limit', v.schema, v.value,
          if v.consumes then 0 else depth, if v.consumes then 0 else depth');
      }
      CheckSame(d, limit, limit', schema, value, checks[i], depth, depth');
    }
    RunSame(d, limit, limit', schema, value, checks, depth, depth');
  }

  // ---------------------------------------------------------------- the keyword equations

  /** `sat` gives every settled value the verdict its keywords give it. */
  ghost predicate Solves(d: Document, sat: Verdict) {
    forall schema: Json, value: Json | Settled(d, schema, value) ::
      sat(schema, value) <==> Holds(d, sat, schema, value)
  }

  ghost predicate AgreeOnVisits(d: Document, limit: nat, sat: Verdict, schema: Json, value: Json,
                                visits: seq<Visit>, depth: nat)
    requires depth <= limit
    requires forall i | 0 <= i < |visits| :: Fits(visits[i], schema, value)
  {
    forall i | 0 <= i < |visits| ::
      VisitIssues(d, limit, schema, value, visits[i], depth) == [] <==> sat(visits[i].schema, visits[i].value)
  }

  lemma {:induction false} MatchesAgree(d: Document, limit: nat, sat: Verdict, schema: Json, value: Json,
                                        visits: seq<Visit>, depth: nat)
    requires depth <= limit
    requires forall i | 0 <= i < |visits| :: Fits(visits[i], schema, value)
    requires AgreeOnVisits(d, limit, sat, schema, value, visits, depth)
    ensures Matches(d, limit, schema, value, visits, depth) == CountSatisfied(sat, visits)
  {
    hide VisitIssues, Fits, NodeIssues, IsPart, Size;
    if |visits| > 0 {
      var last := |visits| - 1;
      var front := visits[..last];
      hide Matches, CountSatisfied;
      MatchesAgree(d, limit, sat, schema, value, front, depth);
      MatchesLast(d, limit, schema, value, visits, depth);
      CountLast(sat, visits);
    }
  }

  lemma CountLast(sat: Verdict, visits: seq<Visit>)
    requires |visits| > 0
    ensures var last := |visits| - 1;
      CountSatisfied(sat, visits)
      == CountSatisfied(sat, visits[..last]) + (if sat(visits[last].schema, visits[last].value) then 1 else 0)
  {}

  lemma CheckAgrees(d: Document, limit: nat, sat: Verdict, schema: Json, value: Json, check: Check, depth: nat)
    requires depth <= limit && CheckFits(check, schema, value)
    requires AgreeOnVisits(d, limit, sat, schema, value, VisitsOf(check), depth)
    ensures CheckIssues(d, limit, schema, value, check, depth) == [] <==> CheckHolds(sat, check)
  {
    hide VisitIssues, Fits, NodeIssues, IsPart, Size;
    match check
    case Fail(_) =>
    case Each(visit) => assert VisitsOf(check)[0] == visit;
    case Count(visits, _, _, _, _) => MatchesAgree(d, limit, sat, schema, value, visits, depth);
  }

  ghost predicate AllAgree(d: Document, limit: nat, sat: Verdict, schema: Json, value: Json, checks: seq<Check>,
                           depth: nat)
    requires depth <= limit
  {
    forall i | 0 <= i < |checks| ::
      && CheckFits(checks[i], schema, value)
      && (CheckIssues(d, limit, schema, value, checks[i], depth) == [] <==> CheckHolds(sat, checks[i]))
  }

  lemma {:induction false} RunAgrees(d: Document, limit: nat, sat: Verdict, schema: Json, value: Json,
                                     checks: seq<Check>, depth: nat)
    requires depth <= limit && AllFit(checks, schema, value)
    requires AllAgree(d, limit, sat, schema, value, checks, depth)
    ensures RunIssues(d, limit, schema, value, checks, depth) == [] <==> AllHold(sat, checks)
  {
    hide CheckIssues, CheckHolds, AllHold, AllAgree, AllFit;
    if |checks| == 0 {
      NothingHolds(sat);
    } else {
      var last := |checks| - 1;
      FrontAgrees(d, limit, sat, schema, value, checks, depth);
      RunAgrees(d, limit, sat, schema, value, checks[..last], depth);
      HoldSnoc(sat, checks);
    }
  }

  lemma NothingHolds(sat: Verdict)
    ensures AllHold(sat, [])
  {}

  lemma HoldSnoc(sat: Verdict, checks: seq<Check>)
    requires |checks| > 0
    ensures var last := |checks| - 1;
      AllHold(sat, checks) <==> AllHold(sat, checks[..last]) && CheckHolds(sat, checks[last])
  {
    hide CheckHolds;
    var last := |checks| - 1;
    assert checks == checks[..last] + [checks[last]];
    HoldAppend(sat, checks[..last], [checks[last]]);
    OneHolds(sat, checks[last]);
  }

  lemma FrontAgrees(d: Document, limit: nat, sat: Verdict, schema: Json, value: Json, checks: seq<Check>, depth: nat)
    requires depth <= limit && |checks| > 0 && AllFit(checks, schema, value)
    requires AllAgree(d, limit, sat, schema, value, checks, depth)
    ensures var last := |checks| - 1;
      && AllFit(checks[..last], schema, value) && AllAgree(d, limit, sat, schema, value, checks[..last], depth)
      && CheckFits(checks[last], schema, value)
      && (CheckIssues(d, limit, schema, value, checks[last], depth) == [] <==> CheckHolds(sat, checks[last]))
  {
    hide CheckIssues, CheckFits, CheckHolds;
  }

  /** Where the parts agree with `sat`, the node has no issues exactly when its keywords hold. */
  lemma NodeAgrees(d: Document, limit: nat, sat: Verdict, s: Members, value: Json, depth: nat)
    requires depth <= limit
    requires Reference(s).Some? ==> depth < limit
    requires Reference(s).Some? && Target(d, Reference(s).value).Some? ==>
      var target := Target(d, Reference(s).value).value;
      NodeIssues(d, limit, target, value, depth + 1) == [] <==> sat(target, value)
    requires AllFit(Checks(d.library, s, value), Obj(s), value)
    requires !TypeMismatch(s, value) ==> AllAgree(d, limit, sat, Obj(s), value, Checks(d.library, s, value), depth)
    ensures NodeIssues(d, limit, Obj(s), value, depth) == [] <==> Holds(d, sat, Obj(s), value)
  {
    ScalarMeaning(s, value);
    hide Checks, RunIssues, CompositionHolds, ValueHolds, AllFit, AllAgree, ScalarKeywordsHold, ConstMismatch,
      EnumMismatch, TypeMismatch, Resolve;
    ChecksMeaning(d.library, sat, s, value);
    if !TypeMismatch(s, value) {
      RunAgrees(d, limit, sat, Obj(s), value, Checks(d.library, s, value), depth);
    }
  }

  lemma NotADictionary(d: Document, limit: nat, sat: Verdict, schema: Json, value: Json, depth: nat)
    requires depth <= limit && !schema.Obj?
    ensures NodeIssues(d, limit, schema, value, depth) == [] <==> Holds(d, sat, schema, value)
  {}

  /** Uniqueness: whatever solves the keyword equations is the validator's verdict. */
  lemma {:induction false} ValidatorIsTheOnlySolution(d: Document, limit: nat, sat: Verdict, schema: Json, value: Json,
                                                      depth: nat)
    requires depth <= limit && Solves(d, sat) && Clean(d, limit, schema, value, depth)
    ensures NodeIssues(d, limit, schema, value, depth) == [] <==> sat(schema, value)
    decreases Size(value), limit - depth, Size(schema), 1
  {
    hide Clean, Checks, VisitsClean, RunIssues, AllFit, AllAgree, Holds, NodeIssues;
    LargerBoundSameIssues(d, limit, limit, schema, value, depth, 0);
    assert Settled(d, schema, value);
    if schema.Obj? {
      var s := schema.members;
      CleanParts(d, limit, s, value, depth);
      if Reference(s).Some? {
        var target := Target(d, Reference(s).value);
        if target.Some? { ValidatorIsTheOnlySolution(d, limit, sat, target.value, value, depth + 1); }
      }
      ChecksFit(d.library, s, value);
      if !TypeMismatch(s, value) {
        OnlySolutionOnVisits(d, limit, sat, schema, value, Checks(d.library, s, value), depth);
      }
      NodeAgrees(d, limit, sat, s, value, depth);
    } else {
      NotADictionary(d, limit, sat, schema, value, depth);
    }
  }

  lemma {:induction false} OnlySolutionOnVisits(d: Document, limit: nat, sat: Verdict, schema: Json, value: Json,
                                                checks: seq<Check>, depth: nat)
    requires depth <= limit && Solves(d, sat)
    requires AllFit(checks, schema, value) && VisitsClean(d, limit, schema, value, checks, depth)
    ensures AllAgree(d, limit, sat, schema, value, checks, depth)
    decreases Size(value), limit - depth, Size(schema), 0
  {
    forall i | 0 <= i < |checks|
      ensures CheckFits(checks[i], schema, value)
      ensures CheckIssues(d, limit, schema, value, checks[i], depth) == [] <==> CheckHolds(sat, checks[i])
    {
      hide CheckIssues, NodeIssues, Solves, CheckHolds, VisitIssues, Fits, Clean, VisitsClean, Size;
      assert CheckFits(checks[i], schema, value);
      var visits := VisitsOf(checks[i]);
      forall j | 0 <= j < |visits|
        ensures VisitIssues(d, limit, schema, value, visits[j], depth) == [] <==> sat(visits[j].schema, visits[j].value)
      {
        var v := visits[j];
        VisitAt(d, limit, schema, value, checks, depth, i, j);
        ValidatorIsTheOnlySolution(d, limit, sat, v.schema, v.value, if v.consumes then 0 else depth);
      }
      CheckAgrees(d, limit, sat, schema, value, checks[i], depth);
    }
  }

  /** The verdict no bound can change: accepted at some bound that is never met. */
  ghost predicate Satisfies(d: Document, schema: Json, value: Json) {
    exists limit: nat :: Clean(d, limit, schema, value, 0) && Accepts(d, limit, schema, value)
  }

  lemma SatisfiesAtAnyCleanBound(d: Document, limit: nat, schema: Json, value: Json, depth: nat)
    requires depth <= limit && Clean(d, limit, schema, value, depth)
    ensures Satisfies(d, schema, value) <==> NodeIssues(d, limit, schema, value, depth) == []
  {
    hide Clean, NodeIssues;
    LargerBoundSameIssues(d, limit, limit, schema, value, depth, 0);
    if Satisfies(d, schema, value) {
      var other: nat :| Clean(d, other, schema, value, 0) && Accepts(d, other, schema, value);
      if other <= limit {
        LargerBoundSameIssues(d, other, limit, schema, value, 0, 0);
      } else {
        LargerBoundSameIssues(d, limit, other, schema, value, 0, 0);
      }
    }
  }

  lemma SatisfiesOnVisits(d: Document, limit: nat, sat: Verdict, schema: Json, value: Json, checks: seq<Check>)
    requires forall s, v :: sat(s, v) == Satisfies(d, s, v)
    requires AllFit(checks, schema, value) && VisitsClean(d, limit, schema, value, checks, 0)
    ensures AllAgree(d, limit, sat, schema, value, checks, 0)
  {
    forall i | 0 <= i < |checks|
      ensures CheckFits(checks[i], schema, value)
      ensures CheckIssues(d, limit, schema, value, checks[i], 0) == [] <==> CheckHolds(sat, checks[i])
    {
      hide CheckIssues, NodeIssues, CheckHolds, Satisfies, VisitIssues, Fits, Clean, VisitsClean, Size;
      assert CheckFits(checks[i], schema, value);
      var visits := VisitsOf(checks[i]);
      forall j | 0 <= j < |visits|
        ensures VisitIssues(d, limit, schema, value, visits[j], 0) == [] <==> sat(visits[j].schema, visits[j].value)
      {
        VisitAt(d, limit, schema, value, checks, 0, i, j);
        SatisfiesAtAnyCleanBound(d, limit, visits[j].schema, visits[j].value, 0);
      }
      CheckAgrees(d, limit, sat, schema, value, checks[i], 0);
    }
  }

  lemma SatisfiesTheEquation(d: Document, limit: nat, sat: Verdict, s: Members, value: Json)
    requires forall s, v :: sat(s, v) == Satisfies(d, s, v)
    requires Clean(d, limit, Obj(s), value, 0)
    ensures Satisfies(d, Obj(s), value) <==> Holds(d, sat, Obj(s), value)
  {
    hide NodeIssues, Checks, Satisfies, Holds, AllFit, AllAgree, VisitsClean;
    SatisfiesAtAnyCleanBound(d, limit, Obj(s), value, 0);
    if Reference(s).Some? {
      var target := Target(d, Reference(s).value);
      if target.Some? { SatisfiesAtAnyCleanBound(d, limit, target.value, value, 1); }
    }
    ChecksFit(d.library, s, value);
    if !TypeMismatch(s, value) { SatisfiesOnVisits(d, limit, sat, Obj(s), value, Checks(d.library, s, value)); }
    NodeAgrees(d, limit, sat, s, value, 0);
  }

  /** Existence: the validator's verdict solves the keyword equations. */
  lemma ValidatorSolvesTheEquations(d: Document)
    ensures Solves(d, (s, v) => Satisfies(d, s, v))
  {
    var sat: Verdict := (s, v) => Satisfies(d, s, v);
    forall schema: Json, value: Json | Settled(d, schema, value)
      ensures sat(schema, value) <==> Holds(d, sat, schema, value)
    {
      var limit: nat :| Clean(d, limit, schema, value, 0);
      SatisfiesAtAnyCleanBound(d, limit, schema, value, 0);
      if schema.Obj? { SatisfiesTheEquation(d, limit, sat, schema.members, value); }
    }
  }

  /** The program's own bound: a verdict reached without meeting it is the only solution's. */
  lemma VerdictIsTheUnboundedOne(schema: Json, value: Json, library: Library, sat: Verdict)
    requires var d := Document(schema, library);
             Solves(d, sat) && Clean(d, MAX_REF_DEPTH, schema, value, 0)
    ensures Validate(schema, value, library) == [] <==> sat(schema, value)
  {
    ValidatorIsTheOnlySolution(Document(schema, library), MAX_REF_DEPTH, sat, schema, value, 0);
  }

  // ---------------------------------------------------------------- documents that only accept more

  /** No dictionary anywhere in the document has a key that turns a match into an issue. */
  ghost predicate Positive(v: Json)
    decreases v
  {
    match v
    case Obj(members) => !Bounding(v) && forall i | 0 <= i < |members| :: Positive(members[i].value)
    case Arr(items) => forall i | 0 <= i < |items| :: Positive(items[i])
    case _ => true
  }

  lemma {:induction false} PositiveNode(root: Json, path: seq<Segment>)
    requires Positive(root) && NodeAt(root, path).Some?
    ensures Positive(NodeAt(root, path).value)
  {
    if |path| > 0 {
      match path[0]
      case Key(k) => PositiveNode(Lookup(root.members, k), path[1..]);
      case Index(i) => PositiveNode(root.items[i], path[1..]);
    }
  }

  lemma {:induction false} MonotoneMatches(d: Document, limit: nat, limit': nat, schema: Json, value: Json,
                                           visits: seq<Visit>, depth: nat, depth': nat)
    requires depth <= limit && depth' <= limit'
    requires forall i | 0 <= i < |visits| :: Fits(visits[i], schema, value)
    requires forall i | 0 <= i < |visits| ::
      VisitIssues(d, limit, schema, value, visits[i], depth) == []
      ==> VisitIssues(d, limit', schema, value, visits[i], depth') == []
    ensures Matches(d, limit, schema, value, visits, depth) <= Matches(d, limit', schema, value, visits, depth')
  {
    hide VisitIssues, Fits, NodeIssues, IsPart, Size;
    if |visits| > 0 { MonotoneMatches(d, limit, limit', schema, value, visits[..|visits| - 1], depth, depth'); }
  }

  ghost predicate StillAccepts(d: Document, limit: nat, limit': nat, schema: Json, value: Json,
                               visits: seq<Visit>, depth: nat, depth': nat)
    requires depth <= limit && depth' <= limit'
    requires forall i | 0 <= i < |visits| :: Fits(visits[i], schema, value)
  {
    forall i | 0 <= i < |visits| ::
      VisitIssues(d, limit, schema, value, visits[i], depth) == []
      ==> VisitIssues(d, limit', schema, value, visits[i], depth') == []
  }

  lemma MonotoneCheck(d: Document, limit: nat, limit': nat, schema: Json, value: Json,
                      check: Check, depth: nat, depth': nat)
    requires depth <= limit && depth' <= limit' && CheckFits(check, schema, value) && !Bounding(schema)
    requires StillAccepts(d, limit, limit', schema, value, VisitsOf(check), depth, depth')
    requires CheckIssues(d, limit, schema, value, check, depth) == []
    ensures CheckIssues(d, limit', schema, value, check, depth') == []
  {
    hide VisitIssues, Fits, Bounding;
    match check
    case Fail(_) =>
    case Each(visit) => assert VisitsOf(check)[0] == visit;
    case Count(visits, _, _, _, _) => MonotoneMatches(d, limit, limit', schema, value, visits, depth, depth');
  }

  lemma {:induction false} MonotoneRun(d: Document, limit: nat, limit': nat, schema: Json, value: Json,
                                       checks: seq<Check>, depth: nat, depth': nat)
    requires depth <= limit && depth' <= limit' && AllFit(checks, schema, value)
    requires forall i | 0 <= i < |checks| ::
      && CheckFits(checks[i], schema, value)
      && (CheckIssues(d, limit, schema, value, checks[i], depth) == []
          ==> CheckIssues(d, limit', schema, value, checks[i], depth') == [])
    requires RunIssues(d, limit, schema, value, checks, depth) == []
    ensures RunIssues(d, limit', schema, value, checks, depth') == []
  {
    hide CheckIssues, CheckFits;
    if |checks| > 0 { MonotoneRun(d, limit, limit', schema, value, checks[..|checks| - 1], depth, depth'); }
  }

  lemma PositivePart(sub: Json, schema: Json)
    requires Positive(schema) && IsPart(sub, schema)
    ensures Positive(sub)
  {
    var k :| k in Keys(schema.members) && PartOf(sub, Lookup(schema.members, k));
    var keyword := Lookup(schema.members, k);
    var i :| 0 <= i < |schema.members| && schema.members[i] == Member(k, keyword);
    assert Positive(schema.members[i].value);
  }

  lemma {:induction false} PositiveAcceptsMore(d: Document, limit: nat, limit': nat, schema: Json, value: Json,
                                               depth: nat, depth': nat)
    requires depth <= limit && depth' <= limit' && limit <= limit' && limit - depth <= limit' - depth'
    requires Positive(d.root) && Positive(schema)
    requires NodeIssues(d, limit, schema, value, depth) == []
    ensures NodeIssues(d, limit', schema, value, depth') == []
    decreases Size(value), limit - depth, Size(schema), 1
  {
    hide Checks, RunIssues, NodeAt, Resolve, AllFit;
    if schema.Obj? {
      var s := schema.members;
      if Reference(s).Some? {
        assert ReferenceIssues(d, limit, s, value, depth) == [];
        var target := Target(d, Reference(s).value);
        if target.Some? {
          var path := ResolvedTargetIsANode(Reference(s).value, d.root, d.library.decoders);
          PositiveNode(d.root, path);
          PositiveAcceptsMore(d, limit, limit', target.value, value, depth + 1, depth' + 1);
        }
      }
      if !TypeMismatch(s, value) {
        ChecksFit(d.library, s, value);
        PositiveRunAcceptsMore(d, limit, limit', schema, value, Checks(d.library, s, value), depth, depth');
      }
    }
  }

  lemma {:induction false} PositiveRunAcceptsMore(d: Document, limit: nat, limit': nat, schema: Json, value: Json,
                                                  checks: seq<Check>, depth: nat, depth': nat)
    requires depth <= limit && depth' <= limit' && limit <= limit' && limit - depth <= limit' - depth'
    requires Positive(d.root) && Positive(schema) && schema.Obj? && AllFit(checks, schema, value)
    requires RunIssues(d, limit, schema, value, checks, depth) == []
    ensures RunIssues(d, limit', schema, value, checks, depth') == []
    decreases Size(value), limit - depth, Size(schema), 0
  {
    forall i | 0 <= i < |checks|
      ensures CheckFits(checks[i], schema, value)
      ensures CheckIssues(d, limit, schema, value, checks[i], depth) == []
              ==> CheckIssues(d, limit', schema, value, checks[i], depth') == []
    {
      hide CheckIssues, NodeIssues, Positive;
      assert CheckFits(checks[i], schema, value);
      var visits := VisitsOf(checks[i]);
      forall j | 0 <= j < |visits| && VisitIssues(d, limit, schema, value, visits[j], depth) == []
        ensures VisitIssues(d, limit', schema, value, visits[j], depth') == []
      {
        var v := visits[j];
        PositivePart(v.schema, schema);
        PositiveAcceptsMore(d, limit, limit', v.schema, v.value,
          if v.consumes then 0 else depth, if v.consumes then 0 else depth');
      }
      NotBounding(schema);
      if CheckIssues(d, limit, schema, value, checks[i], depth) == [] {
        MonotoneCheck(d, limit, limit', schema, value, checks[i], depth, depth');
      }
    }
    MonotoneRun(d, limit, limit', schema, value, checks, depth, depth');
  }

  lemma NotBounding(schema: Json)
    requires Positive(schema)
    ensures !Bounding(schema)
  {}

  /** Without `not`, `oneOf` and `maxContains`, stopping early never accepts what a larger bound rejects. */
  lemma BoundNeverAddsAcceptance(d: Document, limit: nat, limit': nat, schema: Json, value: Json)
    requires limit <= limit' && Positive(d.root) && Positive(schema)
    requires Accepts(d, limit, schema, value)
    ensures Accepts(d, limit', schema, value)
  {
    PositiveAcceptsMore(d, limit, limit', schema, value, 0, 0);
  }

  // ---------------------------------------------------------------- negation

  /** Schemas with no keyword but `$ref` and `not`. */
  ghost predicate Bare(s: Members) { Keys(s) <= {"$ref", "not"} }

  lemma NothingInObject(library: Library, s: Members, value: Members)
    requires Bare(s)
    ensures ObjectChecks(library, s, value) == []
  {
    assert Get(s, "additionalProperties").None?;
    assert GetItems(s, "required") == [] && GetMembers(s, "dependentRequired") == [];
    assert GetMembers(s, "properties") == [] && GetMembers(s, "patternProperties") == [];
  }

  lemma NothingInArray(s: Members, items: seq<Json>)
    requires Bare(s)
    ensures ArrayChecks(s, items) == []
  {
    assert GetItems(s, "prefixItems") == [];
    assert Get(s, "uniqueItems").None? && Get(s, "items").None? && Get(s, "contains").None?;
  }

  lemma NothingInScalar(library: Library, s: Members, text: string, number: real)
    requires Bare(s)
    ensures StringChecks(library, s, text) == [] && NumberChecks(s, number) == []
  {}

  /** Such a schema looks at nothing inside the value. */
  lemma NothingElseToCheck(library: Library, s: Members, value: Json)
    requires Bare(s)
    ensures Checks(library, s, value) == NotChecks(s, value)
    ensures !TypeMismatch(s, value) && !ConstMismatch(s, value) && !EnumMismatch(s, value)
  {
    hide ObjectChecks, ArrayChecks, StringChecks, NumberChecks;
    assert CompositionChecks(s, value) == NotChecks(s, value);
    match value
    case Obj(m) => NothingInObject(library, s, m);
    case Arr(items) => NothingInArray(s, items);
    case Str(text) => NothingInScalar(library, s, text, 0.0);
    case Int(i) => NothingInScalar(library, s, "", i as real);
    case Float(x) => NothingInScalar(library, s, "", x);
    case _ =>
  }

  lemma TheNotCheck(library: Library, sub: Json, value: Json)
    ensures var s := [Member("not", sub)];
      && Bare(s) && Reference(s).None?
      && Checks(library, s, value) == [Count([Visit(sub, value, [], false)], 0, Some(0), "", "not_mismatch")]
  {
    var s := [Member("not", sub)];
    assert s[0].key in Keys(s);
    NothingElseToCheck(library, s, value);
  }

  lemma NotFlips(d: Document, limit: nat, sub: Json, value: Json, depth: nat)
    requires depth <= limit
    ensures NodeIssues(d, limit, Obj([Member("not", sub)]), value, depth) == []
      <==> NodeIssues(d, limit, sub, value, depth) != []
  {
    hide Size, IsPart, Bounding, Checks, NotChecks;
    var s := [Member("not", sub)];
    TheNotCheck(d.library, sub, value);
    NothingElseToCheck(d.library, s, value);
    ChecksFit(d.library, s, value);
    var checks := Checks(d.library, s, value);
    var visits := VisitsOf(checks[0]);
    assert CheckFits(checks[0], Obj(s), value) && Fits(visits[0], Obj(s), value);
    assert checks[..0] == [] && visits[..0] == [];
    assert Matches(d, limit, Obj(s), value, visits, depth)
        == if VisitIssues(d, limit, Obj(s), value, visits[0], depth) == [] then 1 else 0;
    assert RunIssues(d, limit, Obj(s), value, checks, depth) == CheckIssues(d, limit, Obj(s), value, checks[0], depth);
  }

  lemma ReferenceOnly(d: Document, limit: nat, reference: string, value: Json, depth: nat)
    requires depth <= limit
    ensures var s := [Member("$ref", Str(reference))];
      NodeIssues(d, limit, Obj(s), value, depth) == ReferenceIssues(d, limit, s, value, depth)
    ensures Reference([Member("$ref", Str(reference))]) == Some(reference)
  {
    var s := [Member("$ref", Str(reference))];
    assert s[0].key in Keys(s);
    NothingElseToCheck(d.library, s, value);
    ChecksFit(d.library, s, value);
    assert Checks(d.library, s, value) == [];
  }

  /** `{"$ref": "#"}` and `{"not": {"$ref": "#"}}`. */
  const SELF_REFERENCE := Obj([Member("$ref", Str("#"))])

  const SELF_NEGATION := Obj([Member("not", SELF_REFERENCE)])

  lemma NegationStep(library: Library, limit: nat, value: Json, depth: nat)
    requires depth <= limit
    ensures var d := Document(SELF_NEGATION, library);
      NodeIssues(d, limit, SELF_NEGATION, value, depth) == []
      <==> depth == limit || NodeIssues(d, limit, SELF_NEGATION, value, depth + 1) != []
  {
    var d := Document(SELF_NEGATION, library);
    NotFlips(d, limit, SELF_REFERENCE, value, depth);
    ReferenceOnly(d, limit, "#", value, depth);
    assert Target(d, "#") == Some(SELF_NEGATION);
  }

  /** The verdict of `{"not": {"$ref": "#"}}` is the parity of the hops left: the bound decides it. */
  lemma {:induction false} NegationCountsHops(library: Library, limit: nat, value: Json, depth: nat)
    requires depth <= limit
    ensures NodeIssues(Document(SELF_NEGATION, library), limit, SELF_NEGATION, value, depth) == []
      <==> (limit - depth) % 2 == 0
    decreases limit - depth
  {
    hide NodeIssues;
    NegationStep(library, limit, value, depth);
    if depth < limit { NegationCountsHops(library, limit, value, depth + 1); }
  }

  /** An unresolvable reference rejects every value, so under `not` it accepts every value. */
  lemma UnresolvableUnderNot(d: Document, limit: nat, reference: string, value: Json)
    requires limit > 0 && Target(d, reference).None?
    ensures !Accepts(d, limit, Obj([Member("$ref", Str(reference))]), value)
    ensures Accepts(d, limit, Obj([Member("not", Obj([Member("$ref", Str(reference))]))]), value)
  {
    ReferenceOnly(d, limit, reference, value, 0);
    NotFlips(d, limit, Obj([Member("$ref", Str(reference))]), value, 0);
  }
}
