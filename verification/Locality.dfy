/**
 Where errors point.  Validating at a path gives the root errors with the path put in front, and
 the errors reported are exactly the rules broken at the places validation descends to.
 */
module Locality {
  import opened Wrappers
  import opened Text
  import opened Json
  import opened Schemas
  import opened Validator

  // ----- Relocation -----

  function UnderList(p: Path, errors: seq<Error>): (moved: seq<Error>)
    ensures |moved| == |errors|
    ensures forall i :: 0 <= i < |errors| ==> moved[i] == Error(p + errors[i].path, errors[i].rule)
  {
    seq(|errors|, i requires 0 <= i < |errors| => Error(p + errors[i].path, errors[i].rule))
  }

  function Under(p: Path, found: Found): Found {
    if found.Success? then Success(UnderList(p, found.value)) else found
  }

  ghost predicate AllUnder(p: Path, checks: seq<Found>, moved: seq<Found>) {
    |checks| == |moved| && forall i :: 0 <= i < |checks| ==> moved[i] == Under(p, checks[i])
  }

  lemma UnderConcat(p: Path, a: seq<Error>, b: seq<Error>)
    ensures UnderList(p, a + b) == UnderList(p, a) + UnderList(p, b)
  {
  }

  lemma WhenRelocates(broken: bool, p: Path, q: Path, rule: Rule)
    ensures UnderList(p, When(broken, q, rule)) == When(broken, p + q, rule)
  {
  }

  lemma {:induction false} ReportRelocates(tests: seq<Test>, p: Path, q: Path)
    ensures Report(tests, p + q) == UnderList(p, Report(tests, q))
  {
    if tests != [] {
      WhenRelocates(tests[0].fails, p, q, tests[0].rule);
      ReportRelocates(tests[1..], p, q);
      UnderConcat(p, When(tests[0].fails, q, tests[0].rule), Report(tests[1..], q));
    }
  }

  lemma {:induction false} RunsRelocate(p: Path, checks: seq<Found>, moved: seq<Found>)
    requires AllUnder(p, checks, moved)
    ensures Sequence(checks).Success? <==> Sequence(moved).Success?
    ensures Sequence(checks).Failure? ==> Sequence(moved) == Sequence(checks)
    ensures Sequence(checks).Success? ==>
              && Clean(Sequence(moved).value) == Clean(Sequence(checks).value)
              && Flat(Sequence(moved).value) == UnderList(p, Flat(Sequence(checks).value))
  {
    if checks != [] {
      var n := |checks| - 1;
      RunsRelocate(p, checks[..n], moved[..n]);
      if Sequence(checks).Success? {
        var before, last := Sequence(checks[..n]).value, checks[n].value;
        assert (before + [last])[..n] == before;
        var movedBefore, movedLast := Sequence(moved[..n]).value, moved[n].value;
        assert (movedBefore + [movedLast])[..n] == movedBefore;
        UnderConcat(p, Flat(before), last);
      }
    }
  }

  lemma {:induction false} RequiredRelocates(entries: seq<(Text, Json)>, required: seq<Text>, p: Path, q: Path, n: nat)
    requires n <= |required|
    ensures RequiredErrors(entries, required, p + q, n) == UnderList(p, RequiredErrors(entries, required, q, n))
  {
    if n > 0 {
      RequiredRelocates(entries, required, p, q, n - 1);
      assert p + (q + [Key(required[n - 1])]) == p + q + [Key(required[n - 1])];
      UnderConcat(p, RequiredErrors(entries, required, q, n - 1),
                  When(!HasKey(entries, required[n - 1]), q + [Key(required[n - 1])], RequiredMissing));
    }
  }

  /** Validating at p + q gives the errors of validating at q, moved under p. */
  lemma {:induction false} Relocates(v: Json, s: Schema, reg: Registry, p: Path, q: Path)
    requires Guarded(reg)
    ensures Errors(v, s, reg, p + q) == Under(p, Errors(v, s, reg, q))
    decreases v, 1, Level(s, RankOf(reg)), s, 1
  {
    DereferenceDescends(s, reg);
    var target := Dereference(s, reg);
    if target.Success? {
      if target.value.Keywords? {
        BodyRelocates(v, target.value, reg, p, q);
      } else {
        WhenRelocates(true, p, q, MissingSchema);
      }
    }
  }

  lemma {:induction false} BodyRelocates(v: Json, body: Schema, reg: Registry, p: Path, q: Path)
    requires Guarded(reg) && body.Keywords?
    ensures BodyErrors(v, body, reg, p + q) == Under(p, BodyErrors(v, body, reg, q))
    decreases v, 1, BodyLevel(body, RankOf(reg)), body, 0
  {
    if body.anyOf.Listed? {
      TriesRelocate(v, body.anyOf.schemas, reg, p, q);
      var run := Sequence(Tries(v, body.anyOf.schemas, reg, q));
      if run.Success? { WhenRelocates(Clean(run.value) == 0, p, q, NoAlternative); }
    } else if body.oneOf.Listed? {
      TriesRelocate(v, body.oneOf.schemas, reg, p, q);
      var run := Sequence(Tries(v, body.oneOf.schemas, reg, q));
      if run.Success? { WhenRelocates(Clean(run.value) != 1, p, q, NotExactlyOne); }
    } else if body.allOf.Listed? {
      TriesRelocate(v, body.allOf.schemas, reg, p, q);
    } else if Gate(v, body).Some? {
      WhenRelocates(true, p, q, Gate(v, body).value);
    } else {
      ContentRelocates(v, body, reg, p, q);
    }
  }

  lemma {:induction false} TriesRelocate(v: Json, schemas: seq<Schema>, reg: Registry, p: Path, q: Path)
    requires Guarded(reg)
    ensures var run, moved := Sequence(Tries(v, schemas, reg, q)), Sequence(Tries(v, schemas, reg, p + q));
            && (run.Failure? ==> moved == run)
            && (run.Success? ==> moved.Success? && Clean(moved.value) == Clean(run.value)
                                 && Flat(moved.value) == UnderList(p, Flat(run.value)))
    decreases v, 1, TopLevel(schemas, RankOf(reg)), schemas
  {
    var checks, moved := Tries(v, schemas, reg, q), Tries(v, schemas, reg, p + q);
    forall i | 0 <= i < |schemas| ensures moved[i] == Under(p, checks[i]) {
      Relocates(v, schemas[i], reg, p, q);
    }
    RunsRelocate(p, checks, moved);
  }

  lemma {:induction false} ContentRelocates(v: Json, body: Schema, reg: Registry, p: Path, q: Path)
    requires Guarded(reg) && body.Keywords?
    ensures ContentErrors(v, body, reg, p + q) == Under(p, ContentErrors(v, body, reg, q))
    decreases v, 0
  {
    match v {
      case Arr(items) =>
        ReportRelocates(ListTests(items, body), p, q);
        if body.items.Keywords? { ItemsRelocate(items, body.items, reg, p, q, Report(ListTests(items, body), q)); }
      case Obj(entries) =>
        RequiredRelocates(entries, body.required, p, q, |body.required|);
        MembersRelocate(entries, body, reg, p, q, RequiredErrors(entries, body.required, q, |body.required|));
      case Str(text) => ReportRelocates(StringTests(text, body, reg), p, q);
      case Num(n) => ReportRelocates(NumberTests(n, body), p, q);
      case _ => WhenRelocates(false, p, q, MissingSchema);
    }
  }

  lemma {:induction false} ItemsRelocate(items: seq<Json>, s: Schema, reg: Registry, p: Path, q: Path, own: seq<Error>)
    requires Guarded(reg)
    ensures var run, moved := Sequence(ItemChecks(items, s, reg, q)), Sequence(ItemChecks(items, s, reg, p + q));
            && (run.Failure? ==> moved == run)
            && (run.Success? ==>
                  moved.Success? && UnderList(p, own) + Flat(moved.value) == UnderList(p, own + Flat(run.value)))
    decreases items
  {
    var checks, moved := ItemChecks(items, s, reg, q), ItemChecks(items, s, reg, p + q);
    forall i | 0 <= i < |items| ensures moved[i] == Under(p, checks[i]) {
      assert p + (q + [Index(i)]) == p + q + [Index(i)];
      Relocates(items[i], s, reg, p, q + [Index(i)]);
    }
    RunsRelocate(p, checks, moved);
    if Sequence(checks).Success? { UnderConcat(p, own, Flat(Sequence(checks).value)); }
  }

  lemma {:induction false} MembersRelocate(entries: seq<(Text, Json)>, body: Schema, reg: Registry, p: Path, q: Path,
                                           own: seq<Error>)
    requires Guarded(reg) && body.Keywords?
    ensures var run := Sequence(MemberChecks(entries, body, reg, q));
            var moved := Sequence(MemberChecks(entries, body, reg, p + q));
            && (run.Failure? ==> moved == run)
            && (run.Success? ==>
                  moved.Success? && UnderList(p, own) + Flat(moved.value) == UnderList(p, own + Flat(run.value)))
    decreases entries
  {
    var checks, moved := MemberChecks(entries, body, reg, q), MemberChecks(entries, body, reg, p + q);
    forall i | 0 <= i < |entries| ensures moved[i] == Under(p, checks[i]) {
      MemberRelocates(entries[i], body, reg, p, q);
    }
    RunsRelocate(p, checks, moved);
    if Sequence(checks).Success? { UnderConcat(p, own, Flat(Sequence(checks).value)); }
  }

  lemma {:induction false} MemberRelocates(entry: (Text, Json), body: Schema, reg: Registry, p: Path, q: Path)
    requires Guarded(reg) && body.Keywords?
    ensures MemberErrors(entry, body, reg, p + q) == Under(p, MemberErrors(entry, body, reg, q))
    decreases entry
  {
    assert p + (q + [Key(entry.0)]) == p + q + [Key(entry.0)];
    match MemberSchema(body, entry.0) {
      case Governed(s) => Relocates(entry.1, s, reg, p, q + [Key(entry.0)]);
      case Forbidden => WhenRelocates(true, p, q + [Key(entry.0)], Undocumented);
      case Unrestricted => WhenRelocates(false, p, q, Undocumented);
    }
  }

  /** Validating at path p gives the root errors with p put in front. */
  lemma ErrorsMoveWithThePath(v: Json, s: Schema, reg: Registry, p: Path)
    requires Guarded(reg)
    ensures Errors(v, s, reg, p) == Under(p, Errors(v, s, reg, []))
  {
    assert p + [] == p;
    Relocates(v, s, reg, p, []);
  }
}
