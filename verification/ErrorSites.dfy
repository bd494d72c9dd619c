/**
 The errors reported are exactly the rules broken at the places validation descends to: every
 error leads to an existing value that breaks the rule it names, and every broken rule is named.
 */
module ErrorSites {
  import opened Wrappers
  import opened Text
  import opened Numbers
  import opened Json
  import opened Schemas
  import opened Validator
  import opened Meaning
  import opened Locality

  // ----- Values inside values -----

  /** The value a path leads to, if it exists. */
  function At(v: Json, path: Path): Option<Json>
    decreases path
  {
    if path == [] then Some(v)
    else match (path[0], v)
      case (Index(i), Arr(items)) => if i < |items| then At(items[i], path[1..]) else None
      case (Key(key), Obj(entries)) =>
        (match FirstEntry(entries, key)
         case Some(child) => At(child, path[1..])
         case None => None)
      case _ => None
  }

  /** No object repeats a key, as JavaScript objects cannot; the order of keys does not matter here. */
  predicate DistinctKeys(v: Json) {
    match v
    case Arr(items) => forall i :: 0 <= i < |items| ==> DistinctKeys(items[i])
    case Obj(entries) =>
      && (forall i, j :: 0 <= i < j < |entries| ==> entries[i].0 != entries[j].0)
      && (forall i :: 0 <= i < |entries| ==> DistinctKeysInMember(entries[i]))
    case _ => true
  }

  predicate DistinctKeysInMember(entry: (Text, Json)) {
    DistinctKeys(entry.1)
  }

  // ----- Where validation descends -----

  /**
   Validating v under s applies schema t to the value w at the path.  Alternatives of anyOf and
   oneOf are only tried, so validation does not descend into them.
   */
  ghost predicate Applied(v: Json, s: Schema, reg: Registry, path: Path, w: Json, t: Schema)
    requires Guarded(reg)
    decreases v, 1, Level(s, RankOf(reg)), s, 1
  {
    DereferenceDescends(s, reg);
    var target := Dereference(s, reg);
    || (path == [] && w == v && t == s)
    || (target.Success? && target.value.Keywords? && BodyApplies(v, target.value, reg, path, w, t))
  }

  ghost predicate BodyApplies(v: Json, body: Schema, reg: Registry, path: Path, w: Json, t: Schema)
    requires Guarded(reg) && body.Keywords?
    decreases v, 1, BodyLevel(body, RankOf(reg)), body, 0
  {
    if body.anyOf.Listed? || body.oneOf.Listed? then false
    else if body.allOf.Listed? then
      var schemas := body.allOf.schemas;
      exists i :: 0 <= i < |schemas| && Applied(v, schemas[i], reg, path, w, t)
    else PassesGate(v, body) && path != [] && ContentApplies(v, body, reg, path[0], path[1..], w, t)
  }

  ghost predicate ContentApplies(v: Json, body: Schema, reg: Registry, first: Segment, rest: Path, w: Json, t: Schema)
    requires Guarded(reg) && body.Keywords?
    decreases v, 0
  {
    match (v, first)
    case (Arr(items), Index(i)) =>
      i < |items| && body.items.Keywords? && Applied(items[i], body.items, reg, rest, w, t)
    case (Obj(entries), Key(key)) =>
      exists i :: 0 <= i < |entries| && entries[i].0 == key && MemberApplies(entries[i], body, reg, rest, w, t)
    case _ => false
  }

  ghost predicate MemberApplies(entry: (Text, Json), body: Schema, reg: Registry, rest: Path, w: Json, t: Schema)
    requires Guarded(reg) && body.Keywords?
    decreases entry
  {
    match MemberSchema(body, entry.0)
    case Governed(s) => Applied(entry.1, s, reg, rest, w, t)
    case _ => false
  }

  // ----- What it is to break a rule -----

  predicate StringBreaks(s: Text, body: Schema, reg: Registry, rule: Rule)
    requires body.Keywords?
  {
    match rule
    case PatternMismatch => body.pattern != [] && !reg.matches(body.pattern, s)
    case TooShort => body.minLength.Some? && |s| as real < body.minLength.value
    case TooLong => body.maxLength.Some? && |s| as real > body.maxLength.value
    case BadFormat => body.format != [] && !reg.formatOk(body.format, s)
    case _ => false
  }

  predicate NumberBreaks(n: Number, body: Schema, rule: Rule)
    requires body.Keywords?
  {
    match rule
    case BelowMinimum => body.minimum.Some? && ValueOf(n) < body.minimum.value
    case AboveMaximum => body.maximum.Some? && ValueOf(n) > body.maximum.value
    case NotAboveExclusiveMinimum => body.exclusiveMinimum.Some? && ValueOf(n) <= body.exclusiveMinimum.value
    case NotBelowExclusiveMaximum => body.exclusiveMaximum.Some? && ValueOf(n) >= body.exclusiveMaximum.value
    case _ => false
  }

  predicate ListBreaks(items: seq<Json>, body: Schema, rule: Rule)
    requires body.Keywords?
  {
    match rule
    case TooFewItems => body.minItems.Some? && |items| as real < body.minItems.value
    case TooManyItems => body.maxItems.Some? && |items| as real > body.maxItems.value
    case RepeatedItems => body.uniqueItems && !Distinct(items)
    case _ => false
  }

  /** The first of constant, enumeration and type that the value fails. */
  predicate GateBreaks(w: Json, body: Schema, rule: Rule)
    requires body.Keywords?
  {
    var constOk := body.constant.Some? ==> StrictlyEquals(w, body.constant.value);
    var enumOk := body.choices.Some? ==> exists x :: x in body.choices.value && StrictlyEquals(w, x);
    match rule
    case ConstMismatch => !constOk
    case EnumMismatch => constOk && !enumOk
    case TypeMismatch => constOk && enumOk && !PassesGate(w, body)
    case _ => false
  }

  predicate MemberBreaks(entries: seq<(Text, Json)>, body: Schema, key: Text, rule: Rule)
    requires body.Keywords?
  {
    match rule
    case RequiredMissing => key in body.required && !HasKey(entries, key)
    case Undocumented => HasKey(entries, key) && !Documented(body, key) && body.additional.Forbidden?
    case _ => false
  }

  /** The value w at the path breaks, under schema t, the rule the error names where it names it. */
  ghost predicate Breaks(w: Json, t: Schema, reg: Registry, path: Path, e: Error)
    requires Guarded(reg)
  {
    var target := Dereference(t, reg);
    target.Success? &&
    if target.value.Missing? then e == Error(path, MissingSchema)
    else BodyBreaks(w, target.value, reg, path, e)
  }

  ghost predicate BodyBreaks(w: Json, body: Schema, reg: Registry, path: Path, e: Error)
    requires Guarded(reg) && body.Keywords?
  {
    if body.anyOf.Listed? then e == Error(path, NoAlternative) && !AtLeastOne(AcceptedBy(w, body.anyOf.schemas, reg))
    else if body.oneOf.Listed? then
      e == Error(path, NotExactlyOne) && !ExactlyOne(AcceptedBy(w, body.oneOf.schemas, reg))
    else if body.allOf.Listed? then false
    else if !PassesGate(w, body) then e.path == path && GateBreaks(w, body, e.rule)
    else ContentBreaks(w, body, reg, path, e)
  }

  ghost predicate ContentBreaks(w: Json, body: Schema, reg: Registry, path: Path, e: Error)
    requires body.Keywords?
  {
    match w
    case Str(s) => e.path == path && StringBreaks(s, body, reg, e.rule)
    case Num(n) => e.path == path && NumberBreaks(n, body, e.rule)
    case Arr(items) => e.path == path && ListBreaks(items, body, e.rule)
    case Obj(entries) => exists key :: e.path == path + [Key(key)] && MemberBreaks(entries, body, key, e.rule)
    case _ => false
  }

  // ----- Membership in the error lists -----

  predicate Failing(tests: seq<Test>, rule: Rule) {
    exists i :: 0 <= i < |tests| && tests[i].fails && tests[i].rule == rule
  }

  lemma {:induction false} InReport(tests: seq<Test>, path: Path, e: Error)
    ensures e in Report(tests, path) <==> e.path == path && Failing(tests, e.rule)
  {
    if tests != [] {
      InReport(tests[1..], path, e);
      FailingSplits(tests, e.rule);
    }
  }

  lemma FailingSplits(tests: seq<Test>, rule: Rule)
    requires tests != []
    ensures Failing(tests, rule) <==> (tests[0].fails && tests[0].rule == rule) || Failing(tests[1..], rule)
  {
    if Failing(tests[1..], rule) {
      var i :| 0 <= i < |tests[1..]| && tests[1..][i].fails && tests[1..][i].rule == rule;
      assert tests[i + 1] == tests[1..][i];
    }
    if i :| 0 <= i < |tests| && tests[i].fails && tests[i].rule == rule && i > 0 {
      assert tests[1..][i - 1] == tests[i];
    }
  }

  lemma StringTestsAreBreaches(s: Text, body: Schema, reg: Registry, rule: Rule)
    requires body.Keywords?
    ensures Failing(StringTests(s, body, reg), rule) <==> StringBreaks(s, body, reg, rule)
  {
    var t := StringTests(s, body, reg);
    assert t[0].rule == PatternMismatch && t[1].rule == TooShort && t[2].rule == TooLong && t[3].rule == BadFormat;
  }

  lemma NumberTestsAreBreaches(n: Number, body: Schema, rule: Rule)
    requires body.Keywords?
    ensures Failing(NumberTests(n, body), rule) <==> NumberBreaks(n, body, rule)
  {
    var t := NumberTests(n, body);
    assert t[0].rule == BelowMinimum && t[1].rule == AboveMaximum;
    assert t[2].rule == NotAboveExclusiveMinimum && t[3].rule == NotBelowExclusiveMaximum;
  }

  lemma ListTestsAreBreaches(items: seq<Json>, body: Schema, rule: Rule)
    requires body.Keywords?
    ensures Failing(ListTests(items, body), rule) <==> ListBreaks(items, body, rule)
  {
    UniqueItemsMeansDistinct(items);
    var t := ListTests(items, body);
    assert t[0].rule == TooFewItems && t[1].rule == TooManyItems && t[2].rule == RepeatedItems;
  }

  lemma GateIsBreach(w: Json, body: Schema, rule: Rule)
    requires body.Keywords? && !PassesGate(w, body)
    ensures Gate(w, body) == Some(rule) <==> GateBreaks(w, body, rule)
  {
  }

  lemma {:induction false} InFlat(lists: seq<seq<Error>>, e: Error)
    ensures e in Flat(lists) <==> exists i :: 0 <= i < |lists| && e in lists[i]
  {
    if lists != [] {
      InFlat(lists[..|lists| - 1], e);
      assert forall i :: 0 <= i < |lists| - 1 ==> lists[..|lists| - 1][i] == lists[i];
    }
  }

  lemma {:induction false} InRequired(entries: seq<(Text, Json)>, required: seq<Text>, path: Path, n: nat, e: Error)
    requires n <= |required|
    ensures e in RequiredErrors(entries, required, path, n) <==>
            e.rule == RequiredMissing
            && exists i :: 0 <= i < n && e.path == path + [Key(required[i])] && !HasKey(entries, required[i])
  {
    if n > 0 { InRequired(entries, required, path, n - 1, e); }
  }

  // ----- Every error names a broken rule -----

  // A place validation descends to: the path, the value there and the schema applied to it.
  datatype Site = Site(path: Path, value: Json, schema: Schema)

  ghost predicate Explains(v: Json, s: Schema, reg: Registry, site: Site, e: Error)
    requires Guarded(reg)
  {
    Applied(v, s, reg, site.path, site.value, site.schema) && Breaks(site.value, site.schema, reg, site.path, e)
  }

  lemma {:induction false} Explain(v: Json, s: Schema, reg: Registry, e: Error) returns (site: Site)
    requires Guarded(reg)
    requires Errors(v, s, reg, []).Success? && e in Errors(v, s, reg, []).value
    ensures Explains(v, s, reg, site, e)
    decreases v, 1, Level(s, RankOf(reg)), s, 1
  {
    DereferenceDescends(s, reg);
    var target := Dereference(s, reg).value;
    site := Site([], v, s);
    if target.Keywords? {
      var own, deeper := BodyExplain(v, target, reg, e);
      if !own { site := deeper; }
    }
  }

  lemma {:induction false} BodyExplain(v: Json, body: Schema, reg: Registry, e: Error)
    returns (own: bool, site: Site)
    requires Guarded(reg) && body.Keywords?
    requires BodyErrors(v, body, reg, []).Success? && e in BodyErrors(v, body, reg, []).value
    ensures own ==> BodyBreaks(v, body, reg, [], e)
    ensures !own ==> BodyApplies(v, body, reg, site.path, site.value, site.schema)
                     && Breaks(site.value, site.schema, reg, site.path, e)
    decreases v, 1, BodyLevel(body, RankOf(reg)), body, 0
  {
    own := true;
    site := Site([], v, body);
    if body.anyOf.Listed? {
      TriesMean(v, body.anyOf.schemas, reg, []);
    } else if body.oneOf.Listed? {
      TriesMean(v, body.oneOf.schemas, reg, []);
    } else if body.allOf.Listed? {
      var schemas := body.allOf.schemas;
      var lists := Sequence(Tries(v, schemas, reg, [])).value;
      InFlat(lists, e);
      var i :| 0 <= i < |lists| && e in lists[i];
      own := false;
      site := Explain(v, schemas[i], reg, e);
    } else {
      GateMeansPasses(v, body);
      if PassesGate(v, body) {
        own, site := ContentExplain(v, body, reg, e);
        if !own { assert site.path == [site.path[0]] + site.path[1..]; }
      } else {
        GateIsBreach(v, body, e.rule);
      }
    }
  }

  lemma {:induction false} ContentExplain(v: Json, body: Schema, reg: Registry, e: Error)
    returns (own: bool, site: Site)
    requires Guarded(reg) && body.Keywords?
    requires ContentErrors(v, body, reg, []).Success? && e in ContentErrors(v, body, reg, []).value
    ensures own ==> ContentBreaks(v, body, reg, [], e)
    ensures !own ==> site.path != []
                     && ContentApplies(v, body, reg, site.path[0], site.path[1..], site.value, site.schema)
                     && Breaks(site.value, site.schema, reg, site.path, e)
    decreases v, 0
  {
    own := true;
    site := Site([], v, body);
    match v {
      case Str(s) =>
        InReport(StringTests(s, body, reg), [], e);
        StringTestsAreBreaches(s, body, reg, e.rule);
      case Num(n) =>
        InReport(NumberTests(n, body), [], e);
        NumberTestsAreBreaches(n, body, e.rule);
      case Arr(items) =>
        InReport(ListTests(items, body), [], e);
        ListTestsAreBreaches(items, body, e.rule);
        if e !in Report(ListTests(items, body), []) {
          own := false;
          site := ItemExplain(items, body.items, reg, e);
        }
      case Obj(entries) =>
        InRequired(entries, body.required, [], |body.required|, e);
        if e !in RequiredErrors(entries, body.required, [], |body.required|) {
          own, site := MembersExplain(entries, body, reg, e);
        } else {
          var i :| 0 <= i < |body.required| && e.path == [] + [Key(body.required[i])]
                   && !HasKey(entries, body.required[i]);
          assert MemberBreaks(entries, body, body.required[i], e.rule);
        }
      case _ =>
    }
  }

  /** An error of a run at a longer path is an error at the root, moved there. */
  lemma Unmove(v: Json, s: Schema, reg: Registry, first: Segment, e: Error) returns (root: Error)
    requires Guarded(reg)
    requires Errors(v, s, reg, [first]).Success? && e in Errors(v, s, reg, [first]).value
    ensures Errors(v, s, reg, []).Success? && root in Errors(v, s, reg, []).value
    ensures e == Error([first] + root.path, root.rule)
  {
    ErrorsMoveWithThePath(v, s, reg, [first]);
    var i :| 0 <= i < |Errors(v, s, reg, [first]).value| && Errors(v, s, reg, [first]).value[i] == e;
    root := Errors(v, s, reg, []).value[i];
  }

  /** Moving a site and an error along keeps the rule broken. */
  lemma BreaksMoves(w: Json, t: Schema, reg: Registry, p: Path, path: Path, e: Error)
    requires Guarded(reg)
    ensures Breaks(w, t, reg, path, e) ==> Breaks(w, t, reg, p + path, Error(p + e.path, e.rule))
  {
    if Breaks(w, t, reg, path, e) && w.Obj? && Dereference(t, reg).value.Keywords? {
      var body := Dereference(t, reg).value;
      if ContentBreaks(w, body, reg, path, e) {
        var key :| e.path == path + [Key(key)] && MemberBreaks(w.entries, body, key, e.rule);
        assert p + e.path == p + path + [Key(key)];
      }
    }
  }

  lemma {:induction false} ItemExplain(items: seq<Json>, s: Schema, reg: Registry, e: Error) returns (site: Site)
    requires Guarded(reg) && s.Keywords?
    requires var run := Sequence(ItemChecks(items, s, reg, [])); run.Success? && e in Flat(run.value)
    ensures site.path != [] && site.path[0].Index? && site.path[0].index < |items|
    ensures Applied(items[site.path[0].index], s, reg, site.path[1..], site.value, site.schema)
    ensures Breaks(site.value, site.schema, reg, site.path, e)
    decreases items
  {
    var lists := Sequence(ItemChecks(items, s, reg, [])).value;
    InFlat(lists, e);
    var i :| 0 <= i < |lists| && e in lists[i];
    assert [] + [Index(i)] == [Index(i)];
    var root := Unmove(items[i], s, reg, Index(i), e);
    var inner := Explain(items[i], s, reg, root);
    BreaksMoves(inner.value, inner.schema, reg, [Index(i)], inner.path, root);
    site := Site([Index(i)] + inner.path, inner.value, inner.schema);
    assert site.path[1..] == inner.path;
  }

  lemma {:induction false} MembersExplain(entries: seq<(Text, Json)>, body: Schema, reg: Registry, e: Error)
    returns (own: bool, site: Site)
    requires Guarded(reg) && body.Keywords?
    requires var run := Sequence(MemberChecks(entries, body, reg, [])); run.Success? && e in Flat(run.value)
    ensures own ==> ContentBreaks(Obj(entries), body, reg, [], e)
    ensures !own ==> site.path != [] && site.path[0].Key?
                     && ContentApplies(Obj(entries), body, reg, site.path[0], site.path[1..], site.value, site.schema)
                     && Breaks(site.value, site.schema, reg, site.path, e)
    decreases entries
  {
    var lists := Sequence(MemberChecks(entries, body, reg, [])).value;
    InFlat(lists, e);
    var i :| 0 <= i < |lists| && e in lists[i];
    own, site := MemberExplain(entries[i], body, reg, e);
    if own {
      assert HasKey(entries, entries[i].0);
      assert e.path == [] + [Key(entries[i].0)];
      assert MemberBreaks(entries, body, entries[i].0, e.rule);
    }
  }

  lemma {:induction false} MemberExplain(entry: (Text, Json), body: Schema, reg: Registry, e: Error)
    returns (own: bool, site: Site)
    requires Guarded(reg) && body.Keywords?
    requires MemberErrors(entry, body, reg, []).Success? && e in MemberErrors(entry, body, reg, []).value
    ensures own ==> e == Error([Key(entry.0)], Undocumented) && !Documented(body, entry.0) && body.additional.Forbidden?
    ensures !own ==> site.path != [] && site.path[0] == Key(entry.0)
                     && MemberApplies(entry, body, reg, site.path[1..], site.value, site.schema)
                     && Breaks(site.value, site.schema, reg, site.path, e)
    decreases entry
  {
    assert [] + [Key(entry.0)] == [Key(entry.0)];
    own := true;
    site := Site([], entry.1, body);
    match MemberSchema(body, entry.0) {
      case Governed(s) =>
        own := false;
        var root := Unmove(entry.1, s, reg, Key(entry.0), e);
        var inner := Explain(entry.1, s, reg, root);
        BreaksMoves(inner.value, inner.schema, reg, [Key(entry.0)], inner.path, root);
        site := Site([Key(entry.0)] + inner.path, inner.value, inner.schema);
        assert site.path[1..] == inner.path;
      case _ =>
    }
  }

  // ----- Every broken rule is named -----

  lemma {:induction false} Reported(v: Json, s: Schema, reg: Registry, site: Site, e: Error)
    requires Guarded(reg) && Explains(v, s, reg, site, e)
    requires Errors(v, s, reg, []).Success?
    ensures e in Errors(v, s, reg, []).value
    decreases v, 1, Level(s, RankOf(reg)), s, 1
  {
    DereferenceDescends(s, reg);
    var target := Dereference(s, reg).value;
    if target.Keywords? {
      if BodyApplies(v, target, reg, site.path, site.value, site.schema) {
        BodyReported(v, target, reg, site, e);
      } else {
        OwnReported(v, target, reg, e);
      }
    }
  }

  lemma OwnReported(v: Json, body: Schema, reg: Registry, e: Error)
    requires Guarded(reg) && body.Keywords? && BodyBreaks(v, body, reg, [], e)
    requires BodyErrors(v, body, reg, []).Success?
    ensures e in BodyErrors(v, body, reg, []).value
  {
    if body.anyOf.Listed? {
      TriesMean(v, body.anyOf.schemas, reg, []);
    } else if body.oneOf.Listed? {
      TriesMean(v, body.oneOf.schemas, reg, []);
    } else {
      GateMeansPasses(v, body);
      if PassesGate(v, body) {
        OwnContentReported(v, body, reg, e);
      } else {
        GateIsBreach(v, body, e.rule);
      }
    }
  }

  lemma OwnContentReported(v: Json, body: Schema, reg: Registry, e: Error)
    requires Guarded(reg) && body.Keywords? && ContentBreaks(v, body, reg, [], e)
    requires ContentErrors(v, body, reg, []).Success?
    ensures e in ContentErrors(v, body, reg, []).value
  {
    match v {
      case Str(s) =>
        InReport(StringTests(s, body, reg), [], e);
        StringTestsAreBreaches(s, body, reg, e.rule);
      case Num(n) =>
        InReport(NumberTests(n, body), [], e);
        NumberTestsAreBreaches(n, body, e.rule);
      case Arr(items) =>
        InReport(ListTests(items, body), [], e);
        ListTestsAreBreaches(items, body, e.rule);
      case Obj(entries) =>
        var key :| e.path == [] + [Key(key)] && MemberBreaks(entries, body, key, e.rule);
        if e.rule == RequiredMissing {
          InRequired(entries, body.required, [], |body.required|, e);
          var i :| 0 <= i < |body.required| && body.required[i] == key;
          assert e.path == [] + [Key(body.required[i])];
        } else {
          var i :| 0 <= i < |entries| && entries[i].0 == key;
          var lists := Sequence(MemberChecks(entries, body, reg, [])).value;
          assert MemberErrors(entries[i], body, reg, []) == Success([Error([] + [Key(key)], Undocumented)]);
          assert e in lists[i];
          InFlat(lists, e);
        }
    }
  }

  lemma {:induction false} BodyReported(v: Json, body: Schema, reg: Registry, site: Site, e: Error)
    requires Guarded(reg) && body.Keywords? && BodyErrors(v, body, reg, []).Success?
    requires BodyApplies(v, body, reg, site.path, site.value, site.schema)
    requires Breaks(site.value, site.schema, reg, site.path, e)
    ensures e in BodyErrors(v, body, reg, []).value
    decreases v, 1, BodyLevel(body, RankOf(reg)), body, 0
  {
    if body.allOf.Listed? {
      var schemas := body.allOf.schemas;
      var i :| 0 <= i < |schemas| && Applied(v, schemas[i], reg, site.path, site.value, site.schema);
      var checks := Tries(v, schemas, reg, []);
      assert checks[i] == Errors(v, schemas[i], reg, []);
      Reported(v, schemas[i], reg, site, e);
      InFlat(Sequence(checks).value, e);
    } else {
      GateMeansPasses(v, body);
      match v {
        case Arr(items) => ItemReported(items, body, reg, site, e);
        case Obj(entries) => MembersReported(entries, body, reg, site, e);
      }
    }
  }

  /** A site and error below a first segment are the child's, moved. */
  lemma Below(site: Site, e: Error, reg: Registry) returns (inner: Site, root: Error)
    requires Guarded(reg) && site.path != [] && Breaks(site.value, site.schema, reg, site.path, e)
    ensures inner == Site(site.path[1..], site.value, site.schema)
    ensures Breaks(inner.value, inner.schema, reg, inner.path, root)
    ensures e == Error([site.path[0]] + root.path, root.rule)
  {
    inner := Site(site.path[1..], site.value, site.schema);
    assert site.path == [site.path[0]] + inner.path;
    var t := Dereference(site.schema, reg).value;
    if t.Keywords? && e.path != site.path {
      var key :| e.path == site.path + [Key(key)] && MemberBreaks(site.value.entries, t, key, e.rule);
      root := Error(inner.path + [Key(key)], e.rule);
    } else {
      root := Error(inner.path, e.rule);
    }
  }

  lemma Move(v: Json, s: Schema, reg: Registry, first: Segment, root: Error)
    requires Guarded(reg) && Errors(v, s, reg, []).Success? && root in Errors(v, s, reg, []).value
    ensures Errors(v, s, reg, [first]).Success?
    ensures Error([first] + root.path, root.rule) in Errors(v, s, reg, [first]).value
  {
    ErrorsMoveWithThePath(v, s, reg, [first]);
    var i :| 0 <= i < |Errors(v, s, reg, []).value| && Errors(v, s, reg, []).value[i] == root;
    assert Errors(v, s, reg, [first]).value[i] == Error([first] + root.path, root.rule);
  }

  lemma {:induction false} ItemReported(items: seq<Json>, body: Schema, reg: Registry, site: Site, e: Error)
    requires Guarded(reg) && body.Keywords? && ContentErrors(Arr(items), body, reg, []).Success?
    requires site.path != []
    requires ContentApplies(Arr(items), body, reg, site.path[0], site.path[1..], site.value, site.schema)
    requires Breaks(site.value, site.schema, reg, site.path, e)
    ensures e in ContentErrors(Arr(items), body, reg, []).value
    decreases items
  {
    var i := site.path[0].index;
    var inner, root := Below(site, e, reg);
    var checks := ItemChecks(items, body.items, reg, []);
    assert [] + [Index(i)] == [Index(i)];
    assert checks[i] == Errors(items[i], body.items, reg, [Index(i)]);
    ErrorsMoveWithThePath(items[i], body.items, reg, [Index(i)]);
    Reported(items[i], body.items, reg, inner, root);
    Move(items[i], body.items, reg, Index(i), root);
    InFlat(Sequence(checks).value, e);
  }

  lemma {:induction false} MembersReported(entries: seq<(Text, Json)>, body: Schema, reg: Registry, site: Site,
                                           e: Error)
    requires Guarded(reg) && body.Keywords? && ContentErrors(Obj(entries), body, reg, []).Success?
    requires site.path != []
    requires ContentApplies(Obj(entries), body, reg, site.path[0], site.path[1..], site.value, site.schema)
    requires Breaks(site.value, site.schema, reg, site.path, e)
    ensures e in ContentErrors(Obj(entries), body, reg, []).value
    decreases entries
  {
    var i :| 0 <= i < |entries| && entries[i].0 == site.path[0].name
             && MemberApplies(entries[i], body, reg, site.path[1..], site.value, site.schema);
    var checks := MemberChecks(entries, body, reg, []);
    assert checks[i] == MemberErrors(entries[i], body, reg, []);
    MemberReported(entries[i], body, reg, site, e);
    InFlat(Sequence(checks).value, e);
  }

  lemma {:induction false} MemberReported(entry: (Text, Json), body: Schema, reg: Registry, site: Site, e: Error)
    requires Guarded(reg) && body.Keywords? && MemberErrors(entry, body, reg, []).Success?
    requires site.path != [] && site.path[0] == Key(entry.0)
    requires MemberApplies(entry, body, reg, site.path[1..], site.value, site.schema)
    requires Breaks(site.value, site.schema, reg, site.path, e)
    ensures e in MemberErrors(entry, body, reg, []).value
    decreases entry
  {
    assert [] + [Key(entry.0)] == [Key(entry.0)];
    var s := MemberSchema(body, entry.0).schema;
    var inner, root := Below(site, e, reg);
    ErrorsMoveWithThePath(entry.1, s, reg, [Key(entry.0)]);
    Reported(entry.1, s, reg, inner, root);
    Move(entry.1, s, reg, Key(entry.0), root);
  }

  // ----- The theorems -----

  /** The errors are exactly the broken rules at the places validation descends to. */
  lemma ErrorsAreExactlyTheBrokenRules(v: Json, s: Schema, reg: Registry, e: Error)
    requires Guarded(reg) && Errors(v, s, reg, []).Success?
    ensures e in Errors(v, s, reg, []).value <==> exists site :: Explains(v, s, reg, site, e)
  {
    if e in Errors(v, s, reg, []).value {
      var site := Explain(v, s, reg, e);
    }
    if site :| Explains(v, s, reg, site, e) {
      Reported(v, s, reg, site, e);
    }
  }

  /** The path of a place leads to its value. */
  lemma {:induction false} SitesExist(v: Json, s: Schema, reg: Registry, path: Path, w: Json, t: Schema)
    requires Guarded(reg) && DistinctKeys(v) && Applied(v, s, reg, path, w, t)
    ensures At(v, path) == Some(w)
    decreases v, 1, Level(s, RankOf(reg)), s, 1
  {
    DereferenceDescends(s, reg);
    var target := Dereference(s, reg);
    if target.Success? && target.value.Keywords? && BodyApplies(v, target.value, reg, path, w, t) {
      BodySitesExist(v, target.value, reg, path, w, t);
    }
  }

  lemma {:induction false} BodySitesExist(v: Json, body: Schema, reg: Registry, path: Path, w: Json, t: Schema)
    requires Guarded(reg) && DistinctKeys(v) && body.Keywords? && BodyApplies(v, body, reg, path, w, t)
    ensures At(v, path) == Some(w)
    decreases v, 1, BodyLevel(body, RankOf(reg)), body, 0
  {
    if body.allOf.Listed? {
      var schemas := body.allOf.schemas;
      var i :| 0 <= i < |schemas| && Applied(v, schemas[i], reg, path, w, t);
      SitesExist(v, schemas[i], reg, path, w, t);
    } else {
      match v {
        case Arr(items) =>
          SitesExist(items[path[0].index], body.items, reg, path[1..], w, t);
        case Obj(entries) =>
          var i :| 0 <= i < |entries| && entries[i].0 == path[0].name
                   && MemberApplies(entries[i], body, reg, path[1..], w, t);
          OnlyEntry(entries, i);
          MemberSitesExist(entries[i], body, reg, path[1..], w, t);
      }
    }
  }

  lemma {:induction false} MemberSitesExist(entry: (Text, Json), body: Schema, reg: Registry, rest: Path, w: Json,
                                            t: Schema)
    requires Guarded(reg) && DistinctKeysInMember(entry)
    requires body.Keywords? && MemberApplies(entry, body, reg, rest, w, t)
    ensures At(entry.1, rest) == Some(w)
    decreases entry
  {
    SitesExist(entry.1, MemberSchema(body, entry.0).schema, reg, rest, w, t);
  }

  /** Every error points at an existing value, or at a required key missing from an existing object. */
  lemma ErrorPathsLead(v: Json, s: Schema, reg: Registry, e: Error)
    requires Guarded(reg) && DistinctKeys(v)
    requires Errors(v, s, reg, []).Success? && e in Errors(v, s, reg, []).value
    ensures if e.rule == RequiredMissing then
              exists p, key, w :: e.path == p + [Key(key)] && At(v, p) == Some(w) && w.Obj? && !HasKey(w.entries, key)
            else At(v, e.path).Some?
  {
    var site := Explain(v, s, reg, e);
    SitesExist(v, s, reg, site.path, site.value, site.schema);
    var w, t := site.value, Dereference(site.schema, reg).value;
    if t.Keywords? && e.path != site.path {
      var key :| e.path == site.path + [Key(key)] && MemberBreaks(w.entries, t, key, e.rule);
      if e.rule == Undocumented {
        StepInto(v, site.path, w.entries, key);
      }
    }
  }

  lemma {:induction false} FindEntry(entries: seq<(Text, Json)>, key: Text)
    ensures FirstEntry(entries, key).Some? <==> HasKey(entries, key)
  {
    if entries != [] {
      FindEntry(entries[1..], key);
      if HasKey(entries[1..], key) {
        var i :| 0 <= i < |entries[1..]| && entries[1..][i].0 == key;
        assert entries[i + 1].0 == key;
      }
      if HasKey(entries, key) && entries[0].0 != key {
        var i :| 0 <= i < |entries| && entries[i].0 == key;
        assert entries[1..][i - 1].0 == key;
      }
    }
  }

  lemma {:induction false} StepInto(v: Json, path: Path, entries: seq<(Text, Json)>, key: Text)
    requires At(v, path) == Some(Obj(entries)) && HasKey(entries, key)
    ensures At(v, path + [Key(key)]).Some?
    decreases path
  {
    var longer := path + [Key(key)];
    if path == [] {
      FindEntry(entries, key);
      assert longer[1..] == [];
    } else {
      assert longer[1..] == path[1..] + [Key(key)];
      match (path[0], v)
      case (Index(i), Arr(items)) => StepInto(items[i], path[1..], entries, key);
      case (Key(k), Obj(members)) => StepInto(FirstEntry(members, k).value, path[1..], entries, key);
    }
  }
}
