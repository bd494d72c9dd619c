/**
 What a schema means, stated with quantifiers, and the theorem that the checker reports no error
 exactly for the values a schema accepts, and throws exactly when validation needs a schema that
 does not resolve.
 */
module Meaning {
  import opened Wrappers
  import opened Text
  import opened Numbers
  import opened Json
  import opened Schemas
  import opened Validator
  import Decimal

  predicate PassesGate(v: Json, body: Schema)
    requires body.Keywords?
  {
    && (body.constant.Some? ==> StrictlyEquals(v, body.constant.value))
    && (body.choices.Some? ==> exists w :: w in body.choices.value && StrictlyEquals(v, w))
    && (body.types.Some? ==> exists t :: t in body.types.value && HasType(v, t))
  }

  predicate StringFits(s: Text, body: Schema, reg: Registry)
    requires body.Keywords?
  {
    && (body.pattern != [] ==> reg.matches(body.pattern, s))
    && (body.minLength.Some? ==> body.minLength.value <= |s| as real)
    && (body.maxLength.Some? ==> |s| as real <= body.maxLength.value)
    && (body.format != [] ==> reg.formatOk(body.format, s))
  }

  predicate NumberFits(n: Number, body: Schema)
    requires body.Keywords?
  {
    && (body.minimum.Some? ==> body.minimum.value <= ValueOf(n))
    && (body.maximum.Some? ==> ValueOf(n) <= body.maximum.value)
    && (body.exclusiveMinimum.Some? ==> body.exclusiveMinimum.value < ValueOf(n))
    && (body.exclusiveMaximum.Some? ==> ValueOf(n) < body.exclusiveMaximum.value)
  }

  predicate Distinct(items: seq<Json>) {
    forall i, j :: 0 <= i < j < |items| ==> items[i] != items[j]
  }

  predicate ListFits(items: seq<Json>, body: Schema)
    requires body.Keywords?
  {
    && (body.minItems.Some? ==> body.minItems.value <= |items| as real)
    && (body.maxItems.Some? ==> |items| as real <= body.maxItems.value)
    && (body.uniqueItems ==> Distinct(items))
  }

  predicate Documented(body: Schema, key: Text)
    requires body.Keywords?
  {
    key in body.properties && body.properties[key].Keywords?
  }

  // ----- Acceptance -----

  predicate AtLeastOne(flags: seq<bool>) {
    exists i :: 0 <= i < |flags| && flags[i]
  }

  predicate Every(flags: seq<bool>) {
    forall i :: 0 <= i < |flags| ==> flags[i]
  }

  predicate OnlyAt(flags: seq<bool>, i: nat) {
    i < |flags| && flags[i] && forall j :: 0 <= j < |flags| && j != i ==> !flags[j]
  }

  predicate ExactlyOne(flags: seq<bool>) {
    exists i: nat :: i < |flags| && OnlyAt(flags, i)
  }

  /** The value satisfies the schema. */
  ghost predicate Accepts(v: Json, s: Schema, reg: Registry)
    requires Guarded(reg)
    decreases v, 1, Level(s, RankOf(reg)), s, 1
  {
    DereferenceDescends(s, reg);
    var target := Dereference(s, reg);
    target.Success? && target.value.Keywords? && BodyAccepts(v, target.value, reg)
  }

  ghost predicate BodyAccepts(v: Json, body: Schema, reg: Registry)
    requires Guarded(reg) && body.Keywords?
    decreases v, 1, BodyLevel(body, RankOf(reg)), body, 0
  {
    if body.anyOf.Listed? then AtLeastOne(AcceptedBy(v, body.anyOf.schemas, reg))
    else if body.oneOf.Listed? then ExactlyOne(AcceptedBy(v, body.oneOf.schemas, reg))
    else if body.allOf.Listed? then Every(AcceptedBy(v, body.allOf.schemas, reg))
    else PassesGate(v, body) && ContentAccepted(v, body, reg)
  }

  /** For each schema, whether it accepts the value. */
  ghost function AcceptedBy(v: Json, schemas: seq<Schema>, reg: Registry): (flags: seq<bool>)
    requires Guarded(reg)
    ensures |flags| == |schemas|
    decreases v, 1, TopLevel(schemas, RankOf(reg)), schemas
  {
    seq(|schemas|, i requires 0 <= i < |schemas| => Accepts(v, schemas[i], reg))
  }

  ghost predicate ContentAccepted(v: Json, body: Schema, reg: Registry)
    requires Guarded(reg) && body.Keywords?
    decreases v, 0
  {
    match v
    case Null => true
    case Bool(_) => true
    case Str(s) => StringFits(s, body, reg)
    case Num(n) => NumberFits(n, body)
    case Arr(items) =>
      ListFits(items, body) && (body.items.Keywords? ==> Every(ItemsAccepted(items, body.items, reg)))
    case Obj(entries) =>
      (forall key :: key in body.required ==> HasKey(entries, key)) && Every(MembersAccepted(entries, body, reg))
  }

  /** For each item, whether the schema accepts it. */
  ghost function ItemsAccepted(items: seq<Json>, s: Schema, reg: Registry): (flags: seq<bool>)
    requires Guarded(reg)
    ensures |flags| == |items|
    decreases items
  {
    seq(|items|, i requires 0 <= i < |items| => Accepts(items[i], s, reg))
  }

  /** For each member, whether the schema governing its key accepts it. */
  ghost function MembersAccepted(entries: seq<(Text, Json)>, body: Schema, reg: Registry): (flags: seq<bool>)
    requires Guarded(reg) && body.Keywords?
    ensures |flags| == |entries|
    decreases entries
  {
    seq(|entries|, i requires 0 <= i < |entries| => MemberAccepted(entries[i], body, reg))
  }

  ghost predicate MemberAccepted(entry: (Text, Json), body: Schema, reg: Registry)
    requires Guarded(reg) && body.Keywords?
    decreases entry
  {
    if Documented(body, entry.0) then Accepts(entry.1, body.properties[entry.0], reg)
    else match body.additional
      case Unrestricted => true
      case Forbidden => false
      case Governed(s) => s.Keywords? ==> Accepts(entry.1, s, reg)
  }

  // ----- Resolution -----

  /** Every reference that validating the value comes across resolves. */
  ghost predicate Resolves(v: Json, s: Schema, reg: Registry)
    requires Guarded(reg)
    decreases v, 1, Level(s, RankOf(reg)), s, 1
  {
    DereferenceDescends(s, reg);
    var target := Dereference(s, reg);
    target.Success? && (target.value.Keywords? ==> BodyResolves(v, target.value, reg))
  }

  ghost predicate BodyResolves(v: Json, body: Schema, reg: Registry)
    requires Guarded(reg) && body.Keywords?
    decreases v, 1, BodyLevel(body, RankOf(reg)), body, 0
  {
    if body.anyOf.Listed? then Every(ResolvedBy(v, body.anyOf.schemas, reg))
    else if body.oneOf.Listed? then Every(ResolvedBy(v, body.oneOf.schemas, reg))
    else if body.allOf.Listed? then Every(ResolvedBy(v, body.allOf.schemas, reg))
    else PassesGate(v, body) ==> ContentResolves(v, body, reg)
  }

  ghost function ResolvedBy(v: Json, schemas: seq<Schema>, reg: Registry): (flags: seq<bool>)
    requires Guarded(reg)
    ensures |flags| == |schemas|
    decreases v, 1, TopLevel(schemas, RankOf(reg)), schemas
  {
    seq(|schemas|, i requires 0 <= i < |schemas| => Resolves(v, schemas[i], reg))
  }

  ghost predicate ContentResolves(v: Json, body: Schema, reg: Registry)
    requires Guarded(reg) && body.Keywords?
    decreases v, 0
  {
    match v
    case Arr(items) => body.items.Keywords? ==> Every(ItemsResolve(items, body.items, reg))
    case Obj(entries) => Every(MembersResolve(entries, body, reg))
    case _ => true
  }

  ghost function ItemsResolve(items: seq<Json>, s: Schema, reg: Registry): (flags: seq<bool>)
    requires Guarded(reg)
    ensures |flags| == |items|
    decreases items
  {
    seq(|items|, i requires 0 <= i < |items| => Resolves(items[i], s, reg))
  }

  ghost function MembersResolve(entries: seq<(Text, Json)>, body: Schema, reg: Registry): (flags: seq<bool>)
    requires Guarded(reg) && body.Keywords?
    ensures |flags| == |entries|
    decreases entries
  {
    seq(|entries|, i requires 0 <= i < |entries| => MemberResolves(entries[i], body, reg))
  }

  ghost predicate MemberResolves(entry: (Text, Json), body: Schema, reg: Registry)
    requires Guarded(reg) && body.Keywords?
    decreases entry
  {
    if Documented(body, entry.0) then Resolves(entry.1, body.properties[entry.0], reg)
    else body.additional.Governed? && body.additional.schema.Keywords?
         ==> Resolves(entry.1, body.additional.schema, reg)
  }

  // ----- Unique items -----

  lemma {:induction false} ElementsCount<T>(list: seq<T>)
    ensures |Elements(list)| <= |list|
    ensures |Elements(list)| == |list| <==> forall i, j :: 0 <= i < j < |list| ==> list[i] != list[j]
  {
    if list == [] {
      assert Elements(list) == {};
    } else {
      var last, before := list[|list| - 1], list[..|list| - 1];
      ElementsCount(before);
      assert list == before + [last];
      assert Elements(list) == Elements(before) + {last};
    }
  }

  /** As many different serialisations as items means that no two items are the same value. */
  lemma UniqueItemsMeansDistinct(items: seq<Json>)
    ensures AllPrintedApart(items) <==> Distinct(items)
  {
    ElementsCount(Printed(items));
    if Distinct(items) {
      forall i, j | 0 <= i < j < |items| ensures Printed(items)[i] != Printed(items)[j] {
        if Printed(items)[i] == Printed(items)[j] {
          StringifyIsInjective(items[i], items[j]);
        }
      }
    } else {
      var i, j :| 0 <= i < j < |items| && items[i] == items[j];
      assert Printed(items)[i] == Printed(items)[j];
    }
  }

  // ----- Counting clean alternatives -----

  lemma {:induction false} CleanNone(tries: seq<seq<Error>>)
    ensures Clean(tries) == 0 <==> forall i :: 0 <= i < |tries| ==> tries[i] != []
    ensures Flat(tries) == [] <==> forall i :: 0 <= i < |tries| ==> tries[i] == []
  {
    if tries != [] { CleanNone(tries[..|tries| - 1]); }
  }

  lemma {:induction false} CleanOne(tries: seq<seq<Error>>, flags: seq<bool>)
    requires |flags| == |tries| && forall i :: 0 <= i < |tries| ==> (flags[i] <==> tries[i] == [])
    ensures Clean(tries) == 1 <==> ExactlyOne(flags)
  {
    if tries != [] {
      var n := |tries| - 1;
      CleanOne(tries[..n], flags[..n]);
      CleanNone(tries[..n]);
      if Clean(tries) == 1 {
        if flags[n] {
          assert OnlyAt(flags, n);
        } else {
          var i: nat :| i < n && OnlyAt(flags[..n], i);
          assert OnlyAt(flags, i) by {
            assert forall j :: 0 <= j < n ==> flags[..n][j] == flags[j];
          }
        }
      }
      if ExactlyOne(flags) {
        var i: nat :| i <= n && OnlyAt(flags, i);
        if i < n { assert OnlyAt(flags[..n], i); }
      }
    }
  }

  // ----- The theorem -----

  lemma GateMeansPasses(v: Json, body: Schema)
    requires body.Keywords?
    ensures Gate(v, body).None? <==> PassesGate(v, body)
  {
  }

  predicate AllPass(tests: seq<Test>) {
    forall i :: 0 <= i < |tests| ==> !tests[i].fails
  }

  lemma {:induction false} NothingReported(tests: seq<Test>, path: Path)
    ensures Report(tests, path) == [] <==> AllPass(tests)
  {
    if tests != [] {
      NothingReported(tests[1..], path);
      assert AllPass(tests) <==> !tests[0].fails && AllPass(tests[1..]);
    }
  }

  lemma TestsMeanFits(s: Text, n: Number, items: seq<Json>, body: Schema, reg: Registry)
    requires body.Keywords?
    ensures AllPass(StringTests(s, body, reg)) <==> StringFits(s, body, reg)
    ensures AllPass(NumberTests(n, body)) <==> NumberFits(n, body)
    ensures AllPass(ListTests(items, body)) <==> ListFits(items, body)
  {
    UniqueItemsMeansDistinct(items);
    var t := StringTests(s, body, reg);
    assert AllPass(t) <==> !t[0].fails && !t[1].fails && !t[2].fails && !t[3].fails;
    var u := NumberTests(n, body);
    assert AllPass(u) <==> !u[0].fails && !u[1].fails && !u[2].fails && !u[3].fails;
    var l := ListTests(items, body);
    assert AllPass(l) <==> !l[0].fails && !l[1].fails && !l[2].fails;
  }

  lemma {:induction false} RequiredMeans(entries: seq<(Text, Json)>, required: seq<Text>, path: Path, n: nat)
    requires n <= |required|
    ensures RequiredErrors(entries, required, path, n) == [] <==>
            forall i :: 0 <= i < n ==> HasKey(entries, required[i])
  {
    if n > 0 { RequiredMeans(entries, required, path, n - 1); }
  }

  /** A check throws or finds nothing exactly as the meaning says. */
  ghost predicate Fits(check: Found, resolves: bool, accepts: bool) {
    && (check.Success? <==> resolves)
    && (check.Success? ==> (check.value == [] <==> accepts))
  }

  ghost predicate AllFit(checks: seq<Found>, resolves: seq<bool>, accepts: seq<bool>) {
    && |checks| == |resolves| == |accepts|
    && forall i :: 0 <= i < |checks| ==> Fits(checks[i], resolves[i], accepts[i])
  }

  /** A run of checks that each fit their own meaning. */
  lemma RunFits(checks: seq<Found>, resolves: seq<bool>, accepts: seq<bool>)
    requires AllFit(checks, resolves, accepts)
    ensures Sequence(checks).Success? <==> Every(resolves)
    ensures Sequence(checks).Success? ==>
              var tries := Sequence(checks).value;
              && (Clean(tries) == 0 <==> !AtLeastOne(accepts))
              && (Clean(tries) == 1 <==> ExactlyOne(accepts))
              && (Flat(tries) == [] <==> Every(accepts))
  {
    if Sequence(checks).Success? {
      var tries := Sequence(checks).value;
      assert forall i :: 0 <= i < |checks| ==> (tries[i] == [] <==> accepts[i]);
      CleanNone(tries);
      CleanOne(tries, accepts);
    }
  }

  /**
   The checker throws exactly when a reference it needs does not resolve; otherwise it reports no
   error exactly for the values the schema accepts.
   */
  lemma {:induction false} ErrorsMean(v: Json, s: Schema, reg: Registry, path: Path)
    requires Guarded(reg)
    ensures Errors(v, s, reg, path).Success? <==> Resolves(v, s, reg)
    ensures Resolves(v, s, reg) ==> (Errors(v, s, reg, path).value == [] <==> Accepts(v, s, reg))
    decreases v, 1, Level(s, RankOf(reg)), s, 1
  {
    DereferenceDescends(s, reg);
    var target := Dereference(s, reg);
    if target.Success? && target.value.Keywords? {
      BodyMeans(v, target.value, reg, path);
    }
  }

  lemma {:induction false} BodyMeans(v: Json, body: Schema, reg: Registry, path: Path)
    requires Guarded(reg) && body.Keywords?
    ensures Fits(BodyErrors(v, body, reg, path), BodyResolves(v, body, reg), BodyAccepts(v, body, reg))
    decreases v, 1, BodyLevel(body, RankOf(reg)), body, 0
  {
    if body.anyOf.Listed? {
      TriesMean(v, body.anyOf.schemas, reg, path);
    } else if body.oneOf.Listed? {
      TriesMean(v, body.oneOf.schemas, reg, path);
    } else if body.allOf.Listed? {
      TriesMean(v, body.allOf.schemas, reg, path);
    } else {
      GateMeansPasses(v, body);
      ContentMeans(v, body, reg, path);
    }
  }

  lemma {:induction false} TriesMean(v: Json, schemas: seq<Schema>, reg: Registry, path: Path)
    requires Guarded(reg)
    ensures var run, accepts := Sequence(Tries(v, schemas, reg, path)), AcceptedBy(v, schemas, reg);
            && (run.Success? <==> Every(ResolvedBy(v, schemas, reg)))
            && (run.Success? ==>
                  && (Clean(run.value) == 0 <==> !AtLeastOne(accepts))
                  && (Clean(run.value) == 1 <==> ExactlyOne(accepts))
                  && (Flat(run.value) == [] <==> Every(accepts)))
    decreases v, 1, TopLevel(schemas, RankOf(reg)), schemas
  {
    var checks := Tries(v, schemas, reg, path);
    var resolves, accepts := ResolvedBy(v, schemas, reg), AcceptedBy(v, schemas, reg);
    forall i | 0 <= i < |schemas| ensures Fits(checks[i], resolves[i], accepts[i]) {
      ErrorsMean(v, schemas[i], reg, path);
    }
    RunFits(checks, resolves, accepts);
  }

  lemma {:induction false} ContentMeans(v: Json, body: Schema, reg: Registry, path: Path)
    requires Guarded(reg) && body.Keywords?
    ensures Fits(ContentErrors(v, body, reg, path), ContentResolves(v, body, reg), ContentAccepted(v, body, reg))
    decreases v, 0
  {
    match v {
      case Arr(items) =>
        UniqueItemsMeansDistinct(items);
        NothingReported(ListTests(items, body), path);
        TestsMeanFits([], NOUGHT, items, body, reg);
        ItemsMean(items, body.items, reg, path);
      case Obj(entries) =>
        RequiredMeans(entries, body.required, path, |body.required|);
        MembersMean(entries, body, reg, path);
      case _ => ScalarsMean(v, body, reg, path);
    }
  }

  lemma ScalarsMean(v: Json, body: Schema, reg: Registry, path: Path)
    requires Guarded(reg) && body.Keywords? && !v.Arr? && !v.Obj?
    ensures Fits(ContentErrors(v, body, reg, path), ContentResolves(v, body, reg), ContentAccepted(v, body, reg))
  {
    match v {
      case Str(s) =>
        NothingReported(StringTests(s, body, reg), path);
        TestsMeanFits(s, NOUGHT, [], body, reg);
      case Num(n) =>
        NothingReported(NumberTests(n, body), path);
        TestsMeanFits([], n, [], body, reg);
      case _ =>
    }
  }

  lemma {:induction false} ItemsMean(items: seq<Json>, s: Schema, reg: Registry, path: Path)
    requires Guarded(reg)
    ensures var run := Sequence(ItemChecks(items, s, reg, path));
            && (run.Success? <==> Every(ItemsResolve(items, s, reg)))
            && (run.Success? ==> (Flat(run.value) == [] <==> Every(ItemsAccepted(items, s, reg))))
    decreases items
  {
    var checks := ItemChecks(items, s, reg, path);
    var resolves, accepts := ItemsResolve(items, s, reg), ItemsAccepted(items, s, reg);
    forall i | 0 <= i < |items| ensures Fits(checks[i], resolves[i], accepts[i]) {
      ErrorsMean(items[i], s, reg, path + [Index(i)]);
    }
    RunFits(checks, resolves, accepts);
  }

  lemma {:induction false} MembersMean(entries: seq<(Text, Json)>, body: Schema, reg: Registry, path: Path)
    requires Guarded(reg) && body.Keywords?
    ensures var run := Sequence(MemberChecks(entries, body, reg, path));
            && (run.Success? <==> Every(MembersResolve(entries, body, reg)))
            && (run.Success? ==> (Flat(run.value) == [] <==> Every(MembersAccepted(entries, body, reg))))
    decreases entries
  {
    var checks := MemberChecks(entries, body, reg, path);
    var resolves, accepts := MembersResolve(entries, body, reg), MembersAccepted(entries, body, reg);
    forall i | 0 <= i < |entries| ensures Fits(checks[i], resolves[i], accepts[i]) {
      MemberMeans(entries[i], body, reg, path);
    }
    RunFits(checks, resolves, accepts);
  }

  lemma {:induction false} MemberMeans(entry: (Text, Json), body: Schema, reg: Registry, path: Path)
    requires Guarded(reg) && body.Keywords?
    ensures Fits(MemberErrors(entry, body, reg, path),
                 MemberResolves(entry, body, reg), MemberAccepted(entry, body, reg))
    decreases entry
  {
    match MemberSchema(body, entry.0) {
      case Governed(s) => ErrorsMean(entry.1, s, reg, path + [Key(entry.0)]);
      case _ =>
    }
  }

  // ----- Types -----

  lemma LastDigit(d: Text)
    requires d != [] && Decimal.AllDigits(d)
    ensures Decimal.Read(d) % 10 == d[|d| - 1] - 48
  {
  }

  lemma TensDivide(m: int, k: int, p: nat)
    requires p > 0 && m as real == k as real * Decimal.Scaled(1, p) as real
    ensures m % 10 == 0
  {
    var tens := k * Decimal.Scaled(1, p - 1);
    assert k * Decimal.Scaled(1, p) == 10 * tens;
    assert (k * Decimal.Scaled(1, p)) as real == k as real * Decimal.Scaled(1, p) as real;
  }

  /** The number without its sign. */
  function Positive(n: Number): (m: Number)
    ensures !m.negative && m.digits == n.digits && m.exponent == n.exponent
  {
    n.(negative := false)
  }

  lemma FractionsAreNotWhole(n: Number, k: int)
    requires n.exponent < 0 && !n.negative
    ensures ValueOf(n) != k as real
  {
    PlacesDivide(n);
    if ValueOf(n) == k as real {
      TensDivide(Decimal.Read(n.digits), k, -n.exponent);
      LastDigit(n.digits);
    }
  }

  lemma WholeValue(n: Number) returns (k: int)
    requires n.exponent >= 0
    ensures ValueOf(n) == k as real
  {
    k := Decimal.Scaled(Decimal.Read(n.digits), n.exponent);
    ZerosMultiply(Positive(n));
    if n.negative {
      SignMirrorsValue(n);
      k := -k;
    }
  }

  lemma FloorOfWhole(x: real, k: int)
    requires x == k as real
    ensures x.Floor == k
  {
  }

  /** A number's exponent is non-negative exactly when the number is whole. */
  lemma WholeExactly(n: Number)
    ensures n.exponent >= 0 <==> ValueOf(n) == ValueOf(n).Floor as real
  {
    var x := ValueOf(n);
    if n.exponent >= 0 {
      var k := WholeValue(n);
      FloorOfWhole(x, k);
    } else {
      FractionsAreNotWhole(Positive(n), if n.negative then -x.Floor else x.Floor);
      if n.negative { SignMirrorsValue(n); }
    }
  }

  /** The type names a value goes by: one of the six of JSON, and integer besides for a whole number. */
  function TypesOf(v: Json): set<TypeName> {
    match v
    case Null => {NullType}
    case Bool(_) => {BooleanType}
    case Str(_) => {StringType}
    case Arr(_) => {ArrayType}
    case Obj(_) => {ObjectType}
    case Num(n) => {NumberType} + if ValueOf(n) == ValueOf(n).Floor as real then {IntegerType} else {}
  }

  /**
   A list of types lets through the values that go by one of them, whole numbers being the integers,
   and reports a mismatch for every other value; an unknown name lets nothing through.
   */
  lemma TypesDecide(v: Json, s: Schema, reg: Registry, path: Path)
    requires Guarded(reg) && Assertive(s) && s.constant.None? && s.choices.None? && s.types.Some?
    ensures Errors(v, s, reg, path) ==
            if exists t :: t in s.types.value && t in TypesOf(v) then Errors(v, s.(types := None), reg, path)
            else Success([Error(path, TypeMismatch)])
  {
    ContentIgnoresTheGate(v, s, s.(types := None), reg, path);
    assert Errors(v, s, reg, path) == BodyErrors(v, s, reg, path);
    assert Errors(v, s.(types := None), reg, path) == BodyErrors(v, s.(types := None), reg, path);
    SomeType(v, s.types.value);
  }

  lemma SomeType(v: Json, list: seq<TypeName>)
    ensures (exists i :: 0 <= i < |list| && HasType(v, list[i])) <==> exists t :: t in list && t in TypesOf(v)
  {
    forall t ensures HasType(v, t) <==> t in TypesOf(v) {
      if v.Num? { WholeExactly(v.num); }
    }
    if t :| t in list && t in TypesOf(v) {
      var i :| 0 <= i < |list| && list[i] == t;
      assert HasType(v, list[i]);
    }
  }

  /** The schema that asks for one type only. */
  function Typed(t: TypeName): (s: Schema)
    ensures s.Keywords?
  {
    var free := Referring([]);
    free.(types := Some([t]))
  }

  /** It accepts exactly the values of that type. */
  lemma OneTypeAcceptsExactly(v: Json, t: TypeName, reg: Registry)
    requires Guarded(reg)
    ensures Passes(v, Typed(t), reg) <==> t in TypesOf(v)
  {
    var s := Typed(t);
    TypesDecide(v, s, reg, []);
    if t in TypesOf(v) {
      assert t in [t];
      assert s.(types := None) == Referring([]);
      NothingAskedNothingReported(v, [], reg, []);
    }
  }

  // ----- Constants and enumerations -----

  predicate Scalar(v: Json) { !v.Arr? && !v.Obj? }

  /** A schema whose own assertions are looked at: no reference and no applicator hides them. */
  predicate Assertive(s: Schema) {
    s.Keywords? && s.ref == [] && s.anyOf.Absent? && s.oneOf.Absent? && s.allOf.Absent?
  }

  /** What is checked after the gate does not depend on the reference or on what the gate checks. */
  lemma ContentIgnoresTheGate(v: Json, body: Schema, other: Schema, reg: Registry, path: Path)
    requires Guarded(reg) && body.Keywords?
    requires other.Keywords?
    requires other == body.(ref := other.ref, types := other.types,
                            constant := other.constant, choices := other.choices)
    ensures ContentErrors(v, body, reg, path) == ContentErrors(v, other, reg, path)
  {
    match v {
      case Arr(items) => assert ListTests(items, body) == ListTests(items, other);
      case Obj(entries) =>
        assert MemberChecks(entries, body, reg, path) == MemberChecks(entries, other, reg, path) by {
          forall i | 0 <= i < |entries|
            ensures MemberErrors(entries[i], body, reg, path) == MemberErrors(entries[i], other, reg, path)
          {
            assert MemberSchema(body, entries[i].0) == MemberSchema(other, entries[i].0);
          }
        }
      case _ =>
    }
  }

  /** A constant lets through the equal value if it is a scalar, and nothing else. */
  lemma ConstantDecides(v: Json, s: Schema, reg: Registry, path: Path)
    requires Guarded(reg) && Assertive(s) && s.constant.Some?
    ensures Errors(v, s, reg, path) ==
            if v == s.constant.value && Scalar(v) then Errors(v, s.(constant := None), reg, path)
            else Success([Error(path, ConstMismatch)])
  {
    ContentIgnoresTheGate(v, s, s.(constant := None), reg, path);
    assert Errors(v, s, reg, path) == BodyErrors(v, s, reg, path);
    assert Errors(v, s.(constant := None), reg, path) == BodyErrors(v, s.(constant := None), reg, path);
  }

  /** An enumeration lets through the scalars it lists, and nothing else. */
  lemma ChoicesDecide(v: Json, s: Schema, reg: Registry, path: Path)
    requires Guarded(reg) && Assertive(s) && s.constant.None? && s.choices.Some?
    ensures Errors(v, s, reg, path) ==
            if v in s.choices.value && Scalar(v) then Errors(v, s.(choices := None), reg, path)
            else Success([Error(path, EnumMismatch)])
  {
    ContentIgnoresTheGate(v, s, s.(choices := None), reg, path);
    assert Errors(v, s, reg, path) == BodyErrors(v, s, reg, path);
    assert Errors(v, s.(choices := None), reg, path) == BodyErrors(v, s.(choices := None), reg, path);
    if v in s.choices.value {
      var i :| 0 <= i < |s.choices.value| && s.choices.value[i] == v;
      assert StrictlyEquals(v, s.choices.value[i]) <==> Scalar(v);
    }
  }

  ghost predicate Passes(v: Json, s: Schema, reg: Registry)
    requires Guarded(reg)
  {
    Errors(v, s, reg, []) == Success([])
  }

  /** The equality of the standard (section 4.2.2 of JSON Schema Core): the order of members does not matter. */
  predicate Same(v: Json, w: Json)
    decreases v
  {
    match (v, w)
    case (Arr(a), Arr(b)) => |a| == |b| && forall i :: 0 <= i < |a| ==> Same(a[i], b[i])
    case (Obj(a), Obj(b)) =>
      && (forall i :: 0 <= i < |a| ==> HasSame(a[i], b))
      && (forall j :: 0 <= j < |b| ==> HasKey(a, b[j].0))
    case _ => v == w
  }

  predicate HasSame(entry: (Text, Json), others: seq<(Text, Json)>)
    decreases entry
  {
    exists j :: 0 <= j < |others| && others[j].0 == entry.0 && Same(entry.1, others[j].1)
  }

  lemma SameScalars(v: Json, w: Json)
    ensures Scalar(v) || Scalar(w) ==> (Same(v, w) <==> v == w)
  {
  }

  /**
   The standard has `const` accept exactly the equal values (section 6.1.3 of JSON Schema Validation).
   The checker does so exactly when the constant is a scalar, or whatever equals it fails the schema's
   other keywords.
   */
  lemma ConstantsFollowTheStandardExactlyForScalars(s: Schema, reg: Registry)
    requires Guarded(reg) && Assertive(s) && s.constant.Some?
    ensures var c, rest := s.constant.value, s.(constant := None);
            (forall v :: Passes(v, s, reg) <==> Same(v, c) && Passes(v, rest, reg))
            <==> Scalar(c) || forall v :: Same(v, c) ==> !Passes(v, rest, reg)
  {
    var c := s.constant.value;
    forall v
      ensures Passes(v, s, reg) <==> v == c && Scalar(v) && Passes(v, s.(constant := None), reg)
      ensures Scalar(c) ==> (Same(v, c) <==> v == c)
    {
      ConstantDecides(v, s, reg, []);
      SameScalars(v, c);
    }
  }

  predicate EqualsListed(v: Json, choices: seq<Json>) {
    exists i :: 0 <= i < |choices| && Same(v, choices[i])
  }

  /**
   The standard has `enum` accept exactly the values equal to a listed one (section 6.1.2).  The
   checker does so exactly when every array or object equal to a listed one fails the other keywords.
   */
  lemma ChoicesFollowTheStandardExactlyForScalars(s: Schema, reg: Registry)
    requires Guarded(reg) && Assertive(s) && s.constant.None? && s.choices.Some?
    ensures var choices, rest := s.choices.value, s.(choices := None);
            (forall v :: Passes(v, s, reg) <==> EqualsListed(v, choices) && Passes(v, rest, reg))
            <==> forall v :: EqualsListed(v, choices) && !Scalar(v) ==> !Passes(v, rest, reg)
  {
    var choices := s.choices.value;
    forall v
      ensures Passes(v, s, reg) <==> v in choices && Scalar(v) && Passes(v, s.(choices := None), reg)
      ensures Scalar(v) ==> (EqualsListed(v, choices) <==> v in choices)
    {
      ChoicesDecide(v, s, reg, []);
      ListedScalars(v, choices);
    }
  }

  lemma ListedScalars(v: Json, choices: seq<Json>)
    ensures Scalar(v) ==> (EqualsListed(v, choices) <==> v in choices)
  {
    forall i | 0 <= i < |choices| ensures Scalar(v) ==> (Same(v, choices[i]) <==> v == choices[i]) {
      SameScalars(v, choices[i]);
    }
  }

  // ----- References -----

  /** The schema with no keyword but a reference, if any. */
  function Referring(ref: Text): (s: Schema)
    ensures s.Keywords?
  {
    Keywords(ref, Absent, Absent, Absent, None, None, None, [], None, None, [], None, None, None, None,
             None, None, false, Missing, map[], [], Unrestricted)
  }

  predicate HasApplicator(body: Schema)
    requires body.Keywords?
  {
    body.anyOf.Listed? || body.oneOf.Listed? || body.allOf.Listed?
  }

  lemma AssertionsIgnoreTheReference(v: Json, body: Schema, other: Schema, reg: Registry, path: Path)
    requires Guarded(reg) && body.Keywords? && other.Keywords? && other == body.(ref := other.ref)
    requires !HasApplicator(body)
    ensures BodyErrors(v, other, reg, path) == BodyErrors(v, body, reg, path)
  {
    ContentIgnoresTheGate(v, body, other, reg, path);
    assert Gate(v, body) == Gate(v, other);
  }

  /** A reference inside a schema that is applied is not looked at. */
  lemma BodyIgnoresItsReference(v: Json, body: Schema, other: Schema, reg: Registry, path: Path)
    requires Guarded(reg) && body.Keywords? && other.Keywords? && other == body.(ref := other.ref)
    ensures BodyErrors(v, other, reg, path) == BodyErrors(v, body, reg, path)
  {
    if !HasApplicator(body) { AssertionsIgnoreTheReference(v, body, other, reg, path); }
  }

  /**
   A schema with a reference is checked as the reference alone, its sibling keywords ignored, and that
   as its target without the target's own reference.
   */
  lemma OneLevelOfReference(v: Json, s: Schema, reg: Registry, path: Path)
    requires Guarded(reg) && s.Keywords? && s.ref != []
    ensures Errors(v, s, reg, path) == Errors(v, Referring(s.ref), reg, path)
    ensures Dereference(s, reg).Success? ==>
              Errors(v, s, reg, path) == Errors(v, Dereference(s, reg).value.(ref := []), reg, path)
  {
    assert Dereference(s, reg) == Dereference(Referring(s.ref), reg);
    if Dereference(s, reg).Success? {
      var target := Dereference(s, reg).value;
      BodyIgnoresItsReference(v, target, target.(ref := []), reg, path);
      assert Dereference(target.(ref := []), reg) == Success(target.(ref := []));
    }
  }

  /** Following references to the end; None when they go round in a circle. */
  function FollowedToTheEnd(s: Schema, reg: Registry, seen: set<Text>): Option<Result<Schema, Exception>>
    decreases |reg.schemas.Keys - seen|
  {
    match Dereference(s, reg)
    case Failure(e) => Some(Failure(e))
    case Success(target) =>
      if s.Missing? || s.ref == [] then Some(Success(target))
      else
        var name := RefName(s.ref).value;
        if name in seen then None
        else
          SeenGrows(reg.schemas.Keys, seen, name);
          FollowedToTheEnd(target, reg, seen + {name})
  }

  lemma SeenGrows(names: set<Text>, seen: set<Text>, name: Text)
    requires name in names && name !in seen
    ensures |names - (seen + {name})| < |names - seen|
  {
    assert names - seen == (names - (seen + {name})) + {name};
  }

  lemma {:induction false} TheEndRefersNowhere(s: Schema, reg: Registry, seen: set<Text>)
    ensures var end := FollowedToTheEnd(s, reg, seen);
            end.Some? && end.value.Success? && end.value.value.Keywords? ==> end.value.value.ref == []
    decreases |reg.schemas.Keys - seen|
  {
    if Dereference(s, reg).Success? && !s.Missing? && s.ref != [] && RefName(s.ref).value !in seen {
      SeenGrows(reg.schemas.Keys, seen, RefName(s.ref).value);
      TheEndRefersNowhere(Dereference(s, reg).value, reg, seen + {RefName(s.ref).value});
    }
  }

  predicate RefersOn(s: Schema) { s.Keywords? && s.ref != [] }

  /** One level is the end for a schema exactly when its target, if there is one, refers no further. */
  lemma OneLevelIsTheEndExactly(s: Schema, reg: Registry)
    ensures FollowedToTheEnd(s, reg, {}) == Some(Dereference(s, reg)) <==>
            !RefersOn(s) || Dereference(s, reg).Failure? || !RefersOn(Dereference(s, reg).value)
  {
    TheEndRefersNowhere(s, reg, {});
    if RefersOn(s) && Dereference(s, reg).Success? {
      var name, target := RefName(s.ref).value, Dereference(s, reg).value;
      SeenGrows(reg.schemas.Keys, {}, name);
      if !RefersOn(target) {
        assert FollowedToTheEnd(target, reg, {} + {name}) == Some(Success(target));
      }
    }
  }

  /** So it is the end for every schema exactly when no registered schema carries a reference. */
  lemma OneLevelIsAlwaysTheEndExactly(reg: Registry)
    ensures (forall s :: FollowedToTheEnd(s, reg, {}) == Some(Dereference(s, reg)))
            <==> forall name :: name in reg.schemas ==> !RefersOn(reg.schemas[name])
  {
    forall s
      ensures FollowedToTheEnd(s, reg, {}) == Some(Dereference(s, reg)) <==>
              !RefersOn(s) || Dereference(s, reg).Failure? || !RefersOn(Dereference(s, reg).value)
    {
      OneLevelIsTheEndExactly(s, reg);
    }
    forall name | name in reg.schemas && RefersOn(reg.schemas[name])
      ensures var s := Referring(REF_PREFIX + name);
              FollowedToTheEnd(s, reg, {}) != Some(Dereference(s, reg))
    {
      var s := Referring(REF_PREFIX + name);
      assert RefName(s.ref) == Some(name);
    }
  }

  /** A schema with no keyword but a reference reports nothing once it is applied. */
  lemma NothingAskedNothingReported(v: Json, ref: Text, reg: Registry, path: Path)
    requires Guarded(reg)
    ensures BodyErrors(v, Referring(ref), reg, path) == Success([])
    ensures ref == [] ==> Errors(v, Referring(ref), reg, path) == Success([])
  {
    var body := Referring(ref);
    assert BodyErrors(v, body, reg, path) == ContentErrors(v, body, reg, path);
    match v {
      case Str(t) => NothingReported(StringTests(t, body, reg), path);
      case Num(n) => NothingReported(NumberTests(n, body), path);
      case Arr(items) => NothingReported(ListTests(items, body), path);
      case Obj(entries) => FreeMembers(entries, body, reg, path);
      case _ =>
    }
  }

  /** A reference to a schema that is itself only a reference checks nothing, even if that one is unknown. */
  lemma ChainedReferencesCheckNothing(v: Json, name: Text, ref: Text, reg: Registry, path: Path)
    requires Guarded(reg)
    requires name in reg.schemas && reg.schemas[name] == Referring(ref)
    ensures Errors(v, Referring(REF_PREFIX + name), reg, path) == Success([])
  {
    var s := Referring(REF_PREFIX + name);
    assert RefName(s.ref) == Some(name);
    assert Dereference(s, reg) == Success(Referring(ref));
    NothingAskedNothingReported(v, ref, reg, path);
  }

  /** The registry is looked up under the one supported form of reference; anything else throws. */
  lemma ReferencesResolveExactly(v: Json, ref: Text, reg: Registry, path: Path)
    requires Guarded(reg) && ref != []
    ensures var found := Errors(v, Referring(ref), reg, path);
            if exists name :: ref == REF_PREFIX + name then
              var name := ref[|REF_PREFIX|..];
              if name in reg.schemas && reg.schemas[name].Keywords?
              then found == BodyErrors(v, reg.schemas[name], reg, path)
              else found == Failure(UnknownSchema(name))
            else found == Failure(UnsupportedRef(ref))
  {
    if name :| ref == REF_PREFIX + name {
      assert ref[|REF_PREFIX|..] == name;
    } else if REF_PREFIX <= ref {
      assert ref == REF_PREFIX + ref[|REF_PREFIX|..];
    }
  }

  lemma FreeMembers(entries: seq<(Text, Json)>, body: Schema, reg: Registry, path: Path)
    requires Guarded(reg) && body.Keywords?
    requires body.required == [] && body.properties == map[] && body.additional.Unrestricted?
    ensures ContentErrors(Obj(entries), body, reg, path) == Success([])
  {
    RequiredMeans(entries, body.required, path, 0);
    var checks := MemberChecks(entries, body, reg, path);
    forall i | 0 <= i < |entries| ensures checks[i] == Success([]) {
      assert MemberSchema(body, entries[i].0) == Unrestricted;
      assert checks[i] == MemberErrors(entries[i], body, reg, path);
    }
    var run := Sequence(checks);
    CleanNone(run.value);
    var own := RequiredErrors(entries, body.required, path, 0);
    assert own + Flat(run.value) == [];
    assert ContentErrors(Obj(entries), body, reg, path) == Success(own + Flat(run.value));
  }
}
