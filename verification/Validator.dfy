/**
 The schema checker: the errors it reports for a value, as a specification by recursion, and
 the checker itself, which pushes errors while it loops over alternatives, items and members.
 */
module Validator {
  import opened Wrappers
  import opened Text
  import opened Numbers
  import opened Json
  import opened Schemas

  // One step of an error path, `.name` or `[index]`; the root `$` is the empty path.
  datatype Segment = Key(name: Text) | Index(index: nat)

  type Path = seq<Segment>

  datatype Rule =
    | MissingSchema | NoAlternative | NotExactlyOne
    | ConstMismatch | EnumMismatch | TypeMismatch
    | PatternMismatch | TooShort | TooLong | BadFormat
    | BelowMinimum | AboveMaximum | NotAboveExclusiveMinimum | NotBelowExclusiveMaximum
    | TooFewItems | TooManyItems | RepeatedItems
    | RequiredMissing | Undocumented

  datatype Error = Error(path: Path, rule: Rule)

  type Found = Result<seq<Error>, Exception>

  // ----- Tests on the value alone -----

  predicate HasType(v: Json, t: TypeName) {
    match t
    case NullType => v.Null?
    case ArrayType => v.Arr?
    case ObjectType => v.Obj?
    case IntegerType => v.Num? && v.num.exponent >= 0
    case NumberType => v.Num?
    case StringType => v.Str?
    case BooleanType => v.Bool?
    case OtherType(_) => false
  }

  /** `===` between a checked value and a schema's own value: two objects are never the same one. */
  predicate StrictlyEquals(v: Json, w: Json) {
    !v.Arr? && !v.Obj? && v == w
  }

  /** The checks that end validation on the spot: constant, enumeration and type. */
  function Gate(v: Json, body: Schema): Option<Rule>
    requires body.Keywords?
  {
    if body.constant.Some? && !StrictlyEquals(v, body.constant.value) then Some(ConstMismatch)
    else if body.choices.Some?
            && !(exists i :: 0 <= i < |body.choices.value| && StrictlyEquals(v, body.choices.value[i]))
    then Some(EnumMismatch)
    else if body.types.Some? && !(exists i :: 0 <= i < |body.types.value| && HasType(v, body.types.value[i]))
    then Some(TypeMismatch)
    else None
  }

  predicate HasKey(entries: seq<(Text, Json)>, key: Text) {
    exists i :: 0 <= i < |entries| && entries[i].0 == key
  }

  /** The uniqueness test of the source: as many different serialisations as items. */
  predicate AllPrintedApart(items: seq<Json>) {
    |Elements(Printed(items))| == |items|
  }

  function Printed(items: seq<Json>): (texts: seq<Text>)
    ensures |texts| == |items|
    ensures forall i :: 0 <= i < |items| ==> texts[i] == Stringify(items[i])
  {
    seq(|items|, i requires 0 <= i < |items| => Stringify(items[i]))
  }

  function Elements<T(==)>(list: seq<T>): set<T> {
    set x | x in list
  }

  /** The schema that governs a member, if any: its own, or the one for undocumented members. */
  function MemberSchema(body: Schema, key: Text): Additional
    requires body.Keywords?
  {
    if key in body.properties && body.properties[key].Keywords? then Governed(body.properties[key])
    else if body.additional.Governed? && body.additional.schema.Missing? then Unrestricted
    else body.additional
  }

  function When(broken: bool, path: Path, rule: Rule): seq<Error> {
    if broken then [Error(path, rule)] else []
  }

  // A test a value may fail, with the rule it breaks then.
  datatype Test = Test(fails: bool, rule: Rule)

  /** The errors of the tests that fail, in order. */
  function Report(tests: seq<Test>, path: Path): seq<Error> {
    if tests == [] then [] else When(tests[0].fails, path, tests[0].rule) + Report(tests[1..], path)
  }

  function StringTests(s: Text, body: Schema, reg: Registry): seq<Test>
    requires body.Keywords?
  {
    [ Test(body.pattern != [] && !reg.matches(body.pattern, s), PatternMismatch),
      Test(body.minLength.Some? && |s| as real < body.minLength.value, TooShort),
      Test(body.maxLength.Some? && |s| as real > body.maxLength.value, TooLong),
      Test(body.format != [] && !reg.formatOk(body.format, s), BadFormat) ]
  }

  function NumberTests(n: Number, body: Schema): seq<Test>
    requires body.Keywords?
  {
    [ Test(body.minimum.Some? && ValueOf(n) < body.minimum.value, BelowMinimum),
      Test(body.maximum.Some? && ValueOf(n) > body.maximum.value, AboveMaximum),
      Test(body.exclusiveMinimum.Some? && ValueOf(n) <= body.exclusiveMinimum.value, NotAboveExclusiveMinimum),
      Test(body.exclusiveMaximum.Some? && ValueOf(n) >= body.exclusiveMaximum.value, NotBelowExclusiveMaximum) ]
  }

  function ListTests(items: seq<Json>, body: Schema): seq<Test>
    requires body.Keywords?
  {
    [ Test(body.minItems.Some? && |items| as real < body.minItems.value, TooFewItems),
      Test(body.maxItems.Some? && |items| as real > body.maxItems.value, TooManyItems),
      Test(body.uniqueItems && !AllPrintedApart(items), RepeatedItems) ]
  }

  /** The first n required names that are missing. */
  function RequiredErrors(entries: seq<(Text, Json)>, required: seq<Text>, path: Path, n: nat): seq<Error>
    requires n <= |required|
  {
    if n == 0 then []
    else RequiredErrors(entries, required, path, n - 1)
         + When(!HasKey(entries, required[n - 1]), path + [Key(required[n - 1])], RequiredMissing)
  }

  // ----- Running a list of checks, any of which may throw -----

  /** The error lists of a run of checks; the first exception ends it. */
  function Sequence(checks: seq<Found>): (r: Result<seq<seq<Error>>, Exception>)
    ensures r.Success? <==> forall i :: 0 <= i < |checks| ==> checks[i].Success?
    ensures r.Success? ==> |r.value| == |checks|
                           && forall i :: 0 <= i < |checks| ==> checks[i] == Success(r.value[i])
  {
    if checks == [] then Success([])
    else
      var before :- Sequence(checks[..|checks| - 1]);
      var last :- checks[|checks| - 1];
      Success(before + [last])
  }

  lemma {:induction false} FirstExceptionWins(checks: seq<Found>, i: nat)
    requires i < |checks| && checks[i].Failure?
    requires forall k :: 0 <= k < i ==> checks[k].Success?
    ensures Sequence(checks) == Failure(checks[i].error)
  {
    if i < |checks| - 1 { FirstExceptionWins(checks[..|checks| - 1], i); }
  }

  /** How many lists are empty. */
  function Clean(tries: seq<seq<Error>>): nat {
    if tries == [] then 0
    else Clean(tries[..|tries| - 1]) + if tries[|tries| - 1] == [] then 1 else 0
  }

  function Flat(tries: seq<seq<Error>>): seq<Error> {
    if tries == [] then [] else Flat(tries[..|tries| - 1]) + tries[|tries| - 1]
  }

  // ----- The errors of a value under a schema -----

  function Errors(v: Json, s: Schema, reg: Registry, path: Path): Found
    requires Guarded(reg)
    decreases v, 1, Level(s, RankOf(reg)), s, 1
  {
    DereferenceDescends(s, reg);
    var body :- Dereference(s, reg);
    if body.Missing? then Success([Error(path, MissingSchema)])
    else BodyErrors(v, body, reg, path)
  }

  function BodyErrors(v: Json, body: Schema, reg: Registry, path: Path): Found
    requires Guarded(reg) && body.Keywords?
    decreases v, 1, BodyLevel(body, RankOf(reg)), body, 0
  {
    if body.anyOf.Listed? then
      var tries :- Sequence(Tries(v, body.anyOf.schemas, reg, path));
      Success(When(Clean(tries) == 0, path, NoAlternative))
    else if body.oneOf.Listed? then
      var tries :- Sequence(Tries(v, body.oneOf.schemas, reg, path));
      Success(When(Clean(tries) != 1, path, NotExactlyOne))
    else if body.allOf.Listed? then
      var tries :- Sequence(Tries(v, body.allOf.schemas, reg, path));
      Success(Flat(tries))
    else match Gate(v, body)
      case Some(rule) => Success([Error(path, rule)])
      case None => ContentErrors(v, body, reg, path)
  }

  /** Every alternative tried at the same value. */
  function Tries(v: Json, schemas: seq<Schema>, reg: Registry, path: Path): (checks: seq<Found>)
    requires Guarded(reg)
    ensures |checks| == |schemas|
    decreases v, 1, TopLevel(schemas, RankOf(reg)), schemas
  {
    seq(|schemas|, i requires 0 <= i < |schemas| => Errors(v, schemas[i], reg, path))
  }

  /** What is checked once the gate is passed. */
  function ContentErrors(v: Json, body: Schema, reg: Registry, path: Path): Found
    requires Guarded(reg) && body.Keywords?
    decreases v, 0
  {
    match v
    case Null => Success([])
    case Bool(_) => Success([])
    case Str(s) => Success(Report(StringTests(s, body, reg), path))
    case Num(n) => Success(Report(NumberTests(n, body), path))
    case Arr(items) =>
      if body.items.Missing? then Success(Report(ListTests(items, body), path))
      else
        var inner :- Sequence(ItemChecks(items, body.items, reg, path));
        Success(Report(ListTests(items, body), path) + Flat(inner))
    case Obj(entries) =>
      var inner :- Sequence(MemberChecks(entries, body, reg, path));
      Success(RequiredErrors(entries, body.required, path, |body.required|) + Flat(inner))
  }

  function ItemChecks(items: seq<Json>, s: Schema, reg: Registry, path: Path): (checks: seq<Found>)
    requires Guarded(reg)
    ensures |checks| == |items|
    decreases items
  {
    seq(|items|, i requires 0 <= i < |items| => Errors(items[i], s, reg, path + [Index(i)]))
  }

  function MemberChecks(entries: seq<(Text, Json)>, body: Schema, reg: Registry, path: Path): (checks: seq<Found>)
    requires Guarded(reg) && body.Keywords?
    ensures |checks| == |entries|
    decreases entries
  {
    seq(|entries|, i requires 0 <= i < |entries| => MemberErrors(entries[i], body, reg, path))
  }

  function MemberErrors(entry: (Text, Json), body: Schema, reg: Registry, path: Path): Found
    requires Guarded(reg) && body.Keywords?
    decreases entry
  {
    var at := path + [Key(entry.0)];
    match MemberSchema(body, entry.0)
    case Unrestricted => Success([])
    case Forbidden => Success([Error(at, Undocumented)])
    case Governed(s) => Errors(entry.1, s, reg, at)
  }

  // ----- The checker -----

  method SchemaErrors(v: Json, s: Schema, reg: Registry, path: Path) returns (found: Found)
    requires Guarded(reg)
    ensures found == Errors(v, s, reg, path)
    decreases v, 1, Level(s, RankOf(reg)), s, 2
  {
    DereferenceDescends(s, reg);
    var body :- Dereference(s, reg);
    if body.Missing? {
      return Success([Error(path, MissingSchema)]);
    }
    found := CheckBody(v, body, reg, path);
  }

  method CheckBody(v: Json, body: Schema, reg: Registry, path: Path) returns (found: Found)
    requires Guarded(reg) && body.Keywords?
    ensures found == BodyErrors(v, body, reg, path)
    decreases v, 1, BodyLevel(body, RankOf(reg)), body, 0
  {
    if body.anyOf.Listed? {
      var tries :- TryAll(v, body.anyOf.schemas, reg, path);
      var matches := CountClean(tries);
      return Success(if matches > 0 then [] else [Error(path, NoAlternative)]);
    }
    if body.oneOf.Listed? {
      var tries :- TryAll(v, body.oneOf.schemas, reg, path);
      var matches := CountClean(tries);
      return Success(if matches == 1 then [] else [Error(path, NotExactlyOne)]);
    }
    if body.allOf.Listed? {
      var tries :- TryAll(v, body.allOf.schemas, reg, path);
      return Success(Flat(tries));
    }
    var gate := Gate(v, body);
    if gate.Some? {
      return Success([Error(path, gate.value)]);
    }
    found := CheckContent(v, body, reg, path);
  }

  method CheckContent(v: Json, body: Schema, reg: Registry, path: Path) returns (found: Found)
    requires Guarded(reg) && body.Keywords?
    ensures found == ContentErrors(v, body, reg, path)
    decreases v, 0
  {
    if v.Null? {
      return Success([]);
    }
    var errors: seq<Error> := [];
    if v.Str? {
      errors := errors + Report(StringTests(v.str, body, reg), path);
      assert errors == Report(StringTests(v.str, body, reg), path);
    }
    if v.Num? {
      errors := errors + Report(NumberTests(v.num, body), path);
      assert errors == Report(NumberTests(v.num, body), path);
    }
    if v.Arr? {
      errors := errors + Report(ListTests(v.items, body), path);
      assert errors == Report(ListTests(v.items, body), path);
      if !body.items.Missing? {
        errors :- CheckItems(v.items, body.items, reg, path, errors);
      }
    }
    if v.Obj? {
      errors := CheckRequired(v.entries, body.required, path);
      errors :- CheckMembers(v.entries, body, reg, path, errors);
    }
    return Success(errors);
  }

  method TryAll(v: Json, schemas: seq<Schema>, reg: Registry, path: Path)
    returns (r: Result<seq<seq<Error>>, Exception>)
    requires Guarded(reg)
    ensures r == Sequence(Tries(v, schemas, reg, path))
    decreases v, 1, TopLevel(schemas, RankOf(reg)), schemas
  {
    ghost var checks := Tries(v, schemas, reg, path);
    var tries := [];
    for i := 0 to |schemas|
      invariant Sequence(checks[..i]) == Success(tries)
    {
      var found := SchemaErrors(v, schemas[i], reg, path);
      assert checks[..i + 1][..i] == checks[..i];
      assert forall k :: 0 <= k < i ==> checks[..i][k].Success?;
      if found.Failure? {
        FirstExceptionWins(checks, i);
        return Failure(found.error);
      }
      tries := tries + [found.value];
    }
    assert checks[..|schemas|] == checks;
    return Success(tries);
  }

  method CountClean(tries: seq<seq<Error>>) returns (n: nat)
    ensures n == Clean(tries)
  {
    n := 0;
    for i := 0 to |tries|
      invariant n == Clean(tries[..i])
    {
      assert tries[..i + 1][..i] == tries[..i];
      if tries[i] == [] {
        n := n + 1;
      }
    }
    assert tries[..|tries|] == tries;
  }

  method CheckItems(items: seq<Json>, s: Schema, reg: Registry, path: Path, own: seq<Error>)
    returns (r: Found)
    requires Guarded(reg)
    ensures var inner := Sequence(ItemChecks(items, s, reg, path));
            if inner.Success? then r == Success(own + Flat(inner.value)) else r == Failure(inner.error)
    decreases items
  {
    ghost var checks := ItemChecks(items, s, reg, path);
    var errors := own;
    for index := 0 to |items|
      invariant Sequence(checks[..index]).Success?
      invariant errors == own + Flat(Sequence(checks[..index]).value)
    {
      var inner := SchemaErrors(items[index], s, reg, path + [Index(index)]);
      Advance(checks, index, inner);
      if inner.Failure? {
        return inner;
      }
      ghost var before := Flat(Sequence(checks[..index]).value);
      Regroup(own, before, inner.value, []);
      errors := errors + inner.value;
    }
    assert checks[..|items|] == checks;
    return Success(errors);
  }

  method CheckRequired(entries: seq<(Text, Json)>, required: seq<Text>, path: Path) returns (errors: seq<Error>)
    ensures errors == RequiredErrors(entries, required, path, |required|)
  {
    errors := [];
    for i := 0 to |required|
      invariant errors == RequiredErrors(entries, required, path, i)
    {
      if !HasKey(entries, required[i]) {
        errors := errors + [Error(path + [Key(required[i])], RequiredMissing)];
      }
    }
  }

  method CheckMembers(entries: seq<(Text, Json)>, body: Schema, reg: Registry, path: Path, own: seq<Error>)
    returns (r: Found)
    requires Guarded(reg) && body.Keywords?
    ensures var inner := Sequence(MemberChecks(entries, body, reg, path));
            if inner.Success? then r == Success(own + Flat(inner.value)) else r == Failure(inner.error)
    decreases entries
  {
    ghost var checks := MemberChecks(entries, body, reg, path);
    var errors := own;
    for index := 0 to |entries|
      invariant Sequence(checks[..index]).Success?
      invariant errors == own + Flat(Sequence(checks[..index]).value)
    {
      var inner := CheckMember(entries[index], body, reg, path);
      Advance(checks, index, inner);
      if inner.Failure? {
        return inner;
      }
      ghost var before := Flat(Sequence(checks[..index]).value);
      Regroup(own, before, inner.value, []);
      errors := errors + inner.value;
    }
    assert checks[..|entries|] == checks;
    return Success(errors);
  }

  method CheckMember(entry: (Text, Json), body: Schema, reg: Registry, path: Path) returns (found: Found)
    requires Guarded(reg) && body.Keywords?
    ensures found == MemberErrors(entry, body, reg, path)
    decreases entry
  {
    var (key, child) := entry;
    if key in body.properties && body.properties[key].Keywords? {
      found := SchemaErrors(child, body.properties[key], reg, path + [Key(key)]);
    } else if body.additional.Forbidden? {
      found := Success([Error(path + [Key(key)], Undocumented)]);
    } else if body.additional.Governed? && body.additional.schema.Keywords? {
      found := SchemaErrors(child, body.additional.schema, reg, path + [Key(key)]);
    } else {
      found := Success([]);
    }
  }

  /** One more check of a run: it extends the errors so far, or its exception is the run's. */
  lemma Advance(checks: seq<Found>, i: nat, last: Found)
    requires i < |checks| && checks[i] == last
    requires Sequence(checks[..i]).Success?
    ensures last.Success? ==>
              && Sequence(checks[..i + 1]).Success?
              && Flat(Sequence(checks[..i + 1]).value) == Flat(Sequence(checks[..i]).value) + last.value
    ensures last.Failure? ==> Sequence(checks) == Failure(last.error)
  {
    assert checks[..i + 1][..i] == checks[..i];
    assert forall k :: 0 <= k < i ==> checks[..i][k].Success?;
    if last.Success? {
      var lists := Sequence(checks[..i]).value;
      assert Sequence(checks[..i + 1]).value == lists + [last.value];
      assert (lists + [last.value])[..i] == lists;
    } else {
      FirstExceptionWins(checks, i);
    }
  }
}
