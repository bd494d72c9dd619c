/**
 Schemas and the registry of named schemas, with the guard that makes validation terminate:
 a schema may only reach itself again through a strictly smaller value.
 */
module Schemas {
  import opened Wrappers
  import opened Text
  import opened Json

  datatype TypeName =
    | NullType | ArrayType | ObjectType | IntegerType | NumberType | StringType | BooleanType
    | OtherType(name: Text)

  datatype Alternatives = Absent | Listed(schemas: seq<Schema>)

  // What `additionalProperties` says: nothing (absent or true), false, or a schema.
  datatype Additional = Unrestricted | Forbidden | Governed(schema: Schema)

  // Missing stands for every falsy schema.  The boolean schema `true` carries no keyword, so it
  // is the schema whose keywords are all absent.  An empty text or a Missing schema is an absent
  // keyword, as it is falsy too.
  datatype Schema =
    | Missing
    | Keywords(
        ref: Text,
        anyOf: Alternatives,
        oneOf: Alternatives,
        allOf: Alternatives,
        constant: Option<Json>,
        choices: Option<seq<Json>>,
        types: Option<seq<TypeName>>,
        pattern: Text,
        minLength: Option<real>,
        maxLength: Option<real>,
        format: Text,
        minimum: Option<real>,
        maximum: Option<real>,
        exclusiveMinimum: Option<real>,
        exclusiveMaximum: Option<real>,
        minItems: Option<real>,
        maxItems: Option<real>,
        uniqueItems: bool,
        items: Schema,
        properties: map<Text, Schema>,
        required: seq<Text>,
        additional: Additional)

  // Named schemas, with the two text tests left uninterpreted: regular expressions and formats.
  datatype Registry = Registry(
    schemas: map<Text, Schema>,
    matches: (Text, Text) -> bool,
    formatOk: (Text, Text) -> bool)

  datatype Exception = UnsupportedRef(ref: Text) | UnknownSchema(name: Text)

  const REF_PREFIX: Text := Ascii("#/components/schemas/")

  /** The schema name a reference points at, when it has the one supported form. */
  function RefName(ref: Text): Option<Text> {
    if REF_PREFIX <= ref then Some(ref[|REF_PREFIX|..]) else None
  }

  /** Follow a reference exactly one level: a reference inside the target is ignored. */
  function Dereference(s: Schema, reg: Registry): Result<Schema, Exception> {
    if s.Missing? || s.ref == [] then Success(s)
    else match RefName(s.ref)
      case None => Failure(UnsupportedRef(s.ref))
      case Some(name) =>
        if name !in reg.schemas || reg.schemas[name].Missing? then Failure(UnknownSchema(name))
        else Success(reg.schemas[name])
  }

  // ----- The guard -----

  /** How far below the registry a schema sits: one above the rank of the name it refers to. */
  function Level(s: Schema, rank: map<Text, nat>): (n: nat)
    decreases s, 1
  {
    if s.Missing? then 0
    else if s.ref != [] then
      match RefName(s.ref)
      case None => 0
      case Some(name) => if name in rank then rank[name] + 1 else 0
    else BodyLevel(s, rank)
  }

  function BodyLevel(body: Schema, rank: map<Text, nat>): (n: nat)
    decreases body, 0
  {
    if body.Missing? then 0
    else if body.anyOf.Listed? then TopLevel(body.anyOf.schemas, rank)
    else if body.oneOf.Listed? then TopLevel(body.oneOf.schemas, rank)
    else if body.allOf.Listed? then TopLevel(body.allOf.schemas, rank)
    else 0
  }

  function TopLevel(schemas: seq<Schema>, rank: map<Text, nat>): (n: nat)
    ensures forall i :: 0 <= i < |schemas| ==> Level(schemas[i], rank) <= n
    decreases schemas
  {
    if schemas == [] then 0
    else
      var head := Level(schemas[0], rank);
      var rest := TopLevel(schemas[1..], rank);
      assert forall i :: 1 <= i < |schemas| ==> schemas[i] == schemas[1..][i - 1];
      if head > rest then head else rest
  }

  /** Every registered body only applies schemas that sit strictly below its own name. */
  ghost predicate Ranks(reg: Registry, rank: map<Text, nat>) {
    forall name :: name in reg.schemas ==> name in rank && BodyLevel(reg.schemas[name], rank) <= rank[name]
  }

  ghost predicate Guarded(reg: Registry) {
    exists rank :: Ranks(reg, rank)
  }

  ghost function RankOf(reg: Registry): (rank: map<Text, nat>)
    requires Guarded(reg)
    ensures Ranks(reg, rank)
  {
    var rank :| Ranks(reg, rank); rank
  }

  /** Following a reference descends in the guard's order; staying put keeps the level. */
  lemma DereferenceDescends(s: Schema, reg: Registry)
    requires Guarded(reg)
    ensures Dereference(s, reg).Success? ==>
              var body := Dereference(s, reg).value;
              if s.Missing? || s.ref == [] then body == s && BodyLevel(body, RankOf(reg)) == Level(s, RankOf(reg))
              else body.Keywords? && BodyLevel(body, RankOf(reg)) < Level(s, RankOf(reg))
  {
  }
}
