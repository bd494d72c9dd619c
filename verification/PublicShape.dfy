/**
 Stripping storage-only metadata before data crosses the API boundary, and its relation to the
 schemas that already forbid it.
 */
module PublicShape {
  import opened Wrappers
  import opened Text
  import opened Json
  import opened Schemas
  import opened Validator
  import opened Meaning
  import opened ErrorSites

  const OWNER: Text := Ascii("owner")

  function Publish(v: Json): Json
    decreases v
  {
    match v
    case Arr(items) => Arr(PublishItems(items))
    case Obj(entries) => Obj(PublishMembers(entries))
    case _ => v
  }

  function PublishItems(items: seq<Json>): (r: seq<Json>)
    ensures |r| == |items|
    decreases items
  {
    seq(|items|, i requires 0 <= i < |items| => Publish(items[i]))
  }

  function PublishMembers(entries: seq<(Text, Json)>): seq<(Text, Json)>
    decreases entries
  {
    if entries == [] then []
    else if entries[0].0 == OWNER then PublishMembers(entries[1..])
    else [PublishMember(entries[0])] + PublishMembers(entries[1..])
  }

  function PublishMember(entry: (Text, Json)): (Text, Json)
    decreases entry
  {
    (entry.0, Publish(entry.1))
  }

  /** No object at any depth has the internal key. */
  predicate Ownerless(v: Json)
    decreases v
  {
    match v
    case Arr(items) => forall i :: 0 <= i < |items| ==> Ownerless(items[i])
    case Obj(entries) => forall i :: 0 <= i < |entries| ==> OwnerlessMember(entries[i])
    case _ => true
  }

  predicate OwnerlessMember(entry: (Text, Json))
    decreases entry
  {
    entry.0 != OWNER && Ownerless(entry.1)
  }

  lemma {:induction false} PublishedIsOwnerless(v: Json)
    ensures Ownerless(Publish(v))
    decreases v
  {
    match v {
      case Arr(items) =>
        forall i | 0 <= i < |items| ensures Ownerless(PublishItems(items)[i]) { PublishedIsOwnerless(items[i]); }
      case Obj(entries) => PublishedMembersAreOwnerless(entries);
      case _ =>
    }
  }

  lemma {:induction false} PublishedMembersAreOwnerless(entries: seq<(Text, Json)>)
    ensures forall i :: 0 <= i < |PublishMembers(entries)| ==> OwnerlessMember(PublishMembers(entries)[i])
    decreases entries
  {
    if entries != [] {
      PublishedMembersAreOwnerless(entries[1..]);
      if entries[0].0 != OWNER { PublishedMemberIsOwnerless(entries[0]); }
    }
  }

  lemma {:induction false} PublishedMemberIsOwnerless(entry: (Text, Json))
    requires entry.0 != OWNER
    ensures OwnerlessMember(PublishMember(entry))
    decreases entry
  {
    PublishedIsOwnerless(entry.1);
  }

  lemma {:induction false} OwnerlessIsKept(v: Json)
    requires Ownerless(v)
    ensures Publish(v) == v
    decreases v
  {
    match v {
      case Arr(items) =>
        forall i | 0 <= i < |items| ensures PublishItems(items)[i] == items[i] { OwnerlessIsKept(items[i]); }
        assert PublishItems(items) == items;
      case Obj(entries) => OwnerlessMembersAreKept(entries);
      case _ =>
    }
  }

  lemma {:induction false} OwnerlessMembersAreKept(entries: seq<(Text, Json)>)
    requires forall i :: 0 <= i < |entries| ==> OwnerlessMember(entries[i])
    ensures PublishMembers(entries) == entries
    decreases entries
  {
    if entries != [] {
      assert OwnerlessMember(entries[0]);
      OwnerlessMemberIsKept(entries[0]);
      OwnerlessMembersAreKept(entries[1..]);
    }
  }

  lemma {:induction false} OwnerlessMemberIsKept(entry: (Text, Json))
    requires OwnerlessMember(entry)
    ensures PublishMember(entry) == entry
    decreases entry
  {
    OwnerlessIsKept(entry.1);
  }

  /** Publishing changes a value exactly when the internal key occurs in it, and once is enough. */
  lemma PublishRemovesTheOwnerOnce(v: Json)
    ensures Publish(v) == v <==> Ownerless(v)
    ensures Publish(Publish(v)) == Publish(v)
  {
    PublishedIsOwnerless(v);
    OwnerlessIsKept(Publish(v));
    if Ownerless(v) { OwnerlessIsKept(v); }
  }

  // ----- Nothing else is lost -----

  predicate ThroughOwner(path: Path) {
    Key(OWNER) in path
  }

  lemma {:induction false} PublishKeepsEntry(entries: seq<(Text, Json)>, key: Text)
    ensures FirstEntry(PublishMembers(entries), key) ==
            if key == OWNER then None
            else match FirstEntry(entries, key) case None => None case Some(child) => Some(Publish(child))
  {
    if entries != [] { PublishKeepsEntry(entries[1..], key); }
  }

  /** A path leads to the published subvalue, unless it goes through the internal key. */
  lemma {:induction false} PublishKeepsEverythingElse(v: Json, path: Path)
    ensures At(Publish(v), path) ==
            if ThroughOwner(path) then None
            else match At(v, path) case None => None case Some(w) => Some(Publish(w))
    decreases path
  {
    if path != [] {
      assert ThroughOwner(path) <==> path[0] == Key(OWNER) || ThroughOwner(path[1..]);
      match (path[0], v) {
        case (Index(i), Arr(items)) =>
          if i < |items| { PublishKeepsEverythingElse(items[i], path[1..]); }
        case (Key(key), Obj(entries)) =>
          PublishKeepsEntry(entries, key);
          if FirstEntry(entries, key).Some? {
            PublishKeepsEverythingElse(FirstEntry(entries, key).value, path[1..]);
          }
        case _ =>
      }
    }
  }

  // ----- Schemas that leave no room for the internal key -----

  predicate Excludes(body: Schema, t: TypeName)
    requires body.Keywords?
  {
    || (body.types.Some? && t !in body.types.value)
    || body.constant.Some? || body.choices.Some?
  }

  /**
   Every object the schema can accept is closed and does not document the internal key, given that
   the named schemas do as much.
   */
  predicate Sealed(s: Schema, names: set<Text>)
    decreases s, 1
  {
    if s.Missing? then true
    else if s.ref != [] then RefName(s.ref).None? || RefName(s.ref).value in names
    else SealedBody(s, names)
  }

  predicate SealedBody(body: Schema, names: set<Text>)
    requires body.Keywords?
    decreases body, 0
  {
    if body.anyOf.Listed? then
      var schemas := body.anyOf.schemas; forall i :: 0 <= i < |schemas| ==> Sealed(schemas[i], names)
    else if body.oneOf.Listed? then
      var schemas := body.oneOf.schemas; forall i :: 0 <= i < |schemas| ==> Sealed(schemas[i], names)
    else if body.allOf.Listed? then
      var schemas := body.allOf.schemas; exists i :: 0 <= i < |schemas| && Sealed(schemas[i], names)
    else
      && (Excludes(body, ArrayType) || (body.items.Keywords? && Sealed(body.items, names)))
      && (Excludes(body, ObjectType) ||
          (body.additional.Forbidden? && OWNER !in body.properties
           && forall key :: key in body.properties ==> Sealed(body.properties[key], names)))
  }

  /** A set of names that only leads to itself: all that is reachable from it is sealed. */
  predicate SealedNames(names: set<Text>, reg: Registry) {
    forall name :: name in names && name in reg.schemas && reg.schemas[name].Keywords? ==>
      SealedBody(reg.schemas[name], names)
  }

  lemma {:induction false} SealedAdmitsNoOwner(v: Json, s: Schema, names: set<Text>, reg: Registry)
    requires Guarded(reg) && SealedNames(names, reg) && Sealed(s, names) && Accepts(v, s, reg)
    ensures Ownerless(v)
    decreases v, 1, Level(s, RankOf(reg)), s, 1
  {
    DereferenceDescends(s, reg);
    SealedBodyAdmitsNoOwner(v, Dereference(s, reg).value, names, reg);
  }

  lemma {:induction false} SealedBodyAdmitsNoOwner(v: Json, body: Schema, names: set<Text>, reg: Registry)
    requires Guarded(reg) && SealedNames(names, reg)
    requires body.Keywords? && SealedBody(body, names) && BodyAccepts(v, body, reg)
    ensures Ownerless(v)
    decreases v, 1, BodyLevel(body, RankOf(reg)), body, 0
  {
    if body.anyOf.Listed? {
      var schemas := body.anyOf.schemas;
      var i :| 0 <= i < |schemas| && AcceptedBy(v, schemas, reg)[i];
      SealedAdmitsNoOwner(v, schemas[i], names, reg);
    } else if body.oneOf.Listed? {
      var schemas := body.oneOf.schemas;
      var i: nat :| i < |schemas| && OnlyAt(AcceptedBy(v, schemas, reg), i);
      SealedAdmitsNoOwner(v, schemas[i], names, reg);
    } else if body.allOf.Listed? {
      var schemas := body.allOf.schemas;
      var i :| 0 <= i < |schemas| && Sealed(schemas[i], names);
      assert AcceptedBy(v, schemas, reg)[i];
      SealedAdmitsNoOwner(v, schemas[i], names, reg);
    } else {
      match v {
        case Arr(items) =>
          assert !Excludes(body, ArrayType) by { NotExcluded(v, body); }
          forall i | 0 <= i < |items| ensures Ownerless(items[i]) {
            assert ItemsAccepted(items, body.items, reg)[i];
            SealedAdmitsNoOwner(items[i], body.items, names, reg);
          }
        case Obj(entries) =>
          assert !Excludes(body, ObjectType) by { NotExcluded(v, body); }
          forall i | 0 <= i < |entries| ensures OwnerlessMember(entries[i]) {
            assert MembersAccepted(entries, body, reg)[i];
            SealedMemberHasNoOwner(entries[i], body, names, reg);
          }
        case _ =>
      }
    }
  }

  lemma NotExcluded(v: Json, body: Schema)
    requires body.Keywords? && PassesGate(v, body)
    ensures v.Arr? ==> !Excludes(body, ArrayType)
    ensures v.Obj? ==> !Excludes(body, ObjectType)
  {
  }

  lemma {:induction false} SealedMemberHasNoOwner(entry: (Text, Json), body: Schema, names: set<Text>, reg: Registry)
    requires Guarded(reg) && SealedNames(names, reg) && body.Keywords? && MemberAccepted(entry, body, reg)
    requires body.additional.Forbidden? && OWNER !in body.properties
    requires forall key :: key in body.properties ==> Sealed(body.properties[key], names)
    ensures OwnerlessMember(entry)
    decreases entry
  {
    SealedAdmitsNoOwner(entry.1, body.properties[entry.0], names, reg);
  }

  /**
   A value accepted by a schema that reaches sealed schemas only passes through publishing untouched,
   whatever else the registry holds.
   */
  lemma AcceptedValuesAreAlreadyPublic(v: Json, s: Schema, names: set<Text>, reg: Registry)
    requires Guarded(reg) && SealedNames(names, reg) && Sealed(s, names)
    requires Errors(v, s, reg, []) == Success([])
    ensures Publish(v) == v
  {
    ErrorsMean(v, s, reg, []);
    SealedAdmitsNoOwner(v, s, names, reg);
    OwnerlessIsKept(v);
  }
}
