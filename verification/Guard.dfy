/**
 The guard holds exactly when no chain of references at one value comes back to its start, the
 condition section 9.4.1 of JSON Schema Core 2020-12 asks implementations to detect.
 */
module Guard {
  import opened Text
  import opened Schemas

  /** The names a schema can hand the same value to before any reference is followed. */
  ghost function Refs(s: Schema): set<Text>
    decreases s, 1
  {
    if s.Missing? then {}
    else if s.ref != [] then (if RefName(s.ref).Some? then {RefName(s.ref).value} else {})
    else BodyRefs(s)
  }

  ghost function BodyRefs(body: Schema): set<Text>
    decreases body, 0
  {
    if body.Missing? then {}
    else if body.anyOf.Listed? then AllRefs(body.anyOf.schemas)
    else if body.oneOf.Listed? then AllRefs(body.oneOf.schemas)
    else if body.allOf.Listed? then AllRefs(body.allOf.schemas)
    else {}
  }

  ghost function AllRefs(schemas: seq<Schema>): set<Text>
    decreases schemas
  {
    if schemas == [] then {} else Refs(schemas[0]) + AllRefs(schemas[1..])
  }

  ghost predicate Edge(reg: Registry, a: Text, b: Text) {
    a in reg.schemas && b in reg.schemas && b in BodyRefs(reg.schemas[a])
  }

  ghost predicate Walk(reg: Registry, p: seq<Text>) {
    |p| >= 1 && forall i :: 0 <= i < |p| - 1 ==> EdgeAt(reg, p, i)
  }

  ghost predicate EdgeAt(reg: Registry, p: seq<Text>, i: nat)
    requires i < |p| - 1
  {
    Edge(reg, p[i], p[i + 1])
  }

  ghost predicate Cycle(reg: Registry, p: seq<Text>) {
    Walk(reg, p) && |p| >= 2 && p[0] == p[|p| - 1]
  }

  /** The level of a schema is at most n exactly when every ranked name it refers to is below n. */
  lemma {:induction false} LevelBoundsRefs(s: Schema, rank: map<Text, nat>, n: nat)
    ensures Level(s, rank) <= n <==> forall b :: b in Refs(s) && b in rank ==> rank[b] < n
    decreases s, 1
  {
    if s.Keywords? && s.ref == [] {
      BodyLevelBoundsRefs(s, rank, n);
    }
  }

  lemma {:induction false} BodyLevelBoundsRefs(body: Schema, rank: map<Text, nat>, n: nat)
    ensures BodyLevel(body, rank) <= n <==> forall b :: b in BodyRefs(body) && b in rank ==> rank[b] < n
    decreases body, 0
  {
    if body.Keywords? {
      if body.anyOf.Listed? { TopLevelBoundsRefs(body.anyOf.schemas, rank, n); }
      else if body.oneOf.Listed? { TopLevelBoundsRefs(body.oneOf.schemas, rank, n); }
      else if body.allOf.Listed? { TopLevelBoundsRefs(body.allOf.schemas, rank, n); }
    }
  }

  lemma {:induction false} TopLevelBoundsRefs(schemas: seq<Schema>, rank: map<Text, nat>, n: nat)
    ensures TopLevel(schemas, rank) <= n <==> forall b :: b in AllRefs(schemas) && b in rank ==> rank[b] < n
    decreases schemas
  {
    if schemas != [] {
      LevelBoundsRefs(schemas[0], rank, n);
      TopLevelBoundsRefs(schemas[1..], rank, n);
    }
  }

  // ----- A guarded registry has no cycle -----

  lemma {:induction false} WalksDescend(reg: Registry, rank: map<Text, nat>, p: seq<Text>, k: nat)
    requires Ranks(reg, rank) && Walk(reg, p) && 1 <= k < |p|
    ensures p[0] in rank && p[k] in rank && rank[p[k]] < rank[p[0]]
  {
    assert EdgeAt(reg, p, k - 1);
    BodyLevelBoundsRefs(reg.schemas[p[k - 1]], rank, rank[p[k - 1]]);
    if k > 1 {
      WalksDescend(reg, rank, p, k - 1);
    }
  }

  // ----- A registry without cycles is guarded -----

  lemma {:induction false} DistinctFitIn(p: seq<Text>, names: set<Text>)
    requires forall i :: 0 <= i < |p| ==> p[i] in names
    requires forall i, j :: 0 <= i < j < |p| ==> p[i] != p[j]
    ensures |p| <= |names|
  {
    if p != [] {
      DistinctFitIn(p[1..], names - {p[0]});
    }
  }

  ghost predicate HasEdgeInto(reg: Registry, a: Text, names: set<Text>) {
    exists b :: b in names && Edge(reg, a, b)
  }

  /** If every name of a set has an edge inside the set, extending a walk closes a cycle. */
  lemma {:induction false} WalkCloses(reg: Registry, names: set<Text>, p: seq<Text>) returns (c: seq<Text>)
    requires Walk(reg, p) && forall i :: 0 <= i < |p| ==> p[i] in names
    requires forall i, j :: 0 <= i < j < |p| ==> p[i] != p[j]
    requires forall a {:trigger HasEdgeInto(reg, a, names)} :: a in names ==> HasEdgeInto(reg, a, names)
    ensures Cycle(reg, c)
    decreases |names| - |p|
  {
    DistinctFitIn(p, names);
    assert HasEdgeInto(reg, p[|p| - 1], names);
    var b :| b in names && Edge(reg, p[|p| - 1], b);
    var q := p + [b];
    forall i | 0 <= i < |q| - 1 ensures EdgeAt(reg, q, i) {
      assert i < |p| - 1 ==> EdgeAt(reg, p, i);
    }
    if b in p {
      var i :| 0 <= i < |p| && p[i] == b;
      c := q[i..];
      forall k | 0 <= k < |c| - 1 ensures EdgeAt(reg, c, k) {
        assert EdgeAt(reg, q, i + k);
      }
    } else {
      DistinctFitIn(q, names);
      c := WalkCloses(reg, names, q);
    }
  }

  lemma FindSink(reg: Registry, names: set<Text>) returns (sink: Text)
    requires names != {}
    requires forall c :: !Cycle(reg, c)
    ensures sink in names && forall b :: b in names ==> !Edge(reg, sink, b)
  {
    var a :| a in names;
    if forall a {:trigger HasEdgeInto(reg, a, names)} :: a in names ==> HasEdgeInto(reg, a, names) {
      var c := WalkCloses(reg, names, [a]);
      assert false;
    }
    sink :| sink in names && !HasEdgeInto(reg, sink, names);
  }

  /** The names of a set can be ranked, edges inside the set going down. */
  lemma {:induction false} RankNames(reg: Registry, names: set<Text>) returns (rank: map<Text, nat>)
    requires names <= reg.schemas.Keys
    requires forall c :: !Cycle(reg, c)
    ensures rank.Keys == names
    ensures forall a, b :: a in names && b in names && Edge(reg, a, b) ==> rank[b] < rank[a]
    decreases names
  {
    if names == {} {
      rank := map[];
    } else {
      var sink := FindSink(reg, names);
      var rest := RankNames(reg, names - {sink});
      rank := map a | a in names :: if a == sink then 0 else rest[a] + 1;
    }
  }

  /** Validation is guarded if and only if no reference chain returns to its start. */
  lemma GuardedExactlyWhenAcyclic(reg: Registry)
    ensures Guarded(reg) <==> forall c :: !Cycle(reg, c)
  {
    if Guarded(reg) {
      forall c ensures !Cycle(reg, c) {
        if Cycle(reg, c) {
          WalksDescend(reg, RankOf(reg), c, |c| - 1);
        }
      }
    }
    if forall c :: !Cycle(reg, c) {
      var rank := RankNames(reg, reg.schemas.Keys);
      forall a | a in reg.schemas ensures BodyLevel(reg.schemas[a], rank) <= rank[a] {
        forall b | b in BodyRefs(reg.schemas[a]) && b in rank ensures rank[b] < rank[a] {
          assert Edge(reg, a, b);
        }
        BodyLevelBoundsRefs(reg.schemas[a], rank, rank[a]);
      }
      assert Ranks(reg, rank);
    }
  }
}
