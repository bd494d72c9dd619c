/**
 JSON values and their serialisation.  Objects keep the order of their members, as JavaScript
 does; Stringify has the shape of JSON.stringify, section 25.5.2 of ECMA-262.
 */
module Json {
  import opened Text
  import opened Numbers
  import opened Wrappers

  datatype Json =
    | Null
    | Bool(b: bool)
    | Num(num: Number)
    | Str(str: Text)
    | Arr(items: seq<Json>)
    | Obj(entries: seq<(Text, Json)>)

  const QUOTE: Unit := 34
  const BACKSLASH: Unit := 92
  const COMMA: Unit := 44
  const COLON: Unit := 58
  const OPEN_BRACKET: Unit := 91
  const CLOSE_BRACKET: Unit := 93
  const OPEN_BRACE: Unit := 123
  const CLOSE_BRACE: Unit := 125
  const LETTER_U: Unit := 117

  const DELIMITERS: set<Unit> := {COMMA, CLOSE_BRACKET, CLOSE_BRACE}

  function HexDigit(n: nat): (u: Unit)
    requires n < 16
  {
    if n < 10 then 48 + n else 87 + n
  }

  function Hex4(u: Unit): (t: Text)
    ensures |t| == 4
  {
    var a := u / 16;
    var b := a / 16;
    var c := b / 16;
    [HexDigit(c), HexDigit(b % 16), HexDigit(a % 16), HexDigit(u % 16)]
  }

  /** The printed form of the first code point of a string: escaped where JSON requires it. */
  function Piece(s: Text): (t: Text)
    requires s != []
    ensures t != []
  {
    var u := s[0];
    if StartsWithPair(s) then s[..2]
    else if u == QUOTE || u == BACKSLASH then [BACKSLASH, u]
    else if u == 8 then [BACKSLASH, 98]
    else if u == 9 then [BACKSLASH, 116]
    else if u == 10 then [BACKSLASH, 110]
    else if u == 12 then [BACKSLASH, 102]
    else if u == 13 then [BACKSLASH, 114]
    else if u < 32 || IsSurrogate(u) then [BACKSLASH, LETTER_U] + Hex4(u)
    else [u]
  }

  function Escape(s: Text): Text {
    if s == [] then [] else Piece(s) + Escape(s[Step(s)..])
  }

  function Quote(s: Text): (t: Text) {
    [QUOTE] + Escape(s) + [QUOTE]
  }

  function Stringify(v: Json): Text
    decreases v
  {
    match v
    case Null => Ascii("null")
    case Bool(b) => if b then Ascii("true") else Ascii("false")
    case Num(n) => NumberText(n)
    case Str(s) => Quote(s)
    case Arr(items) =>
      [OPEN_BRACKET] + if items == [] then [CLOSE_BRACKET] else Stringify(items[0]) + MoreItems(items[1..])
    case Obj(entries) =>
      [OPEN_BRACE] + if entries == [] then [CLOSE_BRACE] else Member(entries[0]) + MoreMembers(entries[1..])
  }

  function Member(entry: (Text, Json)): Text
    decreases entry
  {
    Quote(entry.0) + [COLON] + Stringify(entry.1)
  }

  function MoreItems(items: seq<Json>): Text
    decreases items
  {
    if items == [] then [CLOSE_BRACKET]
    else [COMMA] + Stringify(items[0]) + MoreItems(items[1..])
  }

  function MoreMembers(entries: seq<(Text, Json)>): Text
    decreases entries
  {
    if entries == [] then [CLOSE_BRACE]
    else [COMMA] + Member(entries[0]) + MoreMembers(entries[1..])
  }

  /** The value of an object's member, if it has one of that name. */
  function FirstEntry(entries: seq<(Text, Json)>, key: Text): Option<Json> {
    if entries == [] then None
    else if entries[0].0 == key then Some(entries[0].1)
    else FirstEntry(entries[1..], key)
  }

  lemma {:induction false} OnlyEntry(entries: seq<(Text, Json)>, i: nat)
    requires i < |entries| && forall i, j :: 0 <= i < j < |entries| ==> entries[i].0 != entries[j].0
    ensures FirstEntry(entries, entries[i].0) == Some(entries[i].1)
  {
    if i > 0 { OnlyEntry(entries[1..], i - 1); }
  }

  /** A short escape for the five named controls, the quotation mark and the backslash. */
  predicate ShortEscape(u: Unit) { u in {8, 9, 10, 12, 13, QUOTE, BACKSLASH} }

  predicate IsLowerHex(u: Unit) { 48 <= u < 58 || 97 <= u < 103 }

  /**
   A code point is printed as it is, except for the short escapes and, in four lower-case hex digits, the
   other controls and unpaired surrogates.
   */
  lemma EscapesExactly(s: Text)
    requires s != []
    ensures var p, u := Piece(s), s[0];
            if StartsWithPair(s) then p == s[..2]
            else if ShortEscape(u) then |p| == 2 && p[0] == BACKSLASH
            else if u < 32 || IsSurrogate(u) then
              |p| == 6 && p[..2] == [BACKSLASH, LETTER_U] && forall k :: 2 <= k < 6 ==> IsLowerHex(p[k])
            else p == [u]
  {
  }

  // ----- Stringify tells values apart -----

  lemma Hex4IsInjective(u: Unit, v: Unit)
    requires Hex4(u) == Hex4(v)
    ensures u == v
  {
    assert Hex4(u)[0] == Hex4(v)[0] && Hex4(u)[1] == Hex4(v)[1];
    assert Hex4(u)[2] == Hex4(v)[2] && Hex4(u)[3] == Hex4(v)[3];
    assert u / 16 / 16 == v / 16 / 16;
    assert u / 16 == v / 16;
  }

  /** A printed piece is never the closing quote, and it determines the code point it prints. */
  lemma PieceDeterminesHead(s: Text, t: Text, x: Text, y: Text)
    requires s != [] && t != []
    requires Piece(s) + x == Piece(t) + y
    ensures Step(s) == Step(t) && s[..Step(s)] == t[..Step(t)] && x == y
  {
    var p, q := Piece(s), Piece(t);
    assert p[0] == (p + x)[0] == q[0];
    assert |p| >= 2 && |q| >= 2 ==> p[1] == (p + x)[1] == q[1];
    assert |p| == |q|;
    assert p == (p + x)[..|p|] == q;
    assert x == (p + x)[|p|..] == y;
    if |p| == 6 {
      assert Hex4(s[0]) == p[2..] == Hex4(t[0]);
      Hex4IsInjective(s[0], t[0]);
    }
    assert Step(s) == Step(t);
  }

  lemma PieceIsNotQuote(s: Text)
    requires s != []
    ensures Piece(s)[0] != QUOTE
  {
  }

  lemma {:induction false} QuotedPrefix(s: Text, t: Text, x: Text, y: Text)
    requires Escape(s) + [QUOTE] + x == Escape(t) + [QUOTE] + y
    ensures s == t && x == y
  {
    if s == [] {
      assert (Escape(s) + [QUOTE] + x)[0] == QUOTE;
      if t != [] { PieceIsNotQuote(t); }
      assert t == [];
      assert x == (Escape(s) + [QUOTE] + x)[1..] == y;
    } else {
      PieceIsNotQuote(s);
      assert (Escape(s) + [QUOTE] + x)[0] != QUOTE;
      assert t != [];
      var s', t' := s[Step(s)..], t[Step(t)..];
      var x', y' := Escape(s') + [QUOTE] + x, Escape(t') + [QUOTE] + y;
      Regroup(Piece(s), Escape(s'), [QUOTE], x);
      Regroup(Piece(t), Escape(t'), [QUOTE], y);
      PieceDeterminesHead(s, t, x', y');
      QuotedPrefix(s', t', x, y);
      assert s == s[..Step(s)] + s' && t == t[..Step(t)] + t';
    }
  }

  lemma QuotePrefix(s: Text, t: Text, x: Text, y: Text)
    requires Quote(s) + x == Quote(t) + y
    ensures s == t && x == y
  {
    var a, b := Escape(s) + [QUOTE] + x, Escape(t) + [QUOTE] + y;
    Regroup([QUOTE], Escape(s), [QUOTE], x);
    Regroup([QUOTE], Escape(t), [QUOTE], y);
    assert ([QUOTE] + a)[1..] == a && ([QUOTE] + b)[1..] == b;
    QuotedPrefix(s, t, x, y);
  }

  lemma Shift(u: Unit, a: Text, b: Text, x: Text)
    ensures [u] + (a + b) + x == [u] + a + b + x
    ensures ([u] + a + b + x)[0] == u
    ensures ([u] + a + b + x)[1..] == a + (b + x)
  {
    assert [u] + a + b + x == [u] + (a + (b + x));
  }

  predicate Delimited(x: Text) {
    x == [] || x[0] in DELIMITERS
  }

  datatype Kind = NullKind | TrueKind | FalseKind | NumKind | StrKind | ArrKind | ObjKind

  function KindOf(v: Json): Kind {
    match v
    case Null => NullKind
    case Bool(b) => if b then TrueKind else FalseKind
    case Num(_) => NumKind
    case Str(_) => StrKind
    case Arr(_) => ArrKind
    case Obj(_) => ObjKind
  }

  /** The first unit of a printed value gives its kind away. */
  function KindByUnit(u: Unit): Kind {
    if u == 110 then NullKind
    else if u == 116 then TrueKind
    else if u == 102 then FalseKind
    else if u == QUOTE then StrKind
    else if u == OPEN_BRACKET then ArrKind
    else if u == OPEN_BRACE then ObjKind
    else NumKind
  }

  lemma FirstUnit(v: Json)
    ensures Stringify(v) != [] && KindByUnit(Stringify(v)[0]) == KindOf(v)
  {
    if v.Num? { NumberTextUnits(v.num); }
  }

  lemma LiteralPrefix(v: Json, w: Json, x: Text, y: Text)
    requires (v.Null? || v.Bool?) && KindOf(v) == KindOf(w)
    requires Stringify(v) + x == Stringify(w) + y
    ensures v == w && x == y
  {
    var word := Stringify(v);
    assert v == w;
    assert x == (word + x)[|word|..] == y;
  }

  lemma NumberPrefix(m: Number, n: Number, x: Text, y: Text)
    requires Delimited(x) && Delimited(y)
    requires NumberText(m) + x == NumberText(n) + y
    ensures m == n && x == y
  {
    NumberTextUnits(m);
    NumberTextUnits(n);
    CutAtStop(NumberText(m), NumberText(n), x, y, DELIMITERS);
    NumberTextIsInjective(m, n);
  }

  /** A printed value followed by a delimiter can be split off in only one way. */
  lemma {:induction false} StringifyPrefix(v: Json, w: Json, x: Text, y: Text)
    requires Delimited(x) && Delimited(y)
    requires Stringify(v) + x == Stringify(w) + y
    ensures v == w && x == y
    decreases v
  {
    var whole := Stringify(v) + x;
    FirstUnit(v);
    FirstUnit(w);
    assert whole[0] == Stringify(v)[0] == Stringify(w)[0];
    assert KindOf(v) == KindOf(w);
    match v {
      case Null => LiteralPrefix(v, w, x, y);
      case Bool(_) => LiteralPrefix(v, w, x, y);
      case Num(m) =>
        NumberPrefix(m, w.num, x, y);
      case Str(s) =>
        QuotePrefix(s, w.str, x, y);
      case Arr(items) =>
        ArrayPrefix(items, w.items, x, y);
      case Obj(entries) =>
        ObjectPrefix(entries, w.entries, x, y);
    }
  }

  lemma {:induction false} ArrayPrefix(items: seq<Json>, others: seq<Json>, x: Text, y: Text)
    requires Stringify(Arr(items)) + x == Stringify(Arr(others)) + y
    ensures items == others && x == y
    decreases items
  {
    var whole := Stringify(Arr(items)) + x;
    BracketOrItem(items, x);
    BracketOrItem(others, y);
    assert items == [] <==> others == [];
    if items == [] {
      assert x == whole[2..] == y;
    } else {
      StringifyPrefix(items[0], others[0], MoreItems(items[1..]) + x, MoreItems(others[1..]) + y);
      MoreItemsPrefix(items[1..], others[1..], x, y);
    }
  }

  lemma BracketOrItem(items: seq<Json>, x: Text)
    ensures var whole := Stringify(Arr(items)) + x;
            |whole| > 1 && (items == [] <==> whole[1] == CLOSE_BRACKET)
            && (items != [] ==> whole[1..] == Stringify(items[0]) + (MoreItems(items[1..]) + x))
  {
    if items != [] {
      Shift(OPEN_BRACKET, Stringify(items[0]), MoreItems(items[1..]), x);
      FirstUnit(items[0]);
      if items[0].Num? { NumberTextUnits(items[0].num); }
      assert Stringify(items[0])[0] != CLOSE_BRACKET;
    }
  }

  lemma {:induction false} MoreItemsPrefix(items: seq<Json>, others: seq<Json>, x: Text, y: Text)
    requires MoreItems(items) + x == MoreItems(others) + y
    ensures items == others && x == y
    decreases items
  {
    var whole := MoreItems(items) + x;
    if items != [] { Shift(COMMA, Stringify(items[0]), MoreItems(items[1..]), x); }
    if others != [] { Shift(COMMA, Stringify(others[0]), MoreItems(others[1..]), y); }
    assert items == [] <==> others == [];
    if items == [] {
      assert x == whole[1..] == y;
    } else {
      StringifyPrefix(items[0], others[0], MoreItems(items[1..]) + x, MoreItems(others[1..]) + y);
      MoreItemsPrefix(items[1..], others[1..], x, y);
    }
  }

  lemma MemberSplit(a: (Text, Json), x: Text)
    ensures Member(a) + x == Quote(a.0) + ([COLON] + (Stringify(a.1) + x))
  {
  }

  lemma {:induction false} MemberPrefix(a: (Text, Json), b: (Text, Json), x: Text, y: Text)
    requires Delimited(x) && Delimited(y)
    requires Member(a) + x == Member(b) + y
    ensures a == b && x == y
    decreases a
  {
    var x', y' := [COLON] + (Stringify(a.1) + x), [COLON] + (Stringify(b.1) + y);
    MemberSplit(a, x);
    MemberSplit(b, y);
    QuotePrefix(a.0, b.0, x', y');
    assert Stringify(a.1) + x == x'[1..];
    assert Stringify(b.1) + y == y'[1..];
    StringifyPrefix(a.1, b.1, x, y);
  }

  lemma {:induction false} ObjectPrefix(entries: seq<(Text, Json)>, others: seq<(Text, Json)>, x: Text, y: Text)
    requires Stringify(Obj(entries)) + x == Stringify(Obj(others)) + y
    ensures entries == others && x == y
    decreases entries
  {
    var whole := Stringify(Obj(entries)) + x;
    if entries != [] { Shift(OPEN_BRACE, Member(entries[0]), MoreMembers(entries[1..]), x); }
    if others != [] { Shift(OPEN_BRACE, Member(others[0]), MoreMembers(others[1..]), y); }
    assert whole[1..] != [];
    assert entries == [] <==> whole[1] == CLOSE_BRACE;
    assert others == [] <==> whole[1] == CLOSE_BRACE;
    if entries == [] {
      assert x == whole[2..] == y;
    } else {
      MemberPrefix(entries[0], others[0], MoreMembers(entries[1..]) + x, MoreMembers(others[1..]) + y);
      MoreMembersPrefix(entries[1..], others[1..], x, y);
    }
  }

  lemma {:induction false} MoreMembersPrefix(entries: seq<(Text, Json)>, others: seq<(Text, Json)>, x: Text, y: Text)
    requires MoreMembers(entries) + x == MoreMembers(others) + y
    ensures entries == others && x == y
    decreases entries
  {
    var whole := MoreMembers(entries) + x;
    if entries != [] { Shift(COMMA, Member(entries[0]), MoreMembers(entries[1..]), x); }
    if others != [] { Shift(COMMA, Member(others[0]), MoreMembers(others[1..]), y); }
    assert entries == [] <==> others == [];
    if entries == [] {
      assert x == whole[1..] == y;
    } else {
      MemberPrefix(entries[0], others[0], MoreMembers(entries[1..]) + x, MoreMembers(others[1..]) + y);
      MoreMembersPrefix(entries[1..], others[1..], x, y);
    }
  }

  /** Values that print alike are the same value, member order included. */
  lemma StringifyIsInjective(v: Json, w: Json)
    requires Stringify(v) == Stringify(w)
    ensures v == w
  {
    assert Stringify(v) + [] == Stringify(v) && Stringify(w) + [] == Stringify(w);
    StringifyPrefix(v, w, [], []);
  }
}
