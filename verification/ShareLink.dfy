/**
 The shareable link: a sanitised blueprint printed as JSON, percent-encoded into a fragment, and
 read back through the same sanitiser.
 */
module ShareLink {
  import opened Wrappers
  import opened Text
  import opened Numbers
  import opened Json
  import opened UriCoding
  import opened Blueprint
  import JsonParse
  import Decimal

  const MAX_HASH_LENGTH: nat := 5000

  const PREFIX: Text := Ascii("#blueprint=")

  function Encode(input: Json): (hash: Text) {
    match Sanitize(input)
    case None => []
    case Some(safe) =>
      StringifyIsWellFormed(ToJson(safe));
      UriRoundTrip(Stringify(ToJson(safe)));
      PREFIX + EncodeUri(Stringify(ToJson(safe))).value
  }

  function Decode(hash: Text): Option<Blueprint> {
    if hash == [] || |hash| > MAX_HASH_LENGTH || !(PREFIX <= hash) then None
    else match DecodeUri(hash[|PREFIX|..])
      case Failure(_) => None
      case Success(text) =>
        match JsonParse.Parse(text)
        case Failure(_) => None
        case Success(parsed) =>
          // reading a property of null throws
          if parsed.Null? || Property(parsed, V) != Some(Num(ONE)) then None
          else Sanitize(parsed)
  }

  // ----- JSON text is well-formed, so encoding it never throws -----

  lemma Hex4IsPlain(u: Unit)
    ensures forall i :: 0 <= i < |Hex4(u)| ==> !IsSurrogate(Hex4(u)[i])
  {
  }

  lemma PieceIsWellFormed(s: Text)
    requires s != []
    ensures WellFormed(Piece(s))
  {
    var p := Piece(s);
    if StartsWithPair(s) {
      assert p == s[..2] && p[2..] == [];
    } else {
      Hex4IsPlain(s[0]);
      PlainIsWellFormed(p);
    }
  }

  lemma {:induction false} EscapeIsWellFormed(s: Text)
    ensures WellFormed(Escape(s))
  {
    if s != [] {
      PieceIsWellFormed(s);
      EscapeIsWellFormed(s[Step(s)..]);
      WellFormedConcat(Piece(s), Escape(s[Step(s)..]));
    }
  }

  lemma OneIsWellFormed(u: Unit)
    requires !IsSurrogate(u)
    ensures WellFormed([u])
  {
    PlainIsWellFormed([u]);
  }

  lemma QuoteIsWellFormed(s: Text)
    ensures WellFormed(Quote(s))
  {
    EscapeIsWellFormed(s);
    OneIsWellFormed(QUOTE);
    WellFormedConcat([QUOTE], Escape(s));
    WellFormedConcat([QUOTE] + Escape(s), [QUOTE]);
  }

  lemma {:induction false} StringifyIsWellFormed(v: Json)
    ensures WellFormed(Stringify(v))
    decreases v
  {
    match v {
      case Null => PlainIsWellFormed(Stringify(v));
      case Bool(_) => PlainIsWellFormed(Stringify(v));
      case Num(n) =>
        NumberTextUnits(n);
        PlainIsWellFormed(Stringify(v));
      case Str(s) => QuoteIsWellFormed(s);
      case Arr(items) =>
        OneIsWellFormed(OPEN_BRACKET);
        if items == [] {
          OneIsWellFormed(CLOSE_BRACKET);
          WellFormedConcat([OPEN_BRACKET], [CLOSE_BRACKET]);
        } else {
          StringifyIsWellFormed(items[0]);
          MoreItemsAreWellFormed(items[1..]);
          WellFormedConcat(Stringify(items[0]), MoreItems(items[1..]));
          WellFormedConcat([OPEN_BRACKET], Stringify(items[0]) + MoreItems(items[1..]));
        }
      case Obj(entries) =>
        OneIsWellFormed(OPEN_BRACE);
        if entries == [] {
          OneIsWellFormed(CLOSE_BRACE);
          WellFormedConcat([OPEN_BRACE], [CLOSE_BRACE]);
        } else {
          MemberIsWellFormed(entries[0]);
          MoreMembersAreWellFormed(entries[1..]);
          WellFormedConcat(Member(entries[0]), MoreMembers(entries[1..]));
          WellFormedConcat([OPEN_BRACE], Member(entries[0]) + MoreMembers(entries[1..]));
        }
    }
  }

  lemma {:induction false} MoreItemsAreWellFormed(items: seq<Json>)
    ensures WellFormed(MoreItems(items))
    decreases items
  {
    if items == [] {
      OneIsWellFormed(CLOSE_BRACKET);
    } else {
      OneIsWellFormed(COMMA);
      StringifyIsWellFormed(items[0]);
      MoreItemsAreWellFormed(items[1..]);
      WellFormedConcat([COMMA], Stringify(items[0]));
      WellFormedConcat([COMMA] + Stringify(items[0]), MoreItems(items[1..]));
    }
  }

  lemma {:induction false} MemberIsWellFormed(entry: (Text, Json))
    ensures WellFormed(Member(entry))
    decreases entry
  {
    OneIsWellFormed(COLON);
    QuoteIsWellFormed(entry.0);
    StringifyIsWellFormed(entry.1);
    WellFormedConcat(Quote(entry.0), [COLON]);
    WellFormedConcat(Quote(entry.0) + [COLON], Stringify(entry.1));
  }

  lemma {:induction false} MoreMembersAreWellFormed(entries: seq<(Text, Json)>)
    ensures WellFormed(MoreMembers(entries))
    decreases entries
  {
    if entries == [] {
      OneIsWellFormed(CLOSE_BRACE);
    } else {
      OneIsWellFormed(COMMA);
      MemberIsWellFormed(entries[0]);
      MoreMembersAreWellFormed(entries[1..]);
      WellFormedConcat([COMMA], Member(entries[0]));
      WellFormedConcat([COMMA] + Member(entries[0]), MoreMembers(entries[1..]));
    }
  }

  // ----- The round trip -----

  /** The blueprint a link stands for: the input, sanitised twice. */
  function Shared(input: Json): Option<Blueprint> {
    match Sanitize(input)
    case None => None
    case Some(safe) => Sanitize(ToJson(safe))
  }

  lemma LettersAreNoIndex(key: Text)
    requires key != [] && key[0] >= 58
    ensures JsonParse.ArrayIndex(key).None?
  {
    assert !Decimal.IsDigit(key[0]);
  }

  lemma TextsAreWellKeyed(list: seq<Text>)
    ensures JsonParse.WellKeyed(Texts(list))
  {
  }

  lemma SharedMembers(b: Blueprint)
    ensures var e := ToJson(b).entries;
            forall i :: 0 <= i < |e| ==> e[i].0 != [] && e[i].0[0] >= 58 && JsonParse.WellKeyedMember(e[i])
  {
    TextsAreWellKeyed(b.markets);
    TextsAreWellKeyed(b.currencies);
    TextsAreWellKeyed(b.capabilities);
    TextsAreWellKeyed(b.rails);
  }

  lemma SharedIsWellKeyed(b: Blueprint)
    ensures JsonParse.WellKeyed(ToJson(b))
  {
    var e := ToJson(b).entries;
    SharedKeysDiffer(b);
    SharedMembers(b);
    forall i | 0 <= i < |e| ensures JsonParse.ArrayIndex(e[i].0).None? {
      LettersAreNoIndex(e[i].0);
    }
    assert JsonParse.InOrder(e);
  }

  /**
   Decoding an encoded link gives the blueprint sanitised twice, and nothing at all exactly when
   that is nothing or the link is too long.
   */
  lemma RoundTrip(input: Json)
    ensures Decode(Encode(input)) == if |Encode(input)| > 5000 then None else Shared(input)
  {
    match Sanitize(input) {
      case None =>
      case Some(safe) =>
        var text := Stringify(ToJson(safe));
        StringifyIsWellFormed(ToJson(safe));
        UriRoundTrip(text);
        assert Encode(input)[|PREFIX|..] == EncodeUri(text).value;
        SharedIsWellKeyed(safe);
        JsonParse.ParseReadsBackExactly(ToJson(safe));
        SharedProperties(safe);
    }
  }

  lemma LinkOpens(v: Json) returns (hash: Text)
    requires JsonParse.WellKeyed(v)
    ensures EncodeUri(Stringify(v)).Success? && hash == PREFIX + EncodeUri(Stringify(v)).value
    ensures PREFIX <= hash && DecodeUri(hash[|PREFIX|..]) == Success(Stringify(v))
    ensures JsonParse.Parse(Stringify(v)) == Success(v)
  {
    StringifyIsWellFormed(v);
    UriRoundTrip(Stringify(v));
    JsonParse.ParseReadsBackExactly(v);
    hash := PREFIX + EncodeUri(Stringify(v)).value;
    assert hash[|PREFIX|..] == EncodeUri(Stringify(v)).value;
  }

  /**
   Any value put in a link, whoever made it, decodes to its sanitised self if its version is the number
   1 and the link is short enough, and to nothing otherwise; so does a hash with another prefix.
   */
  lemma DecodesAnyValue(v: Json, hash: Text)
    requires JsonParse.WellKeyed(v) && EncodeUri(Stringify(v)).Success?
    ensures var link := PREFIX + EncodeUri(Stringify(v)).value;
            Decode(link) ==
            if |link| <= MAX_HASH_LENGTH && Property(v, V) == Some(Num(ONE)) then Sanitize(v) else None
    ensures hash != [] && Decode(hash).Some? ==> |hash| <= MAX_HASH_LENGTH && exists rest :: hash == PREFIX + rest
  {
    var link := LinkOpens(v);
    if Decode(hash).Some? { assert hash == PREFIX + hash[|PREFIX|..]; }
  }

  /** An accent is a number sign and six hex digits; upper case keeps each digit's value and has no small letter. */
  lemma AccentsAreColours(t: Text)
    ensures IsAccent(t) <==> |t| == 7 && t[0] == '#' as int && forall i :: 1 <= i < 7 ==> HexValue(t[i]).Some?
    ensures IsAccent(t) ==>
              && Upper(t)[0] == t[0] && IsAccent(Upper(t))
              && forall i :: 1 <= i < 7 ==>
                   HexValue(Upper(t)[i]) == HexValue(t[i]) && !('a' as int <= Upper(t)[i] <= 'z' as int)
  {
    if IsAccent(t) {
      var u := Upper(t);
      assert u[0] == t[0];
    }
  }

  /** The colour of the brand, or else the input's own, arrives in upper case at whoever opens the link. */
  lemma BrandArrives(input: Json)
    requires Shared(input).Some? && |Encode(input)| <= MAX_HASH_LENGTH
    ensures Decode(Encode(input)).Some?
    ensures Decode(Encode(input)).value.accent ==
            if IsColour(Branding(input)) then Some(Upper(CleanText(Branding(input).value.str, ACCENT_LENGTH)))
            else if IsColour(Property(input, ACCENT))
            then Some(Upper(CleanText(Property(input, ACCENT).value.str, ACCENT_LENGTH)))
            else None
  {
    RoundTrip(input);
    BrandComesFirst(input);
    SecondPassKeepsAccent(input, Sanitize(input).value);
  }

  /** What a link stands for is clean, so it is shared and decoded again unchanged. */
  lemma DecodedBlueprintsAreStable(input: Json)
    ensures Shared(input).Some? ==>
              var b := Shared(input).value;
              && CleanBlueprint(b)
              && (|Encode(ToJson(b))| <= MAX_HASH_LENGTH ==> Decode(Encode(ToJson(b))) == Some(b))
  {
    if Shared(input).Some? {
      var b := Shared(input).value;
      TwoPassesSanitize(input, Sanitize(input).value);
      SharingKeepsExactlyCleanBlueprints(b);
      RoundTrip(ToJson(b));
    }
  }
}
