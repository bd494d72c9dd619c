/**
 How long links get: exactly as long as the characters of the blueprint make them.  A blueprint whose
 name and items are plain characters always fits the limit; one written in a script that takes three
 bytes a character may not, and its link then decodes to nothing.
 */
module LinkLength {
  import opened Wrappers
  import opened Text
  import opened Numbers
  import opened Json
  import opened UriCoding
  import opened Blueprint
  import opened ShareLink
  import Decimal

  // ----- The length of an encoded text -----

  /** What the first code point takes: itself, or three units for each byte of its UTF-8 form. */
  function PointCost(t: Text): nat
    requires t != []
  {
    if Unreserved(t[0]) then 1
    else if StartsWithPair(t) then 12
    else if t[0] < 0x80 then 3
    else if t[0] < 0x800 then 6
    else 9
  }

  function Cost(t: Text): nat {
    if t == [] then 0 else PointCost(t) + Cost(t[Step(t)..])
  }

  lemma {:induction false} EncodedLength(t: Text)
    requires WellFormed(t)
    ensures EncodeUri(t).Success? && |EncodeUri(t).value| == Cost(t)
  {
    if t != [] { EncodedLength(t[Step(t)..]); }
  }

  lemma {:induction false} CostConcat(a: Text, b: Text)
    requires WellFormed(a)
    ensures Cost(a + b) == Cost(a) + Cost(b)
  {
    if a == [] {
      assert a + b == b;
    } else {
      var n := Step(a);
      assert Step(a + b) == n && (a + b)[n..] == a[n..] + b;
      CostConcat(a[n..], b);
    }
  }

  // ----- The length of a printed blueprint -----

  /** A quoted text: its own characters, escaped, and two quotation marks. */
  function TextCost(s: Text): nat { 6 + Cost(Escape(s)) }

  lemma QuoteCost(s: Text)
    ensures Cost(Quote(s)) == TextCost(s)
  {
    EscapeIsWellFormed(s);
    OneIsWellFormed(QUOTE);
    assert Cost([QUOTE]) == 3;
    CostConcat([QUOTE], Escape(s));
    WellFormedConcat([QUOTE], Escape(s));
    CostConcat([QUOTE] + Escape(s), [QUOTE]);
  }

  /** The items of a list, each with the mark that follows it. */
  function ItemsCost(list: seq<Text>): nat {
    if list == [] then 0 else TextCost(list[0]) + 3 + ItemsCost(list[1..])
  }

  function ListCost(list: seq<Text>): nat {
    if list == [] then 6 else 3 + ItemsCost(list)
  }

  lemma {:induction false} MoreItemsCost(items: seq<Json>, list: seq<Text>)
    requires |items| == |list| && forall i :: 0 <= i < |list| ==> items[i] == Str(list[i])
    ensures Cost(MoreItems(items)) == 3 + ItemsCost(list)
  {
    if items == [] {
      assert Cost([CLOSE_BRACKET]) == 3;
    } else {
      var head, rest := Stringify(items[0]), MoreItems(items[1..]);
      MoreItemsCost(items[1..], list[1..]);
      QuoteCost(list[0]);
      QuoteIsWellFormed(list[0]);
      OneIsWellFormed(COMMA);
      WellFormedConcat([COMMA], head);
      CostConcat([COMMA], head);
      CostConcat([COMMA] + head, rest);
      assert Cost([COMMA]) == 3;
    }
  }

  lemma TextsCost(list: seq<Text>)
    ensures Cost(Stringify(Texts(list))) == ListCost(list)
  {
    var items := Texts(list).items;
    OneIsWellFormed(OPEN_BRACKET);
    assert Cost([OPEN_BRACKET]) == 3;
    if items == [] {
      CostConcat([OPEN_BRACKET], [CLOSE_BRACKET]);
      assert Cost([CLOSE_BRACKET]) == 3;
    } else {
      var head, rest := Stringify(items[0]), MoreItems(items[1..]);
      MoreItemsCost(items[1..], list[1..]);
      QuoteCost(list[0]);
      QuoteIsWellFormed(list[0]);
      CostConcat(head, rest);
      CostConcat([OPEN_BRACKET], head + rest);
    }
  }

  predicate Plain(t: Text) {
    forall i :: 0 <= i < |t| ==> Unreserved(t[i])
  }

  /** Printed as they are, one code point each. */
  predicate NeedsNoEscape(u: Unit) {
    u >= 32 && u != QUOTE && u != BACKSLASH && !IsSurrogate(u)
  }

  lemma HeadCost(t: Text)
    requires t != [] && NeedsNoEscape(t[0])
    ensures Escape(t) == [t[0]] + Escape(t[1..]) && Cost(t) == PointCost([t[0]]) + Cost(t[1..])
  {
    assert Step(t) == 1 && Piece(t) == [t[0]];
  }

  lemma {:induction false} PlainCost(t: Text)
    requires Plain(t)
    ensures Escape(t) == t && Cost(t) == |t|
  {
    if t != [] {
      HeadCost(t);
      PlainCost(t[1..]);
    }
  }

  lemma MemberCost(key: Text, v: Json)
    requires Plain(key)
    ensures Cost(Member((key, v))) == |key| + 9 + Cost(Stringify(v))
  {
    PlainCost(key);
    QuoteCost(key);
    QuoteIsWellFormed(key);
    OneIsWellFormed(COLON);
    assert Cost([COLON]) == 3;
    CostConcat(Quote(key), [COLON]);
    WellFormedConcat(Quote(key), [COLON]);
    CostConcat(Quote(key) + [COLON], Stringify(v));
  }

  /** The members of an object, each with the mark that follows it. */
  function MembersCost(entries: seq<(Text, Json)>): nat {
    if entries == [] then 0 else Cost(Member(entries[0])) + 3 + MembersCost(entries[1..])
  }

  lemma {:induction false} MoreMembersCost(entries: seq<(Text, Json)>)
    ensures Cost(MoreMembers(entries)) == 3 + MembersCost(entries)
  {
    if entries == [] {
      assert Cost([CLOSE_BRACE]) == 3;
    } else {
      var head, rest := Member(entries[0]), MoreMembers(entries[1..]);
      MoreMembersCost(entries[1..]);
      MemberIsWellFormed(entries[0]);
      OneIsWellFormed(COMMA);
      WellFormedConcat([COMMA], head);
      CostConcat([COMMA], head);
      CostConcat([COMMA] + head, rest);
      assert Cost([COMMA]) == 3;
    }
  }

  lemma ObjectCost(entries: seq<(Text, Json)>)
    requires entries != []
    ensures Cost(Stringify(Obj(entries))) == 3 + MembersCost(entries)
  {
    var head, rest := Member(entries[0]), MoreMembers(entries[1..]);
    OneIsWellFormed(OPEN_BRACE);
    assert Cost([OPEN_BRACE]) == 3;
    MoreMembersCost(entries[1..]);
    MemberIsWellFormed(entries[0]);
    CostConcat(head, rest);
    CostConcat([OPEN_BRACE], head + rest);
  }

  lemma {:induction false} MembersCostConcat(a: seq<(Text, Json)>, b: seq<(Text, Json)>)
    ensures MembersCost(a + b) == MembersCost(a) + MembersCost(b)
  {
    if a == [] {
      assert a + b == b;
    } else {
      assert (a + b)[1..] == a[1..] + b;
      MembersCostConcat(a[1..], b);
    }
  }

  lemma PairCost(a: (Text, Json), b: (Text, Json))
    ensures MembersCost([a, b]) == Cost(Member(a)) + Cost(Member(b)) + 6
  {
    assert [a, b][1..] == [b];
    OneCost(b);
  }

  lemma OneCost(a: (Text, Json))
    ensures MembersCost([a]) == Cost(Member(a)) + 3
  {
  }

  /** The length of a blueprint's link after its prefix, in its own characters. */
  function BlueprintCost(b: Blueprint): nat {
    115 + TextCost(b.name) + ListCost(b.markets) + ListCost(b.currencies) + ListCost(b.capabilities) + ListCost(b.rails)
    + match b.accent case Some(a) => 18 + TextCost(a) case None => 0
  }

  lemma ListMembersCost(b: Blueprint)
    ensures Cost(Member((MARKETS, Texts(b.markets)))) == 16 + ListCost(b.markets)
    ensures Cost(Member((CURRENCIES, Texts(b.currencies)))) == 19 + ListCost(b.currencies)
    ensures Cost(Member((CAPABILITIES, Texts(b.capabilities)))) == 21 + ListCost(b.capabilities)
    ensures Cost(Member((RAILS, Texts(b.rails)))) == 14 + ListCost(b.rails)
  {
    KeysArePlain();
    MemberCost(MARKETS, Texts(b.markets));
    TextsCost(b.markets);
    MemberCost(CURRENCIES, Texts(b.currencies));
    TextsCost(b.currencies);
    MemberCost(CAPABILITIES, Texts(b.capabilities));
    TextsCost(b.capabilities);
    MemberCost(RAILS, Texts(b.rails));
    TextsCost(b.rails);
  }

  lemma KeysArePlain()
    ensures Plain(V) && Plain(NAME) && Plain(MARKETS) && Plain(CURRENCIES)
    ensures Plain(CAPABILITIES) && Plain(RAILS) && Plain(ACCENT)
  {
  }

  lemma VersionCost()
    ensures Cost(Member((V, Num(ONE)))) == 11
  {
    assert NumberText(ONE) == [49] by { assert [49] + Decimal.Zeros(0) == [49] && [] + [49] == [49]; }
    KeysArePlain();
    MemberCost(V, Num(ONE));
    PlainCost([49]);
  }

  lemma TextMemberCost(key: Text, s: Text)
    requires Plain(key)
    ensures Cost(Member((key, Str(s)))) == |key| + 9 + TextCost(s)
  {
    MemberCost(key, Str(s));
    QuoteCost(s);
  }

  lemma SixCosts(a: (Text, Json), b: (Text, Json), c: (Text, Json), d: (Text, Json), e: (Text, Json),
                 f: (Text, Json), last: seq<(Text, Json)>)
    ensures MembersCost([a, b, c, d, e, f] + last) == 18 + MembersCost(last)
            + Cost(Member(a)) + Cost(Member(b)) + Cost(Member(c)) + Cost(Member(d)) + Cost(Member(e)) + Cost(Member(f))
  {
    PairCost(a, b);
    PairCost(c, d);
    PairCost(e, f);
    MembersCostConcat([a, b], [c, d]);
    MembersCostConcat([a, b] + [c, d], [e, f]);
    MembersCostConcat([a, b] + [c, d] + [e, f], last);
    assert [a, b, c, d, e, f] == [a, b] + [c, d] + [e, f];
  }

  lemma AccentMemberCost(accent: Option<Text>)
    ensures MembersCost(match accent case Some(a) => [(ACCENT, Str(a))] case None => [])
            == match accent case Some(a) => 18 + TextCost(a) case None => 0
  {
    KeysArePlain();
    if accent.Some? {
      TextMemberCost(ACCENT, accent.value);
      OneCost((ACCENT, Str(accent.value)));
    }
  }

  lemma PrintedCost(b: Blueprint)
    ensures Cost(Stringify(ToJson(b))) == BlueprintCost(b)
  {
    var last := match b.accent case Some(a) => [(ACCENT, Str(a))] case None => [];
    KeysArePlain();
    VersionCost();
    TextMemberCost(NAME, b.name);
    ListMembersCost(b);
    AccentMemberCost(b.accent);
    SixCosts((V, Num(ONE)), (NAME, Str(b.name)), (MARKETS, Texts(b.markets)), (CURRENCIES, Texts(b.currencies)),
             (CAPABILITIES, Texts(b.capabilities)), (RAILS, Texts(b.rails)), last);
    ObjectCost(ToJson(b).entries);
  }

  /** A link is exactly as long as its blueprint's characters make it. */
  lemma LinkLengthExactly(input: Json)
    ensures |Encode(input)| == match Sanitize(input) case None => 0 case Some(safe) => |PREFIX| + BlueprintCost(safe)
  {
    if Sanitize(input).Some? {
      var safe := Sanitize(input).value;
      StringifyIsWellFormed(ToJson(safe));
      EncodedLength(Stringify(ToJson(safe)));
      PrintedCost(safe);
    }
  }

  // ----- Which links decode -----

  /** The blueprint's own characters leave room for the prefix. */
  predicate FitsLink(b: Blueprint) { BlueprintCost(b) <= MAX_HASH_LENGTH - |PREFIX| }

  /** Whether a link decodes, and to what, told from the blueprint it was made of. */
  lemma DecodesExactlyWhenShort(input: Json)
    ensures Decode(Encode(input)) == match Sanitize(input)
                                     case None => None
                                     case Some(safe) => if FitsLink(safe) then Shared(input) else None
  {
    LinkLengthExactly(input);
    RoundTrip(input);
  }

  predicate PlainTexts(list: seq<Text>) {
    forall i :: 0 <= i < |list| ==> Plain(list[i])
  }

  /** The name and the items are made of characters the encoding leaves alone. */
  predicate PlainCharacters(b: Blueprint) {
    && Plain(b.name) && PlainTexts(b.markets) && PlainTexts(b.currencies)
    && PlainTexts(b.capabilities) && PlainTexts(b.rails)
  }

  const ITEM_COST: nat := MAX_ITEM_LENGTH + 9

  lemma PlainTextCost(t: Text)
    requires Plain(t) && |t| <= MAX_ITEM_LENGTH
    ensures TextCost(t) + 3 <= ITEM_COST
  {
    PlainCost(t);
  }

  lemma {:induction false} PlainItemsCost(list: seq<Text>)
    requires PlainTexts(list) && forall i :: 0 <= i < |list| ==> |list[i]| <= MAX_ITEM_LENGTH
    ensures ItemsCost(list) <= ITEM_COST * |list|
  {
    if list != [] {
      PlainTextCost(list[0]);
      PlainItemsCost(list[1..]);
    }
  }

  lemma PlainListCost(list: seq<Text>)
    requires PlainTexts(list) && BoundedList(list)
    ensures ListCost(list) <= 3 + ITEM_COST * MAX_ITEMS
  {
    PlainItemsCost(list);
  }

  lemma AccentCost(a: Text)
    requires IsAccent(a)
    ensures TextCost(a) == 15
  {
    assert Plain(a[1..]);
    HeadCost(a);
    PlainCost(a[1..]);
    assert a == [HASH] + a[1..];
  }

  lemma PlainBlueprintsFit(b: Blueprint)
    requires PlainCharacters(b) && Bounded(b)
    ensures FitsLink(b)
  {
    PlainCost(b.name);
    PlainListCost(b.markets);
    PlainListCost(b.currencies);
    PlainListCost(b.capabilities);
    PlainListCost(b.rails);
    if b.accent.Some? { AccentCost(b.accent.value); }
  }

  /** A blueprint of plain characters always fits its link, so the link decodes to what it shares. */
  lemma PlainLinksAlwaysDecode(input: Json)
    ensures Sanitize(input).Some? && PlainCharacters(Sanitize(input).value) ==> Decode(Encode(input)) == Shared(input)
  {
    if Sanitize(input).Some? && PlainCharacters(Sanitize(input).value) {
      SanitizedIsBounded(input);
      PlainBlueprintsFit(Sanitize(input).value);
      DecodesExactlyWhenShort(input);
    }
  }

  // ----- A link that does not decode -----

  const IDEOGRAPH: Unit := 0x4E00

  predicate Wide(t: Text) {
    forall i :: 0 <= i < |t| ==> IDEOGRAPH <= t[i] < 0xA000
  }

  lemma {:induction false} WideCost(t: Text)
    requires Wide(t)
    ensures Escape(t) == t && Cost(t) == 9 * |t|
  {
    if t != [] {
      HeadCost(t);
      WideCost(t[1..]);
    }
  }

  /** A full-length item in a three-byte script. */
  function WideItem(k: nat): (t: Text)
    requires k < MAX_ITEMS
    ensures |t| == MAX_ITEM_LENGTH && Wide(t) && t[0] == IDEOGRAPH + k
  {
    seq(MAX_ITEM_LENGTH, i => if i == 0 then IDEOGRAPH + k else IDEOGRAPH)
  }

  function WideItems(): (list: seq<Text>)
    ensures |list| == MAX_ITEMS && forall k :: 0 <= k < MAX_ITEMS ==> list[k] == WideItem(k)
  {
    seq(MAX_ITEMS, k requires 0 <= k < MAX_ITEMS => WideItem(k))
  }

  lemma {:induction false} WideItemsCost(list: seq<Text>)
    requires forall i :: 0 <= i < |list| ==> Wide(list[i]) && |list[i]| == MAX_ITEM_LENGTH
    ensures ItemsCost(list) == (9 + 9 * MAX_ITEM_LENGTH) * |list|
  {
    if list != [] {
      WideCost(list[0]);
      WideItemsCost(list[1..]);
    }
  }

  /** A clean blueprint, shared as it is, whose link is too long to decode. */
  lemma SomeLinksDecodeToNothing() returns (b: Blueprint)
    ensures CleanBlueprint(b) && Shared(ToJson(b)) == Some(b) && Decode(Encode(ToJson(b))) == None
  {
    b := Blueprint([65], [], [], WideItems(), [], None);
    assert CleanBlueprint(b) by {
      CleanExactly(b.name, MAX_NAME_LENGTH);
      forall t | t in b.capabilities ensures t != [] && Clean(t, MAX_ITEM_LENGTH) {
        CleanExactly(t, MAX_ITEM_LENGTH);
      }
    }
    SharingKeepsExactlyCleanBlueprints(b);
    WideItemsCost(b.capabilities);
    DecodesExactlyWhenShort(ToJson(b));
  }
}
