/**
 Sanitising a shared blueprint.  A string is trimmed before it is cut and stripped, so one pass
 can leave something a second pass would still change - but two passes cannot.
 */
module Blueprint {
  import opened Wrappers
  import opened Text
  import opened Json
  import opened Numbers

  const MAX_NAME_LENGTH: nat := 80
  const MAX_ITEMS: nat := 16
  const MAX_ITEM_LENGTH: nat := 40
  const ACCENT_LENGTH: nat := 7

  // ----- Strings -----

  /** JavaScript white space and line terminators. */
  predicate IsSpace(u: Unit) {
    || 9 <= u <= 13 || u == 32 || u == 0xA0 || u == 0x1680 || 0x2000 <= u <= 0x200A
    || u in {0x2028, 0x2029, 0x202F, 0x205F, 0x3000, 0xFEFF}
  }

  function TrimStart(t: Text): Text {
    if t != [] && IsSpace(t[0]) then TrimStart(t[1..]) else t
  }

  function TrimEnd(t: Text): Text {
    if t != [] && IsSpace(t[|t| - 1]) then TrimEnd(t[..|t| - 1]) else t
  }

  function Trim(t: Text): Text { TrimEnd(TrimStart(t)) }

  function Cut(t: Text, max: nat): Text {
    if |t| <= max then t else t[..max]
  }

  predicate IsControl(u: Unit) { u < 32 || u == 127 }

  function Strip(t: Text): Text {
    if t == [] then [] else (if IsControl(t[0]) then [] else [t[0]]) + Strip(t[1..])
  }

  function CleanText(t: Text, max: nat): Text { Strip(Cut(Trim(t), max)) }

  function CleanString(value: Option<Json>, max: nat): Text {
    match value
    case Some(Str(t)) => CleanText(t, max)
    case _ => []
  }

  /** White space and line terminators (sections 12.2 and 12.3 of ECMA-262), and the units a pass strips. */
  lemma CharacterClasses(u: Unit)
    ensures IsSpace(u) <==>
            u in {0x9, 0xA, 0xB, 0xC, 0xD, 0x20, 0xA0, 0x1680, 0x2000, 0x2001, 0x2002, 0x2003, 0x2004, 0x2005,
                  0x2006, 0x2007, 0x2008, 0x2009, 0x200A, 0x2028, 0x2029, 0x202F, 0x205F, 0x3000, 0xFEFF}
    ensures IsControl(u) <==> u <= 0x1F || u == 0x7F
  {
  }

  // ----- Lists -----

  function CleanAll(items: seq<Json>): (r: seq<Text>)
    ensures |r| == |items|
    ensures forall i :: 0 <= i < |items| ==> r[i] == CleanString(Some(items[i]), MAX_ITEM_LENGTH)
  {
    seq(|items|, i requires 0 <= i < |items| => CleanString(Some(items[i]), MAX_ITEM_LENGTH))
  }

  function NonEmpty(list: seq<Text>): (r: seq<Text>)
    ensures forall t :: t in r <==> t in list && t != []
  {
    if list == [] then []
    else NonEmpty(list[..|list| - 1]) + if list[|list| - 1] == [] then [] else [list[|list| - 1]]
  }

  predicate NoRepeats(list: seq<Text>) {
    forall i, j :: 0 <= i < j < |list| ==> list[i] != list[j]
  }

  /** `[...new Set(list)]`: first occurrences, in order. */
  function Unique(list: seq<Text>): (r: seq<Text>)
    ensures forall t :: t in r <==> t in list
    ensures NoRepeats(r)
  {
    if list == [] then []
    else
      var before, last := Unique(list[..|list| - 1]), list[|list| - 1];
      assert list == list[..|list| - 1] + [last];
      if last in before then before else before + [last]
  }

  function FirstItems(list: seq<Text>): (r: seq<Text>)
    ensures |r| <= MAX_ITEMS && r <= list
  {
    if |list| <= MAX_ITEMS then list else list[..MAX_ITEMS]
  }

  function CleanArray(value: Option<Json>): seq<Text> {
    match value
    case Some(Arr(items)) => FirstItems(Unique(NonEmpty(CleanAll(items))))
    case _ => []
  }

  // ----- Accents -----

  const HASH: Unit := 35

  predicate IsHex(u: Unit) { 48 <= u < 58 || 65 <= u < 71 || 97 <= u < 103 }

  /** `/^#[0-9a-fA-F]{6}$/`. */
  predicate IsAccent(t: Text) {
    |t| == ACCENT_LENGTH && t[0] == HASH && forall i :: 1 <= i < ACCENT_LENGTH ==> IsHex(t[i])
  }

  function UpperUnit(u: Unit): Unit { if 97 <= u < 123 then u - 32 else u }

  function Upper(t: Text): (r: Text)
    ensures |r| == |t| && forall i :: 0 <= i < |t| ==> r[i] == UpperUnit(t[i])
  {
    seq(|t|, i requires 0 <= i < |t| => UpperUnit(t[i]))
  }

  function CleanAccent(value: Option<Json>): Option<Text> {
    var accent := CleanString(value, ACCENT_LENGTH);
    if IsAccent(accent) then Some(Upper(accent)) else None
  }

  // ----- Blueprints -----

  datatype Blueprint = Blueprint(
    name: Text,
    markets: seq<Text>,
    currencies: seq<Text>,
    capabilities: seq<Text>,
    rails: seq<Text>,
    accent: Option<Text>)

  const V: Text := Ascii("v")
  const NAME: Text := Ascii("name")
  const MARKETS: Text := Ascii("markets")
  const CURRENCIES: Text := Ascii("currencies")
  const CAPABILITIES: Text := Ascii("capabilities")
  const RAILS: Text := Ascii("rails")
  const ACCENT: Text := Ascii("accent")
  const BRAND: Text := Ascii("brand")

  /** A property of a value: undefined on anything but an object that has it. */
  function Property(v: Json, key: Text): Option<Json> {
    if v.Obj? then FirstEntry(v.entries, key) else None
  }

  function Sanitize(input: Json): Option<Blueprint> {
    var name := CleanString(Property(input, NAME), MAX_NAME_LENGTH);
    var capabilities := CleanArray(Property(input, CAPABILITIES));
    var brand := Property(input, BRAND);
    var branded := if brand.Some? && brand.value.Obj? then CleanAccent(Property(brand.value, ACCENT)) else None;
    var accent := if branded.Some? then branded else CleanAccent(Property(input, ACCENT));
    if name == [] || capabilities == [] then None
    else Some(Blueprint(name,
                        CleanArray(Property(input, MARKETS)),
                        CleanArray(Property(input, CURRENCIES)),
                        capabilities,
                        CleanArray(Property(input, RAILS)),
                        accent))
  }

  const ONE: Number := Scientific(false, [49], 0)

  function Texts(list: seq<Text>): (r: Json)
    ensures r.Arr? && |r.items| == |list| && forall i :: 0 <= i < |list| ==> r.items[i] == Str(list[i])
  {
    Arr(seq(|list|, i requires 0 <= i < |list| => Str(list[i])))
  }

  /** The object a blueprint is shared as. */
  function ToJson(b: Blueprint): Json {
    Obj([(V, Num(ONE)), (NAME, Str(b.name)), (MARKETS, Texts(b.markets)), (CURRENCIES, Texts(b.currencies)),
         (CAPABILITIES, Texts(b.capabilities)), (RAILS, Texts(b.rails))]
        + match b.accent case Some(a) => [(ACCENT, Str(a))] case None => [])
  }

  // ----- One pass may not be enough; two are -----

  lemma {:induction false} TrimStartTrims(t: Text)
    ensures TrimStart(t) == [] || !IsSpace(TrimStart(t)[0])
    ensures |TrimStart(t)| <= |t|
    ensures forall u :: u in TrimStart(t) ==> u in t
  {
    if t != [] && IsSpace(t[0]) { TrimStartTrims(t[1..]); }
  }

  lemma {:induction false} TrimEndTrims(t: Text)
    ensures TrimEnd(t) <= t
    ensures TrimEnd(t) == [] || !IsSpace(TrimEnd(t)[|TrimEnd(t)| - 1])
  {
    if t != [] && IsSpace(t[|t| - 1]) { TrimEndTrims(t[..|t| - 1]); }
  }

  /** Trimming takes white space off both ends and nothing else. */
  lemma {:induction false} TrimStartTakesSpace(t: Text) returns (space: Text)
    ensures t == space + TrimStart(t) && Blank(space)
  {
    if t != [] && IsSpace(t[0]) {
      var rest := TrimStartTakesSpace(t[1..]);
      space := [t[0]] + rest;
    } else {
      space := [];
    }
  }

  lemma {:induction false} TrimEndTakesSpace(t: Text) returns (space: Text)
    ensures t == TrimEnd(t) + space && Blank(space)
  {
    if t != [] && IsSpace(t[|t| - 1]) {
      var rest := TrimEndTakesSpace(t[..|t| - 1]);
      space := rest + [t[|t| - 1]];
    } else {
      space := [];
    }
  }

  lemma TrimTakesSpace(t: Text) returns (before: Text, after: Text)
    ensures t == before + Trim(t) + after && Blank(before) && Blank(after) && Trimmed(Trim(t))
  {
    before := TrimStartTakesSpace(t);
    after := TrimEndTakesSpace(TrimStart(t));
    TrimTrims(t);
  }

  /** Stripping takes each control character out and leaves every other unit in its place. */
  lemma {:induction false} StripIsPiecewise(a: Text, b: Text)
    ensures Strip(a + b) == Strip(a) + Strip(b)
    ensures Printable(a) ==> Strip(a) == a
    ensures |a| == 1 && IsControl(a[0]) ==> Strip(a) == []
  {
    if a == [] {
      assert a + b == b;
    } else {
      assert (a + b)[1..] == a[1..] + b;
      StripIsPiecewise(a[1..], b);
      assert a == [a[0]] + a[1..];
    }
  }

  predicate Trimmed(t: Text) {
    t != [] ==> !IsSpace(t[0]) && !IsSpace(t[|t| - 1])
  }

  lemma TrimTrims(t: Text)
    ensures Trimmed(Trim(t)) && |Trim(t)| <= |t|
    ensures forall u :: u in Trim(t) ==> u in t
    ensures Trimmed(t) <==> Trim(t) == t
  {
    TrimStartTrims(t);
    TrimEndTrims(TrimStart(t));
  }

  lemma {:induction false} StripStrips(t: Text)
    ensures |Strip(t)| <= |t|
    ensures forall u :: u in Strip(t) ==> u in t && !IsControl(u)
    ensures (forall u :: u in t ==> !IsControl(u)) ==> Strip(t) == t
  {
    if t != [] {
      StripStrips(t[1..]);
      assert t == [t[0]] + t[1..];
    }
  }

  predicate Printable(t: Text) {
    forall u :: u in t ==> !IsControl(u)
  }

  lemma CleanedText(t: Text, max: nat)
    ensures |CleanText(t, max)| <= max && Printable(CleanText(t, max))
  {
    StripStrips(Cut(Trim(t), max));
  }

  /** Cleaning a short printable text only trims it. */
  lemma CleanOnlyTrims(t: Text, max: nat)
    requires |t| <= max && Printable(t)
    ensures CleanText(t, max) == Trim(t)
  {
    TrimTrims(t);
    StripStrips(Trim(t));
  }

  /** A text a cleaning pass leaves alone. */
  predicate Clean(t: Text, max: nat) {
    CleanText(t, max) == t
  }

  // The units of a text that stripping shows first and last.
  predicate FirstShown(t: Text, i: nat) {
    i < |t| && !IsControl(t[i]) && forall j :: 0 <= j < i ==> IsControl(t[j])
  }

  predicate LastShown(t: Text, i: nat) {
    i < |t| && !IsControl(t[i]) && forall j :: i < j < |t| ==> IsControl(t[j])
  }

  /** Neither the first nor the last unit that is shown is a space. */
  predicate NoSpaceAtEdges(t: Text) {
    forall i: nat :: i < |t| && (FirstShown(t, i) || LastShown(t, i)) ==> !IsSpace(t[i])
  }

  lemma {:induction false} StripShows(t: Text) returns (first: nat, last: nat)
    ensures if Strip(t) == [] then Printable(t) ==> t == []
            else FirstShown(t, first) && LastShown(t, last)
                 && Strip(t)[0] == t[first] && Strip(t)[|Strip(t)| - 1] == t[last]
    ensures Strip(t) == [] ==> forall i :: 0 <= i < |t| ==> IsControl(t[i])
  {
    first, last := 0, 0;
    if t != [] {
      var f, l := StripShows(t[1..]);
      if Strip(t[1..]) != [] { last := l + 1; }
      if IsControl(t[0]) { first := f + 1; }
    }
  }

  lemma StrippedIsTrimmed(t: Text)
    ensures Trimmed(Strip(t)) <==> NoSpaceAtEdges(t)
  {
    var first, last := StripShows(t);
    if Strip(t) != [] {
      forall i: nat | FirstShown(t, i) ensures i == first {}
      forall i: nat | LastShown(t, i) ensures i == last {}
    }
  }

  /** Two passes reach a fixed point; one does exactly when what is cut off shows no space at its edges. */
  lemma TwoPassesClean(t: Text, max: nat)
    ensures Clean(CleanText(CleanText(t, max), max), max)
    ensures Clean(CleanText(t, max), max) <==> NoSpaceAtEdges(Cut(Trim(t), max))
  {
    var once := CleanText(t, max);
    CleanedText(t, max);
    CleanOnlyTrims(once, max);
    var twice := CleanText(once, max);
    TrimTrims(once);
    CleanedText(once, max);
    CleanOnlyTrims(twice, max);
    TrimTrims(twice);
    StrippedIsTrimmed(Cut(Trim(t), max));
  }

  /** The texts cleaning leaves alone: short enough, printable and trimmed. */
  lemma CleanExactly(t: Text, max: nat)
    ensures Clean(t, max) <==> |t| <= max && Printable(t) && Trimmed(t)
  {
    CleanedText(t, max);
    TrimTrims(t);
    if |t| <= max && Printable(t) {
      CleanOnlyTrims(t, max);
    }
  }

  /** One pass may not be enough: a control character shields white space from the trim. */
  lemma OnePassCanMissSpace()
    ensures !Clean(CleanText([1, 32, 65], MAX_NAME_LENGTH), MAX_NAME_LENGTH)
  {
    var t: Text := [1, 32, 65];
    TrimTrims(t);
    assert FirstShown(t, 1);
    TwoPassesClean(t, MAX_NAME_LENGTH);
  }

  /** Nor where the cut lands on a space, whatever the length it cuts at. */
  lemma OneCutCanEndInSpace(max: nat)
    requires max >= 2
    ensures var t: Text := seq(max - 1, i => 65) + [32, 65];
            !Clean(CleanText(t, max), max) && Clean(CleanText(CleanText(t, max), max), max)
  {
    var t: Text := seq(max - 1, i => 65) + [32, 65];
    TrimTrims(t);
    assert LastShown(Cut(t, max), max - 1);
    TwoPassesClean(t, max);
  }

  /** Nothing but white space. */
  predicate Blank(t: Text) {
    forall i :: 0 <= i < |t| ==> IsSpace(t[i])
  }

  lemma {:induction false} TrimStartOfBlank(t: Text)
    ensures Blank(t) <==> TrimStart(t) == []
  {
    if t != [] && IsSpace(t[0]) {
      TrimStartOfBlank(t[1..]);
      assert Blank(t) <==> Blank(t[1..]);
    }
  }

  lemma {:induction false} TrimEndOfUntrimmed(t: Text)
    requires t != [] && !IsSpace(t[0])
    ensures TrimEnd(t) != []
  {
    if IsSpace(t[|t| - 1]) { TrimEndOfUntrimmed(t[..|t| - 1]); }
  }

  lemma TrimmedAway(t: Text)
    ensures Trim(t) == [] <==> Blank(t)
  {
    TrimStartOfBlank(t);
    TrimStartTrims(t);
    if !Blank(t) { TrimEndOfUntrimmed(TrimStart(t)); }
  }

  // ----- Lists -----

  predicate CleanList(list: seq<Text>) {
    && |list| <= MAX_ITEMS && NoRepeats(list)
    && forall t :: t in list ==> t != [] && Clean(t, MAX_ITEM_LENGTH)
  }

  /** A list one pass leaves: bounded, without repeats, its items cleaned at least once. */
  predicate OnceCleanList(list: seq<Text>) {
    && |list| <= MAX_ITEMS && NoRepeats(list)
    && forall t :: t in list ==> t != [] && Clean(CleanText(t, MAX_ITEM_LENGTH), MAX_ITEM_LENGTH)
  }

  /** Every text in a cleaned array is a cleaned, non-empty item. */
  lemma CleanedItem(items: seq<Json>, t: Text) returns (i: nat)
    requires t in CleanArray(Some(Arr(items)))
    ensures i < |items| && items[i].Str? && t == CleanText(items[i].str, MAX_ITEM_LENGTH) && t != []
  {
    var kept := NonEmpty(CleanAll(items));
    assert t in Unique(kept);
    assert t in kept;
    assert t in CleanAll(items);
    i :| 0 <= i < |items| && CleanAll(items)[i] == t;
  }

  /** The place of an item kept: the first with its text, which is not empty. */
  predicate KeptAt(texts: seq<Text>, t: Text, i: nat) {
    i < |texts| && texts[i] == t && t != [] && forall j :: 0 <= j < i ==> texts[j] != t
  }

  /** The list keeps the first occurrence of every non-empty text, in order. */
  ghost predicate KeepsFirsts(texts: seq<Text>, list: seq<Text>, places: seq<nat>) {
    && |places| == |list|
    && (forall k :: 0 <= k < |list| ==> KeptAt(texts, list[k], places[k]))
    && (forall k, l :: 0 <= k < l < |list| ==> places[k] < places[l])
  }

  lemma {:induction false} NonEmptyConcat(list: seq<Text>, last: Text)
    ensures NonEmpty(list + [last]) == NonEmpty(list) + if last == [] then [] else [last]
  {
    assert (list + [last])[..|list|] == list;
  }

  lemma UniqueConcat(list: seq<Text>, last: Text)
    ensures Unique(list + [last]) == Unique(list) + if last in list then [] else [last]
  {
    assert (list + [last])[..|list|] == list;
  }

  lemma {:induction false} UniqueKeepsFirsts(texts: seq<Text>) returns (places: seq<nat>)
    ensures KeepsFirsts(texts, Unique(NonEmpty(texts)), places)
  {
    if texts == [] {
      places := [];
    } else {
      var n := |texts| - 1;
      var before, last := texts[..n], texts[n];
      places := UniqueKeepsFirsts(before);
      assert texts == before + [last];
      NonEmptyConcat(before, last);
      forall k | 0 <= k < |places| ensures KeptAt(texts, Unique(NonEmpty(before))[k], places[k]) {
        assert KeptAt(before, Unique(NonEmpty(before))[k], places[k]);
      }
      if last == [] {
        assert NonEmpty(texts) == NonEmpty(before);
      } else {
        UniqueConcat(NonEmpty(before), last);
        if last !in NonEmpty(before) {
          forall j | 0 <= j < n ensures texts[j] != last { assert texts[j] in before; }
          assert KeptAt(texts, last, n);
          places := places + [n];
        } else {
          assert Unique(NonEmpty(texts)) == Unique(NonEmpty(before));
        }
      }
    }
  }

  /**
   A cleaned array holds the first occurrences of the cleaned texts of its items, in order, leaving out
   empty ones; and all of them, or the first sixteen.
   */
  lemma ArraysKeepFirsts(items: seq<Json>) returns (places: seq<nat>)
    ensures var texts, list := CleanAll(items), CleanArray(Some(Arr(items)));
            && KeepsFirsts(texts, list, places)
            && (|list| == MAX_ITEMS || forall i :: 0 <= i < |texts| && texts[i] != [] ==> texts[i] in list)
            && (forall i :: 0 <= i < |texts| && texts[i] != [] && texts[i] !in list ==>
                  |list| == MAX_ITEMS && places[MAX_ITEMS - 1] < i)
  {
    var texts, list := CleanAll(items), CleanArray(Some(Arr(items)));
    var all := Unique(NonEmpty(texts));
    var allPlaces := UniqueKeepsFirsts(texts);
    places := allPlaces[..|list|];
    forall i | 0 <= i < |texts| && texts[i] != [] && texts[i] !in list
      ensures |list| == MAX_ITEMS && places[MAX_ITEMS - 1] < i
    {
      assert texts[i] in texts && texts[i] in NonEmpty(texts) && texts[i] in all;
      var k :| 0 <= k < |all| && all[k] == texts[i];
      assert KeptAt(texts, all[k], allPlaces[k]);
      assert k >= |list| by {
        assert forall m :: 0 <= m < |list| ==> list[m] == all[m] && list[m] in list;
      }
    }
  }

  lemma ArraysAreOnceClean(value: Option<Json>)
    ensures OnceCleanList(CleanArray(value))
  {
    match value {
      case Some(Arr(items)) =>
        forall t | t in CleanArray(value) ensures t != [] && Clean(CleanText(t, MAX_ITEM_LENGTH), MAX_ITEM_LENGTH) {
          var i := CleanedItem(items, t);
          TwoPassesClean(items[i].str, MAX_ITEM_LENGTH);
        }
      case _ =>
    }
  }

  lemma SecondPassIsClean(list: seq<Text>)
    requires OnceCleanList(list)
    ensures CleanList(CleanArray(Some(Texts(list))))
  {
    forall t | t in CleanArray(Some(Texts(list))) ensures t != [] && Clean(t, MAX_ITEM_LENGTH) {
      var i := CleanedItem(Texts(list).items, t);
      assert list[i] in list;
    }
  }

  lemma {:induction false} NonEmptyKeeps(list: seq<Text>)
    requires forall i :: 0 <= i < |list| ==> list[i] != []
    ensures NonEmpty(list) == list
  {
    if list != [] {
      NonEmptyKeeps(list[..|list| - 1]);
      assert list == list[..|list| - 1] + [list[|list| - 1]];
    }
  }

  lemma {:induction false} UniqueKeeps(list: seq<Text>)
    requires NoRepeats(list)
    ensures Unique(list) == list
  {
    if list != [] {
      UniqueKeeps(list[..|list| - 1]);
      assert list == list[..|list| - 1] + [list[|list| - 1]];
    }
  }

  lemma CleanTextsStay(list: seq<Text>)
    requires CleanList(list)
    ensures CleanAll(Texts(list).items) == list
    ensures forall i :: 0 <= i < |list| ==> list[i] != []
  {
    var items := Texts(list).items;
    forall i | 0 <= i < |list| ensures CleanString(Some(items[i]), MAX_ITEM_LENGTH) == list[i] && list[i] != [] {
      assert list[i] in list;
    }
  }

  lemma CleanListsStay(list: seq<Text>)
    requires CleanList(list)
    ensures CleanArray(Some(Texts(list))) == list
  {
    CleanTextsStay(list);
    NonEmptyKeeps(list);
    UniqueKeeps(list);
  }

  // ----- Accents -----

  /** An accepted accent is written in upper case. */
  lemma UpperIsStable(value: Option<Json>)
    ensures CleanAccent(value).Some? ==>
              IsAccent(CleanAccent(value).value) && Upper(CleanAccent(value).value) == CleanAccent(value).value
  {
    if CleanAccent(value).Some? {
      var t := CleanAccent(value).value;
      assert Upper(t) == t;
    }
  }

  lemma AccentStays(a: Text)
    requires IsAccent(a) && Upper(a) == a
    ensures CleanAccent(Some(Str(a))) == Some(a)
  {
    assert forall i :: 0 <= i < |a| ==> !IsControl(a[i]) && !IsSpace(a[i]);
    CleanExactly(a, ACCENT_LENGTH);
  }

  // ----- Blueprints -----

  /** What sanitising a shared blueprint again amounts to. */
  function Resanitized(b: Blueprint): Option<Blueprint> {
    var name := CleanText(b.name, MAX_NAME_LENGTH);
    var capabilities := CleanArray(Some(Texts(b.capabilities)));
    var accent := match b.accent case Some(a) => CleanAccent(Some(Str(a))) case None => None;
    if name == [] || capabilities == [] then None
    else Some(Blueprint(name, CleanArray(Some(Texts(b.markets))), CleanArray(Some(Texts(b.currencies))),
                        capabilities, CleanArray(Some(Texts(b.rails))), accent))
  }

  lemma NoEntry(entries: seq<(Text, Json)>, key: Text)
    requires forall i :: 0 <= i < |entries| ==> entries[i].0 != key
    ensures FirstEntry(entries, key) == None
  {
  }

  lemma KeysDiffer()
    ensures V != NAME && V != MARKETS && V != CURRENCIES && V != CAPABILITIES && V != RAILS && V != ACCENT && V != BRAND
    ensures NAME != MARKETS && NAME != CURRENCIES && NAME != CAPABILITIES && NAME != RAILS && NAME != ACCENT
            && NAME != BRAND
    ensures MARKETS != CURRENCIES && MARKETS != CAPABILITIES && MARKETS != RAILS && MARKETS != ACCENT
            && MARKETS != BRAND
    ensures CURRENCIES != CAPABILITIES && CURRENCIES != RAILS && CURRENCIES != ACCENT && CURRENCIES != BRAND
    ensures CAPABILITIES != RAILS && CAPABILITIES != ACCENT && CAPABILITIES != BRAND
    ensures RAILS != ACCENT && RAILS != BRAND && ACCENT != BRAND
  {
    assert RAILS[0] != BRAND[0];
  }

  lemma SharedKeysDiffer(b: Blueprint)
    ensures var e := ToJson(b).entries;
            && (forall i, j :: 0 <= i < j < |e| ==> e[i].0 != e[j].0)
            && (forall i :: 0 <= i < |e| ==> e[i].0 != BRAND && (e[i].0 == ACCENT ==> i == 6))
  {
    KeysDiffer();
  }

  lemma SharedProperties(b: Blueprint)
    ensures var j := ToJson(b);
            && Property(j, V) == Some(Num(ONE)) && Property(j, NAME) == Some(Str(b.name))
            && Property(j, MARKETS) == Some(Texts(b.markets)) && Property(j, CURRENCIES) == Some(Texts(b.currencies))
            && Property(j, CAPABILITIES) == Some(Texts(b.capabilities)) && Property(j, RAILS) == Some(Texts(b.rails))
            && Property(j, BRAND) == None
            && Property(j, ACCENT) == (match b.accent case Some(a) => Some(Str(a)) case None => None)
  {
    SharedKeysDiffer(b);
    var e := ToJson(b).entries;
    OnlyEntry(e, 0);
    OnlyEntry(e, 1);
    OnlyEntry(e, 2);
    OnlyEntry(e, 3);
    OnlyEntry(e, 4);
    OnlyEntry(e, 5);
    if b.accent.Some? { OnlyEntry(e, 6); } else { NoEntry(e, ACCENT); }
    NoEntry(e, BRAND);
  }

  lemma SanitizeShared(b: Blueprint)
    ensures Sanitize(ToJson(b)) == Resanitized(b)
  {
    SharedProperties(b);
  }

  /** A blueprint with nothing left to clean. */
  predicate CleanBlueprint(b: Blueprint) {
    && b.name != [] && Clean(b.name, MAX_NAME_LENGTH)
    && CleanList(b.markets) && CleanList(b.currencies) && CleanList(b.rails)
    && CleanList(b.capabilities) && b.capabilities != []
    && (b.accent.Some? ==> IsAccent(b.accent.value) && Upper(b.accent.value) == b.accent.value)
  }

  /** Sharing keeps every field of a clean blueprint, and only clean blueprints come back unchanged. */
  lemma SharingKeepsExactlyCleanBlueprints(b: Blueprint)
    ensures Sanitize(ToJson(b)) == Some(b) <==> CleanBlueprint(b)
  {
    SanitizeShared(b);
    if CleanBlueprint(b) {
      CleanListsStay(b.markets);
      CleanListsStay(b.currencies);
      CleanListsStay(b.capabilities);
      CleanListsStay(b.rails);
      if b.accent.Some? { AccentStays(b.accent.value); }
    }
    if Sanitize(ToJson(b)) == Some(b) {
      StableListIsClean(b.markets);
      StableListIsClean(b.currencies);
      StableListIsClean(b.capabilities);
      StableListIsClean(b.rails);
      if b.accent.Some? { UpperIsStable(Some(Str(b.accent.value))); }
    }
  }

  lemma StableListIsClean(list: seq<Text>)
    requires CleanArray(Some(Texts(list))) == list
    ensures CleanList(list)
  {
    ArraysAreOnceClean(Some(Texts(list)));
    SecondPassIsClean(list);
  }

  /** A second pass over a sanitised blueprint gives nothing, or a blueprint no pass changes. */
  lemma TwoPassesSanitize(input: Json, once: Blueprint)
    requires Sanitize(input) == Some(once)
    ensures Sanitize(ToJson(once)).Some? ==> CleanBlueprint(Sanitize(ToJson(once)).value)
  {
    SanitizeShared(once);
    if Sanitize(ToJson(once)).Some? {
      TwoPassesClean(Property(input, NAME).value.str, MAX_NAME_LENGTH);
      SecondListIsClean(Property(input, MARKETS));
      SecondListIsClean(Property(input, CURRENCIES));
      SecondListIsClean(Property(input, CAPABILITIES));
      SecondListIsClean(Property(input, RAILS));
      if once.accent.Some? { UpperIsStable(Some(Str(once.accent.value))); }
    }
  }

  /** The second pass gives nothing exactly when the first leaves a blank name or only blank capabilities. */
  lemma SecondPassLosesExactlyBlanks(input: Json, once: Blueprint)
    requires Sanitize(input) == Some(once)
    ensures Sanitize(ToJson(once)).None? <==> Blank(once.name) || forall t :: t in once.capabilities ==> Blank(t)
  {
    SanitizeShared(once);
    var name := Property(input, NAME).value.str;
    CleanedText(name, MAX_NAME_LENGTH);
    CleanOnlyTrims(once.name, MAX_NAME_LENGTH);
    TrimmedAway(once.name);
    var list := once.capabilities;
    forall i | 0 <= i < |list| ensures CleanText(list[i], MAX_ITEM_LENGTH) == Trim(list[i]) {
      var k := CleanedItem(Property(input, CAPABILITIES).value.items, list[i]);
      CleanedText(Property(input, CAPABILITIES).value.items[k].str, MAX_ITEM_LENGTH);
      CleanOnlyTrims(list[i], MAX_ITEM_LENGTH);
    }
    SecondListLosesBlanks(list);
  }

  lemma NothingKept(list: seq<Text>)
    ensures FirstItems(Unique(NonEmpty(list))) == [] <==> forall t :: t in list ==> t == []
  {
    var kept := NonEmpty(list);
    var unique := Unique(kept);
    if unique != [] {
      assert unique[0] in unique && unique[0] in kept;
    }
    if t :| t in list && t != [] {
      assert t in kept && t in unique;
    }
  }

  lemma BlanksVanish(list: seq<Text>, cleaned: seq<Text>)
    requires |cleaned| == |list| && forall i :: 0 <= i < |list| ==> (cleaned[i] == [] <==> Blank(list[i]))
    ensures (forall t :: t in cleaned ==> t == []) <==> forall t :: t in list ==> Blank(t)
  {
    forall i | 0 <= i < |list| ensures cleaned[i] in cleaned && list[i] in list {}
  }

  lemma SecondListLosesBlanks(list: seq<Text>)
    requires forall i :: 0 <= i < |list| ==> CleanText(list[i], MAX_ITEM_LENGTH) == Trim(list[i])
    ensures CleanArray(Some(Texts(list))) == [] <==> forall t :: t in list ==> Blank(t)
  {
    var items := Texts(list).items;
    var cleaned := CleanAll(items);
    forall i | 0 <= i < |list| ensures cleaned[i] == [] <==> Blank(list[i]) {
      assert cleaned[i] == Trim(list[i]);
      TrimmedAway(list[i]);
    }
    NothingKept(cleaned);
    BlanksVanish(list, cleaned);
  }

  /** A list cleaned twice is clean. */
  lemma SecondListIsClean(value: Option<Json>)
    ensures CleanList(CleanArray(Some(Texts(CleanArray(value)))))
  {
    ArraysAreOnceClean(value);
    SecondPassIsClean(CleanArray(value));
  }

  /** A property is a text that cleans to a hex colour. */
  predicate IsColour(value: Option<Json>) {
    value.Some? && value.value.Str? && IsAccent(CleanText(value.value.str, ACCENT_LENGTH))
  }

  function Branding(input: Json): Option<Json> {
    match Property(input, BRAND)
    case Some(brand) => Property(brand, ACCENT)
    case None => None
  }

  /**
   Any input that sanitises gets the colour of its brand in upper case, whatever its own accent is;
   without one, its own accent; and no accent when neither is a colour.
   */
  lemma BrandComesFirst(input: Json)
    requires Sanitize(input).Some?
    ensures Sanitize(input).value.accent ==
            if IsColour(Branding(input)) then Some(Upper(CleanText(Branding(input).value.str, ACCENT_LENGTH)))
            else if IsColour(Property(input, ACCENT))
            then Some(Upper(CleanText(Property(input, ACCENT).value.str, ACCENT_LENGTH)))
            else None
  {
  }

  /** An accepted accent survives the second pass. */
  lemma SecondPassKeepsAccent(input: Json, once: Blueprint)
    requires Sanitize(input) == Some(once)
    ensures Sanitize(ToJson(once)).Some? ==> Sanitize(ToJson(once)).value.accent == once.accent
  {
    SanitizeShared(once);
    BrandComesFirst(input);
    if once.accent.Some? {
      UpperIsStable(Property(input, ACCENT));
      if Property(input, BRAND).Some? { UpperIsStable(Branding(input)); }
      AccentStays(once.accent.value);
    }
  }

  /** An array with an item that cleans to some text. */
  predicate SomeText(value: Option<Json>) {
    match value
    case Some(Arr(items)) => exists i :: 0 <= i < |items| && CleanString(Some(items[i]), MAX_ITEM_LENGTH) != []
    case _ => false
  }

  /** Nothing is shared exactly when the name cleans to nothing or no capability has any text left. */
  lemma NothingSharedExactly(input: Json)
    ensures Sanitize(input).None? <==>
            || CleanString(Property(input, NAME), MAX_NAME_LENGTH) == []
            || !SomeText(Property(input, CAPABILITIES))
  {
    match Property(input, CAPABILITIES) {
      case Some(Arr(items)) => ArrayIsEmptyExactly(items);
      case _ =>
    }
  }

  lemma ArrayIsEmptyExactly(items: seq<Json>)
    ensures CleanArray(Some(Arr(items))) == [] <==>
            !exists i :: 0 <= i < |items| && CleanString(Some(items[i]), MAX_ITEM_LENGTH) != []
  {
    var texts := CleanAll(items);
    NothingKept(texts);
    forall i | 0 <= i < |items| ensures texts[i] in texts && texts[i] == CleanString(Some(items[i]), MAX_ITEM_LENGTH) {}
  }

  /** What any sanitised blueprint is bounded by. */
  predicate Bounded(b: Blueprint) {
    && |b.name| <= MAX_NAME_LENGTH
    && BoundedList(b.markets) && BoundedList(b.currencies) && BoundedList(b.capabilities) && BoundedList(b.rails)
    && (b.accent.Some? ==> IsAccent(b.accent.value))
  }

  predicate BoundedList(list: seq<Text>) {
    |list| <= MAX_ITEMS && forall i :: 0 <= i < |list| ==> |list[i]| <= MAX_ITEM_LENGTH
  }

  lemma ArraysAreBounded(value: Option<Json>)
    ensures BoundedList(CleanArray(value))
  {
    var list := CleanArray(value);
    forall i | 0 <= i < |list| ensures |list[i]| <= MAX_ITEM_LENGTH {
      var k := CleanedItem(value.value.items, list[i]);
      CleanedText(value.value.items[k].str, MAX_ITEM_LENGTH);
    }
  }

  lemma SanitizedIsBounded(input: Json)
    requires Sanitize(input).Some?
    ensures Bounded(Sanitize(input).value)
    ensures |Sanitize(input).value.name| <= 80 && |Sanitize(input).value.capabilities| <= 16
    ensures forall t :: t in Sanitize(input).value.capabilities ==> |t| <= 40
  {
    CleanedText(Property(input, NAME).value.str, MAX_NAME_LENGTH);
    ArraysAreBounded(Property(input, MARKETS));
    ArraysAreBounded(Property(input, CURRENCIES));
    ArraysAreBounded(Property(input, CAPABILITIES));
    ArraysAreBounded(Property(input, RAILS));
    UpperIsStable(Property(input, ACCENT));
    if Property(input, BRAND).Some? { UpperIsStable(Property(Property(input, BRAND).value, ACCENT)); }
  }
}
