// dvb-eit.c: the descriptor loop of one event of an event information table
// (ETSI EN 300 468 section 5.2.4). validateDescription looks for a title;
// parseDescription walks the loop eight times, once per group of XMLTV
// elements, calls the event setters and prints the elements. Printing is
// modelled by the list of effects each descriptor has, in order; what the
// effects do to the event record is Apply.
module EitDescriptors {
  import opened Wrappers
  import opened Wire
  import opened Format
  import opened Registry
  import Lookup
  import E = Events

  /** A lookup table that ends with its -1 sentinel, like languageid_table. */
  type LangTable = t: seq<Lookup.Entry> | Lookup.Terminated(t) witness SentinelOnly()

  /** The shortest table: the sentinel alone. */
  function SentinelOnly(): (t: seq<Lookup.Entry>)
    ensures Lookup.Terminated(t) && |t| == 1
  {
    var t := [Lookup.Entry(-1, None)];
    assert t[0].id == -1;
    t
  }

  /** The union lookup_key of xmllang: the three language bytes and a NUL
      read as a little-endian int. */
  function LangKey(s: seq<Byte>, at: int): nat
  {
    At(s, at) + 256 * At(s, at + 1) + 0x1_0000 * At(s, at + 2)
  }

  /** xmllang: the language name the table gives for the code at offset at.
      lookup never returns NULL, so the fallback to the code itself is never
      taken: an unknown code gives "Unknown ID: <hex>". */
  function XmlLang(langs: LangTable, s: seq<Byte>, at: int): string
  {
    var k := LangKey(s, at);
    Lookup.Describe(langs[Lookup.StopAt(langs, k, 0)], k)
  }

  /** One name: value item of an extended event descriptor. */
  datatype Pair = Pair(name: string, value: string)

  /** What parseDescription does for one descriptor in one round: a setter
      call on the event together with the element printed, or an element
      printed only. */
  datatype Effect =
    | TitleSet(text: string, lang: string)        // event_set_title, <title>
    | SubTitleSet(text: string, lang: string)     // event_set_subtitle, <sub-title>
    | Desc(lang: string, open: bool, items: seq<Pair>, info: Option<string>, close: bool)  // <desc>
    | Category(code: Byte)                        // <category>
    | Video(aspect: nat)                          // event_set_aspect, <video>
    | Audio(audioType: Byte)                           // event_set_audio, <audio>
    | Language(lang: string, first: bool)         // event_set_lang, <language> or a comment
    | Teletext(lang: string)                      // <subtitles type="teletext">
    | Crid(cridType: nat, crid: string)               // event_set_pcrid or _scrid, <crid>
    | Rating(value: nat)                          // <rating system="dvb">
    | Unknown(tag: Byte, length: Byte)            // <!--Unknown_Please_Report ...-->

  /** The round in which each kind of effect happens. */
  function Rank(e: Effect): nat
  {
    match e
    case TitleSet(_, _) => 0
    case Unknown(_, _) => 0
    case SubTitleSet(_, _) => 1
    case Desc(_, _, _, _, _) => 2
    case Category(_) => 3
    case Language(_, _) => 4
    case Video(_) => 5
    case Crid(_, _) => 5
    case Audio(_) => 6
    case Teletext(_) => 7
    case Rating(_) => 7
  }

  /** The state of a walk over descriptors: the effects so far, the `seen`
      counter of the round and the private data specifier; or the end of the
      process, by a failed assert or exit(1). */
  datatype Scan = Exit | Done(effects: seq<Effect>, seen: nat, pds: nat)

  /** The descriptor offsets of a loop from p to end: each descriptor is its
      tag, its length byte and that many bytes. */
  function Offsets(s: seq<Byte>, p: int, end: int): (r: seq<int>)
    ensures forall k :: 0 <= k < |r| ==> p <= r[k] < end
    ensures r != [] <==> p < end
    ensures r != [] ==> r[0] == p
    decreases end - p
  {
    if p < end then [p] + Offsets(s, DescriptorEnd(s, p), end) else []
  }

  /** A short event descriptor whose event name is not empty. */
  predicate IsTitle(s: seq<Byte>, d: int)
  {
    At(s, d) == 0x4D && At(s, d + 5) != 0
  }

  /** The condition validateDescription checks: some descriptor of the loop
      is a short event descriptor with a non-empty name. */
  predicate HasTitle(s: seq<Byte>, from: int, len: nat)
  {
    var ds := Offsets(s, from, from + len);
    exists k :: 0 <= k < |ds| && IsTitle(s, ds[k])
  }

  /** validateDescription. */
  method ValidateDescription(s: seq<Byte>, from: int, len: nat) returns (ok: bool)
    ensures ok == HasTitle(s, from, len)
  {
    ghost var ds := Offsets(s, from, from + len);
    var p := from;
    ghost var i := 0;
    while p < from + len
      invariant 0 <= i <= |ds| && Offsets(s, p, from + len) == ds[i..]
      invariant forall k :: 0 <= k < i ==> !IsTitle(s, ds[k])
      decreases from + len - p
    {
      var next := DescriptorEnd(s, p);
      assert ds[i..] == [p] + Offsets(s, next, from + len);
      assert ds[i] == p;
      if At(s, p) == 0x4D && At(s, p + 5) != 0 {
        assert IsTitle(s, ds[i]);
        return true;
      }
      assert ds[i + 1..] == ds[i..][1..];
      p, i := next, i + 1;
    }
    assert ds[i..] == [];
    return false;
  }

  /** parseEventDescription for a short event descriptor at d: in round 0
      the event name, in round 1 the text that follows it, each up to its
      first NUL. An empty name is skipped, and so is an empty text. */
  function ShortEvent(langs: LangTable, s: seq<Byte>, d: int, round: nat): (r: seq<Effect>)
    requires round <= 1
    ensures |r| <= 1
    ensures round == 0 ==> (r != [] <==> At(s, d + 5) != 0)
    ensures round == 0 ==> forall e | e in r :: e.TitleSet? && |e.text| <= At(s, d + 5)
    ensures round == 1 ==> forall e | e in r :: e.SubTitleSet? && e.text != [] && |e.text| <= At(s, d + 6 + At(s, d + 5))
  {
    var evtlen := At(s, d + 5);
    var lang := XmlLang(langs, s, d + 2);
    if round == 0 then
      if evtlen == 0 then [] else [TitleSet(StringField(s, d + 6, evtlen), lang)]
    else
      var dsc := StringField(s, d + 7 + evtlen, At(s, d + 6 + evtlen));
      if dsc == [] then [] else [SubTitleSet(dsc, lang)]
  }

  /** The bytes of a short event descriptor: language code, event name and text. */
  function EncodeShortEvent(lang: seq<Byte>, name: seq<Byte>, text: seq<Byte>): (r: seq<Byte>)
    requires |lang| == 3 && 5 + |name| + |text| < 256
  {
    [0x4D, 5 + |name| + |text|] + lang + [|name|] + name + [|text|] + text
  }

  /** Read back, the short event descriptor gives its name as the title in
      round 0 and its text as the sub-title in round 1. */
  lemma ShortEventRoundTrip(langs: LangTable, s: seq<Byte>, d: int, lang: seq<Byte>, name: seq<Byte>, text: seq<Byte>)
    requires |lang| == 3 && 5 + |name| + |text| < 256
    requires forall j :: 0 <= j < |name| ==> name[j] != 0
    requires forall j :: 0 <= j < |text| ==> text[j] != 0
    requires var b := EncodeShortEvent(lang, name, text); 0 <= d && d + |b| <= |s| && s[d..d + |b|] == b
    ensures ShortEvent(langs, s, d, 0) == if name == [] then [] else [TitleSet(Chars(name), XmlLang(langs, s, d + 2))]
    ensures ShortEvent(langs, s, d, 1) == if text == [] then [] else [SubTitleSet(Chars(text), XmlLang(langs, s, d + 2))]
  {
    ShortEventNameRead(langs, s, d, lang, name, text);
    ShortEventTextRead(langs, s, d, lang, name, text);
  }

  /** Round 0 of an encoded short event descriptor gives back its name. */
  lemma ShortEventNameRead(langs: LangTable, s: seq<Byte>, d: int, lang: seq<Byte>, name: seq<Byte>, text: seq<Byte>)
    requires |lang| == 3 && 5 + |name| + |text| < 256
    requires forall j :: 0 <= j < |name| ==> name[j] != 0
    requires forall j :: 0 <= j < |text| ==> text[j] != 0
    requires var b := EncodeShortEvent(lang, name, text); 0 <= d && d + |b| <= |s| && s[d..d + |b|] == b
    ensures ShortEvent(langs, s, d, 0) == if name == [] then [] else [TitleSet(Chars(name), XmlLang(langs, s, d + 2))]
  {
    var b := EncodeShortEvent(lang, name, text);
    ShortEventLayout(lang, name, text);
    assert At(s, d + 5) == |name| by { AtSlice(s, d, b, 5); }
    assert StringField(s, d + 6, |name|) == Chars(name) by { StringFieldSlice(s, d, b, 6, |name|); }
    ShortEventTitle(langs, s, d, name);
  }

  /** Round 1 of an encoded short event descriptor gives back its text. */
  lemma ShortEventTextRead(langs: LangTable, s: seq<Byte>, d: int, lang: seq<Byte>, name: seq<Byte>, text: seq<Byte>)
    requires |lang| == 3 && 5 + |name| + |text| < 256
    requires forall j :: 0 <= j < |name| ==> name[j] != 0
    requires forall j :: 0 <= j < |text| ==> text[j] != 0
    requires var b := EncodeShortEvent(lang, name, text); 0 <= d && d + |b| <= |s| && s[d..d + |b|] == b
    ensures ShortEvent(langs, s, d, 1) == if text == [] then [] else [SubTitleSet(Chars(text), XmlLang(langs, s, d + 2))]
  {
    var b := EncodeShortEvent(lang, name, text);
    var m := |name|;
    ShortEventLayout(lang, name, text);
    assert At(s, d + 5) == m by { AtSlice(s, d, b, 5); }
    assert At(s, d + (6 + m)) == |text| by { AtSlice(s, d, b, 6 + m); }
    assert StringField(s, d + (7 + m), |text|) == Chars(text) by { StringFieldSlice(s, d, b, 7 + m, |text|); }
    ShortEventText(langs, s, d, m, text);
  }

  /** Where the lengths and strings stand in a short event descriptor. */
  lemma ShortEventLayout(lang: seq<Byte>, name: seq<Byte>, text: seq<Byte>)
    requires |lang| == 3 && 5 + |name| + |text| < 256
    requires forall j :: 0 <= j < |name| ==> name[j] != 0
    requires forall j :: 0 <= j < |text| ==> text[j] != 0
    ensures var b, m := EncodeShortEvent(lang, name, text), |name|;
      |b| == 7 + m + |text| && b[5] == m && b[6 + m] == |text| &&
      b[6..6 + m] == name && b[7 + m..7 + m + |text|] == text &&
      (forall j :: 6 <= j < 6 + m ==> b[j] != 0) &&
      (forall j :: 7 + m <= j < 7 + m + |text| ==> b[j] != 0)
  {
    var b, m := EncodeShortEvent(lang, name, text), |name|;
    assert b == [0x4D, 5 + m + |text|] + lang + [m] + name + [|text|] + text;
    assert forall j :: 6 <= j < 6 + m ==> b[j] == name[j - 6];
    assert forall j :: 7 + m <= j < 7 + m + |text| ==> b[j] == text[j - 7 - m];
  }

  /** Round 0 of a short event descriptor. */
  lemma ShortEventTitle(langs: LangTable, s: seq<Byte>, d: int, name: seq<Byte>)
    requires At(s, d + 5) == |name| && StringField(s, d + 6, |name|) == Chars(name)
    ensures ShortEvent(langs, s, d, 0) == if name == [] then [] else [TitleSet(Chars(name), XmlLang(langs, s, d + 2))]
  {
  }

  /** Round 1 of a short event descriptor whose name is m bytes long. */
  lemma ShortEventText(langs: LangTable, s: seq<Byte>, d: int, m: int, text: seq<Byte>)
    requires At(s, d + 5) == m && At(s, d + (6 + m)) == |text|
    requires StringField(s, d + (7 + m), |text|) == Chars(text)
    ensures ShortEvent(langs, s, d, 1) == if text == [] then [] else [SubTitleSet(Chars(text), XmlLang(langs, s, d + 2))]
  {
    assert d + 6 + m == d + (6 + m) && d + 7 + m == d + (7 + m);
  }

  /** The result of the item loop of an extended event descriptor: the
      items and the offset where the loop stopped. */
  datatype Items = Items(pairs: seq<Pair>, next: int)

  /** The item loop of parseLongEventDescription from p, after the items
      acc: a name and a value, each after its length byte, while p is before
      the end of the items. None when one of its asserts fails: a string
      that does not end before the last byte of the descriptor. */
  function LongItems(s: seq<Byte>, p: int, itemsEnd: int, dataEnd: int, acc: seq<Pair>): (r: Option<Items>)
    ensures r.Some? ==> acc <= r.value.pairs
    ensures r.Some? && p >= itemsEnd ==> r.value == Items(acc, p)
    ensures r.Some? && p < itemsEnd ==> itemsEnd <= r.value.next < dataEnd && |r.value.pairs| > |acc|
    decreases itemsEnd - p
  {
    if p >= itemsEnd then Some(Items(acc, p))
    else
      var q := p + 1 + At(s, p);
      if q >= dataEnd then None
      else
        var next := q + 1 + At(s, q);
        if next >= dataEnd then None
        else LongItems(s, next, itemsEnd, dataEnd, acc + [Pair(StringField(s, p + 1, At(s, p)), StringField(s, q + 1, At(s, q)))])
  }

  /** parseLongEventDescription for an extended event descriptor at d. Its
      element opens with descriptor 0 and closes with the last descriptor;
      a descriptor whose numbers, item length and text length are all 0
      prints nothing. */
  function LongEvent(langs: LangTable, s: seq<Byte>, d: int): (r: Option<seq<Effect>>)
    ensures r.None? ==> At(s, d + 6) != 0
    ensures r.Some? ==> |r.value| <= 1 && forall e | e in r.value :: e.Desc?
    ensures r.Some? ==> (r.value == [] <==> At(s, d + 2) == 0 && At(s, d + 6) == 0 && At(s, d + 7) == 0)
    ensures r.Some? && r.value != [] ==>
      (r.value[0].open <==> At(s, d + 2) / 16 == 0) && (r.value[0].close <==> At(s, d + 2) / 16 == At(s, d + 2) % 16)
  {
    LongFinish(langs, s, d, LongItems(s, d + 7, d + 7 + At(s, d + 6), DescriptorEnd(s, d), []))
  }

  /** What follows the item loop: nothing when an item overran the
      descriptor, no element for an empty descriptor, otherwise the element
      with the items and the text after them. */
  function LongFinish(langs: LangTable, s: seq<Byte>, d: int, items: Option<Items>): Option<seq<Effect>>
  {
    var n := At(s, d + 2);
    if items.None? then None
    else if n == 0 && At(s, d + 6) == 0 && At(s, d + 7) == 0 then Some([])
    else
      var next := items.value.next;
      var text := if At(s, next) != 0 then Some(StringField(s, next + 1, At(s, next))) else None;
      Some([Desc(XmlLang(langs, s, d + 3), n / 16 == 0, items.value.pairs, text, n / 16 == n % 16)])
  }

  /** parseLongEventDescription: the item loop over the descriptor's bytes. */
  method LongEventIn(langs: LangTable, s: seq<Byte>, d: int) returns (r: Option<seq<Effect>>)
    ensures r == LongEvent(langs, s, d)
  {
    var itemsEnd, dataEnd := d + 7 + At(s, d + 6), DescriptorEnd(s, d);
    var p := d + 7;
    var pairs: seq<Pair> := [];
    ghost var all := LongItems(s, d + 7, itemsEnd, dataEnd, []);
    while p < itemsEnd
      invariant all == LongItems(s, p, itemsEnd, dataEnd, pairs)
      decreases itemsEnd - p
    {
      var q := p + 1 + At(s, p);
      if q >= dataEnd {
        return LongFinish(langs, s, d, None);
      }
      var next := q + 1 + At(s, q);
      if next >= dataEnd {
        return LongFinish(langs, s, d, None);
      }
      var item := Pair(StringField(s, p + 1, At(s, p)), StringField(s, q + 1, At(s, q)));
      LongItemStep(s, p, itemsEnd, dataEnd, pairs, next, item);
      pairs := pairs + [item];
      p := next;
    }
    return LongFinish(langs, s, d, Some(Items(pairs, p)));
  }

  /** One turn of the item loop: the item at p joins the items read. */
  lemma LongItemStep(s: seq<Byte>, p: int, itemsEnd: int, dataEnd: int, acc: seq<Pair>, next: int, item: Pair)
    requires p < itemsEnd && p + 1 + At(s, p) < dataEnd
    requires next == p + 1 + At(s, p) + 1 + At(s, p + 1 + At(s, p)) && next < dataEnd
    requires item == Pair(StringField(s, p + 1, At(s, p)), StringField(s, p + 1 + At(s, p) + 1, At(s, p + 1 + At(s, p))))
    ensures LongItems(s, p, itemsEnd, dataEnd, acc) == LongItems(s, next, itemsEnd, dataEnd, acc + [item])
  {
  }

  /** parseComponentDescription for a component descriptor at d in rounds
      4 to 7. The first video component sets the aspect in round 5 and the
      first audio component the audio kind in round 6; in round 4 every
      audio component sets the language, the first one printed as an
      element and the others as comments; teletext components are printed
      in round 7. */
  function Component(langs: LangTable, s: seq<Byte>, d: int, round: nat, seen: nat, pds: nat): (r: Scan)
    requires 4 <= round <= 7
    ensures r.Done? && |r.effects| <= 1 && r.pds == pds
    ensures forall e | e in r.effects :: Rank(e) == round
    ensures r.seen == (if r.effects != [] && round != 7 then seen + 1 else seen)
    ensures seen > 0 && (round == 5 || round == 6) ==> r.effects == []
  {
    var stream := At(s, d + 2) % 16;
    var ctype := At(s, d + 3);
    if stream == 1 && round == 5 && seen == 0 then Done([Video((ctype as int + 3) % 4)], seen + 1, pds)
    else if stream == 2 && round == 6 && seen == 0 then Done([Audio(ctype)], seen + 1, pds)
    else if stream == 2 && round == 4 then Done([Language(XmlLang(langs, s, d + 5), seen == 0)], seen + 1, pds)
    else if stream == 3 && round == 7 then Done([Teletext(XmlLang(langs, s, d + 5))], seen, pds)
    else Done([], seen, pds)
  }

  /** The aspect of a video component is (component_type - 1) & 3: types
      0x01 to 0x04 give 4:3, 16:9 with and without pan vectors and more
      than 16:9, and the high-definition types 0x09 to 0x0C the same. */
  lemma AspectOfComponentType(langs: LangTable, s: seq<Byte>, d: int)
    requires At(s, d + 2) % 16 == 1 && 1 <= At(s, d + 3) % 8 <= 4
    ensures Component(langs, s, d, 5, 0, 0).effects == [Video(At(s, d + 3) % 8 - 1)]
  {
    var t := At(s, d + 3);
    assert (t + 3) % 4 == t % 8 - 1 by {
      assert t == 8 * (t / 8) + t % 8;
    }
  }

  /** The content pairs of a content descriptor from p to end: the code of
      each pair is the byte at offset off in the pair. A code is printed the
      first time it occurs; code 0 never is. */
  function CategoryScan(s: seq<Byte>, p: int, end: int, off: nat, once: set<int>): (r: seq<Effect>)
    ensures forall e | e in r :: e.Category? && 0 < e.code
    decreases end - p
  {
    if p >= end then []
    else
      var c := At(s, p + off);
      if c > 0 && c !in once then [Category(c)] + CategoryScan(s, p + 2, end, off, once + {c})
      else CategoryScan(s, p + 2, end, off, once)
  }

  /** parseContentDescription as written: the little-endian layout of struct
      nibble_content puts the two content nibbles in the second byte of the
      pair, which on the wire is the user byte, and the loop ends at
      data + descriptor_length, two bytes short, so the last pair is never
      read. */
  function ContentAsWritten(s: seq<Byte>, d: int): (r: seq<Effect>)
    ensures forall e | e in r :: e.Category? && 0 < e.code
  {
    CategoryScan(s, d + 2, d + At(s, d + 1), 1, {})
  }

  /** parseContentDescription with the content nibbles in the first byte of
      each pair and every pair of the descriptor read. */
  function Content(s: seq<Byte>, d: int): (r: seq<Effect>)
    ensures forall e | e in r :: e.Category? && 0 < e.code
  {
    CategoryScan(s, d + 2, DescriptorEnd(s, d), 0, {})
  }

  /** The content pass under a reading: as written or corrected. */
  function ContentBy(rd: Reading, s: seq<Byte>, d: int): seq<Effect>
  {
    if rd.AsWritten? then ContentAsWritten(s, d) else Content(s, d)
  }

  /** The pair offsets a scan from p visits. */
  predicate PairAt(p: int, end: int, q: int)
  {
    p <= q < end && (q - p) % 2 == 0
  }

  /** Code c is the code of some pair of the scan. */
  ghost predicate Occurs(s: seq<Byte>, p: int, end: int, off: nat, c: int)
  {
    exists q :: PairAt(p, end, q) && At(s, q + off) == c
  }

  /** Every category printed is a non-zero code of some pair that was not
      printed before. */
  lemma {:induction false} CategoriesNew(s: seq<Byte>, p: int, end: int, off: nat, once: set<int>)
    ensures forall e | e in CategoryScan(s, p, end, off, once) ::
      0 < e.code && e.code !in once && Occurs(s, p, end, off, e.code)
    decreases end - p
  {
    if p < end {
      var c := At(s, p + off);
      var once' := if c > 0 && c !in once then once + {c} else once;
      CategoriesNew(s, p + 2, end, off, once');
      forall e | e in CategoryScan(s, p + 2, end, off, once')
        ensures Occurs(s, p, end, off, e.code)
      {
        var q :| PairAt(p + 2, end, q) && At(s, q + off) == e.code;
        assert PairAt(p, end, q);
      }
      assert PairAt(p, end, p);
    }
  }

  /** No two effects of the list are the same. */
  predicate Distinct(r: seq<Effect>)
  {
    forall i, j :: 0 <= i < j < |r| ==> r[i] != r[j]
  }

  /** No category is printed twice. */
  lemma {:induction false} CategoriesDistinct(s: seq<Byte>, p: int, end: int, off: nat, once: set<int>)
    ensures Distinct(CategoryScan(s, p, end, off, once))
    decreases end - p
  {
    if p < end {
      var c := At(s, p + off);
      if c > 0 && c !in once {
        CategoriesDistinct(s, p + 2, end, off, once + {c});
        CategoriesNew(s, p + 2, end, off, once + {c});
        var rest := CategoryScan(s, p + 2, end, off, once + {c});
        var r := [Category(c)] + rest;
        assert CategoryScan(s, p, end, off, once) == r;
        forall i, j | 0 <= i < j < |r|
          ensures r[i] != r[j]
        {
          assert r[j] == rest[j - 1] && rest[j - 1] in rest;
          if i > 0 {
            assert r[i] == rest[i - 1];
          } else {
            assert rest[j - 1].code != c;
          }
        }
      } else {
        CategoriesDistinct(s, p + 2, end, off, once);
      }
    }
  }

  /** Every non-zero code of a pair not printed before is printed. */
  lemma {:induction false} CategoriesCover(s: seq<Byte>, p: int, end: int, off: nat, once: set<int>)
    ensures forall q :: PairAt(p, end, q) && At(s, q + off) != 0 && At(s, q + off) !in once ==>
      Category(At(s, q + off)) in CategoryScan(s, p, end, off, once)
    decreases end - p
  {
    if p < end {
      var c := At(s, p + off);
      var once' := if c > 0 && c !in once then once + {c} else once;
      CategoriesCover(s, p + 2, end, off, once');
      var head := if c > 0 && c !in once then [Category(c)] else [];
      var rest := CategoryScan(s, p + 2, end, off, once');
      assert CategoryScan(s, p, end, off, once) == head + rest;
      forall q | PairAt(p, end, q) && At(s, q + off) != 0 && At(s, q + off) !in once
        ensures Category(At(s, q + off)) in head + rest
      {
        if At(s, q + off) == c {
          assert Category(c) in head;
        } else {
          assert PairAt(p + 2, end, q);
          assert Category(At(s, q + off)) in rest;
        }
      }
    }
  }

  /** A content descriptor with one pair, movie/drama (0x10), prints no
      category as written; with two pairs, the codes 0x10 and 0x20 are
      missed because the user bytes (0) are read instead. Both are found
      with the intended layout. */
  lemma ContentPairsMissed()
    ensures ContentAsWritten([0x54, 2, 0x10, 0x00], 0) == []
    ensures Content([0x54, 2, 0x10, 0x00], 0) == [Category(0x10)]
    ensures ContentAsWritten([0x54, 4, 0x10, 0x00, 0x20, 0x00], 0) == []
    ensures Content([0x54, 4, 0x10, 0x00, 0x20, 0x00], 0) == [Category(0x10), Category(0x20)]
  {
    var s := [0x54, 2, 0x10, 0x00];
    assert CategoryScan(s, 4, 4, 0, {0x10}) == [];
    var t := [0x54, 4, 0x10, 0x00, 0x20, 0x00];
    assert CategoryScan(t, 4, 4, 1, {}) == [];
    assert CategoryScan(t, 6, 6, 0, {0x10, 0x20}) == [];
    assert CategoryScan(t, 4, 6, 0, {0x10}) == [Category(0x20)];
  }

  /** parseContentDescription, with its `once` set of codes already printed
      as an array of 256 flags written in place. As written the loop reads
      the second byte of each pair up to data + descriptor_length; corrected
      it reads the first byte of each pair up to the descriptor's end. */
  method ContentIn(rd: Reading, s: seq<Byte>, d: int) returns (r: seq<Effect>)
    ensures r == ContentBy(rd, s, d)
    ensures rd.AsWritten? ==> r == CategoryScan(s, d + 2, d + At(s, d + 1), 1, {})
    ensures rd.Corrected? ==> r == CategoryScan(s, d + 2, DescriptorEnd(s, d), 0, {})
  {
    if rd.AsWritten? {
      r := CategoriesIn(s, d + 2, d + At(s, d + 1), 1);
    } else {
      r := CategoriesIn(s, d + 2, DescriptorEnd(s, d), 0);
    }
  }

  /** The loop of parseContentDescription over the pairs from p to end, the
      code of each pair at offset off in it. */
  method CategoriesIn(s: seq<Byte>, p0: int, end: int, off: nat) returns (r: seq<Effect>)
    ensures r == CategoryScan(s, p0, end, off, {})
  {
    var once := new bool[256](_ => false);
    ghost var printed: set<int> := {};
    var p := p0;
    r := [];
    ghost var goal := CategoryScan(s, p, end, off, printed);
    assert r + goal == goal;
    while p < end
      invariant forall c :: 0 <= c < 256 ==> (once[c] <==> c in printed)
      invariant r + CategoryScan(s, p, end, off, printed) == goal
      decreases end - p
    {
      var c1 := At(s, p + off);
      ghost var r0, printed0 := r, printed;
      if c1 > 0 && !once[c1] {
        once[c1] := true;
        r := r + [Category(c1)];
        printed := printed + {c1};
      }
      CategoryStep(s, p, end, off, r0, printed0, r, printed);
      p := p + 2;
    }
  }

  /** One turn of the content loop: the pair at p moves from the pairs
      still to scan to the categories printed. */
  lemma CategoryStep(s: seq<Byte>, p: int, end: int, off: nat, r: seq<Effect>, once: set<int>, r': seq<Effect>, once': set<int>)
    requires p < end
    requires var c := At(s, p + off);
      if c > 0 && c !in once then r' == r + [Category(c)] && once' == once + {c} else r' == r && once' == once
    ensures r' + CategoryScan(s, p + 2, end, off, once') == r + CategoryScan(s, p, end, off, once)
  {
    var c := At(s, p + off);
    if c > 0 && c !in once {
      var rest := CategoryScan(s, p + 2, end, off, once');
      assert CategoryScan(s, p, end, off, once) == [Category(c)] + rest;
      assert r + ([Category(c)] + rest) == (r + [Category(c)]) + rest;
    }
  }

  /** The items of a parental rating descriptor from p to end: ratings 0x01
      to 0x0F are minimum ages of rating + 3; 0x00 and the broadcaster's
      own values 0x10 to 0xFF print nothing. */
  function Ratings(s: seq<Byte>, p: int, end: int): (r: seq<Effect>)
    ensures forall e | e in r :: e.Rating? && 4 <= e.value <= 18
    decreases end - p
  {
    if p >= end then []
    else
      var rating := At(s, p + 3);
      (if 1 <= rating <= 15 then [Rating(rating + 3)] else []) + Ratings(s, p + 4, end)
  }

  /** parseRatingDescription for a parental rating descriptor at d. Its loop
      also ends at data + descriptor_length, but with 4-byte items that
      still reaches every item. */
  function ParentalRating(s: seq<Byte>, d: int): (r: seq<Effect>)
    ensures At(s, d + 1) <= 2 ==> r == []
  {
    Ratings(s, d + 2, d + At(s, d + 1))
  }

  /** The ages of a list of ratings, independent of any layout. */
  function Ages(ratings: seq<Byte>): seq<Effect>
  {
    if ratings == [] then []
    else (if 1 <= ratings[0] <= 15 then [Rating(ratings[0] + 3)] else []) + Ages(ratings[1..])
  }

  /** The bytes of a parental rating descriptor: country code and rating per item. */
  function EncodeRatings(country: seq<Byte>, ratings: seq<Byte>): (r: seq<Byte>)
    requires |country| == 3
    ensures |r| == 4 * |ratings|
  {
    if ratings == [] then [] else country + [ratings[0]] + EncodeRatings(country, ratings[1..])
  }

  /** Read back, the items of a parental rating descriptor give the ages
      of their ratings, in order. */
  lemma {:induction false} RatingsRoundTrip(s: seq<Byte>, p: int, end: int, country: seq<Byte>, ratings: seq<Byte>)
    requires |country| == 3 && 0 <= p && p + 4 * |ratings| <= |s| && end == p + 4 * |ratings| - 2
    requires s[p..p + 4 * |ratings|] == EncodeRatings(country, ratings)
    ensures Ratings(s, p, end) == Ages(ratings)
    decreases |ratings|
  {
    if ratings != [] {
      var b := EncodeRatings(country, ratings);
      var b' := EncodeRatings(country, ratings[1..]);
      assert b == country + [ratings[0]] + b';
      AtSlice(s, p, b, 3);
      assert b[4..] == b';
      assert s[p + 4..p + 4 + |b'|] == b[4..];
      RatingsRoundTrip(s, p + 4, end, country, ratings[1..]);
      var item := if 1 <= ratings[0] <= 15 then [Rating(ratings[0] + 3)] else [];
      assert Ages(ratings) == item + Ages(ratings[1..]);
      assert Ratings(s, p, end) == item + Ratings(s, p + 4, end);
    }
  }

  /** Every item of a well-formed parental rating descriptor is read,
      despite the loop bound. */
  lemma ParentalRatingReadsAll(s: seq<Byte>, d: int, country: seq<Byte>, ratings: seq<Byte>)
    requires |country| == 3 && 0 <= d && d + 2 + 4 * |ratings| <= |s|
    requires s[d + 1] == 4 * |ratings| && s[d + 2..d + 2 + 4 * |ratings|] == EncodeRatings(country, ratings)
    ensures ParentalRating(s, d) == Ages(ratings)
  {
    RatingsRoundTrip(s, d + 2, d + At(s, d + 1), country, ratings);
    ParentalRatingItems(s, d);
  }

  /** ParentalRating is the item scan up to descriptor_length, stated on its
      own so that proofs about it need not unfold it beside other facts. */
  lemma ParentalRatingItems(s: seq<Byte>, d: int)
    ensures ParentalRating(s, d) == Ratings(s, d + 2, d + At(s, d + 1))
  {
  }

  /** parseRatingDescription: the loop over the items. */
  method RatingsIn(s: seq<Byte>, d: int) returns (r: seq<Effect>)
    ensures r == ParentalRating(s, d)
  {
    var p, end := d + 2, d + At(s, d + 1);
    r := [];
    ghost var goal := Ratings(s, p, end);
    assert r + goal == goal;
    while p < end
      invariant r + Ratings(s, p, end) == goal
      decreases end - p
    {
      var rating := At(s, p + 3);
      ghost var before := r;
      if 1 <= rating <= 15 {
        r := r + [Rating(rating + 3)];
      }
      RatingsStep(s, p, end, before, r);
      p := p + 4;
    }
  }

  /** One turn of the rating loop: the item at p moves from the ratings
      still to read to the ratings printed. */
  lemma RatingsStep(s: seq<Byte>, p: int, end: int, r: seq<Effect>, r': seq<Effect>)
    requires p < end
    requires r' == if 1 <= At(s, p + 3) <= 15 then r + [Rating(At(s, p + 3) + 3)] else r
    ensures r' + Ratings(s, p + 4, end) == r + Ratings(s, p, end)
  {
    var rest := Ratings(s, p + 4, end);
    var item := if 1 <= At(s, p + 3) <= 15 then [Rating(At(s, p + 3) + 3)] else [];
    assert Ratings(s, p, end) == item + rest;
    assert r' == r + item;
    assert r + (item + rest) == (r + item) + rest;
  }

  /** The entries of a content identifier descriptor from p to end, as
      TS 102 323 section 12 lays them out: cridType in the top six bits and
      crid_location in the low two. A crid carried in the descriptor (location
      0) is printed, and set as the programme crid for types 0x01 and 0x31 or
      as the series crid for 0x02 and 0x32; a crid in the content identifier
      table (location 1) ends the process with exit(1); the other locations
      are skipped as 3 bytes. */
  function Crids(s: seq<Byte>, p: int, end: int): (r: Option<seq<Effect>>)
    ensures r.Some? ==> forall e | e in r.value :: e.Crid? && e.cridType < 64
    ensures r.None? ==> exists q :: p <= q < end && At(s, q) % 4 == 1
    decreases end - p
  {
    if p >= end then Some([])
    else
      var b := At(s, p);
      if b % 4 == 0 then
        var rest := Crids(s, DescriptorEnd(s, p), end);
        if rest.None? then None else Some([Crid(b / 4, StringField(s, p + 2, At(s, p + 1)))] + rest.value)
      else if b % 4 == 1 then None
      else Crids(s, p + 3, end)
  }

  /** parseContentIdentifierDescription for a descriptor at d; its loop, too,
      ends at data + descriptor_length. */
  function ContentIdentifier(s: seq<Byte>, d: int): (r: Option<seq<Effect>>)
    ensures r.Some? ==> forall e | e in r.value :: e.Crid? && e.cridType < 64
    ensures r.None? ==> exists q :: d + 2 <= q < d + At(s, d + 1) && At(s, q) % 4 == 1
  {
    Crids(s, d + 2, d + At(s, d + 1))
  }

  /** A crid carried in the descriptor: its type and its bytes. */
  datatype LocalCrid = LocalCrid(kind: nat, bytes: seq<Byte>)

  predicate ValidCrid(c: LocalCrid)
  {
    c.kind < 64 && 0 < |c.bytes| < 254 && forall j :: 0 <= j < |c.bytes| ==> c.bytes[j] != 0
  }

  /** Every crid in the list is valid. */
  predicate ValidCrids(cs: seq<LocalCrid>)
  {
    cs == [] || (ValidCrid(cs[0]) && ValidCrids(cs[1..]))
  }

  function EncodeCrids(cs: seq<LocalCrid>): (r: seq<Byte>)
    requires ValidCrids(cs)
  {
    if cs == [] then []
    else
      var head: seq<Byte> := [cs[0].kind * 4, |cs[0].bytes|];
      head + cs[0].bytes + EncodeCrids(cs[1..])
  }

  /** The effects of carried crids, in order. */
  function Carried(cs: seq<LocalCrid>): seq<Effect>
  {
    if cs == [] then [] else [Crid(cs[0].kind, Chars(cs[0].bytes))] + Carried(cs[1..])
  }

  /** The first carried crid read back, and where the others start. */
  lemma CridsHead(s: seq<Byte>, p: int, cs: seq<LocalCrid>)
    requires cs != [] && ValidCrids(cs)
    requires 0 <= p && p + |EncodeCrids(cs)| <= |s|
    requires s[p..p + |EncodeCrids(cs)|] == EncodeCrids(cs)
    ensures At(s, p) == cs[0].kind * 4 && At(s, p + 1) == |cs[0].bytes|
    ensures StringField(s, p + 2, |cs[0].bytes|) == Chars(cs[0].bytes)
    ensures var q, tail := p + 2 + |cs[0].bytes|, EncodeCrids(cs[1..]);
      q + |tail| == p + |EncodeCrids(cs)| && s[q..q + |tail|] == tail
  {
    var b := EncodeCrids(cs);
    var c := cs[0];
    var n := |c.bytes|;
    var head: seq<Byte> := [c.kind * 4, n];
    assert b == head + c.bytes + EncodeCrids(cs[1..]);
    AtSlice(s, p, b, 0);
    AtSlice(s, p, b, 1);
    assert b[2..2 + n] == c.bytes;
    StringFieldSlice(s, p, b, 2, n);
    assert b[2 + n..] == EncodeCrids(cs[1..]);
    assert s[p + 2 + n..p + |b|] == b[2 + n..];
  }

  lemma KindByte(k: nat)
    ensures (k * 4) % 4 == 0 && (k * 4) / 4 == k
  {
  }

  /** A carried crid in front of the entries that follow it. */
  lemma CarriedStep(s: seq<Byte>, p: int, end: int)
    requires p < end && At(s, p) % 4 == 0
    ensures Crids(s, p, end)
         == Prepend([Crid(At(s, p) / 4, StringField(s, p + 2, At(s, p + 1)))], Crids(s, DescriptorEnd(s, p), end))
  {
  }

  /** Read back, carried crids come out in order. */
  lemma {:induction false} CridsRoundTrip(s: seq<Byte>, p: int, end: int, cs: seq<LocalCrid>)
    requires ValidCrids(cs)
    requires 0 <= p && p + |EncodeCrids(cs)| <= |s| && end == p + |EncodeCrids(cs)|
    requires s[p..p + |EncodeCrids(cs)|] == EncodeCrids(cs)
    ensures Crids(s, p, end) == Some(Carried(cs))
    decreases |cs|
  {
    if cs != [] {
      var c := cs[0];
      CridsHead(s, p, cs);
      KindByte(c.kind);
      var q := DescriptorEnd(s, p);
      assert q == p + 2 + |c.bytes|;
      CridsRoundTrip(s, q, end, cs[1..]);
      CarriedStep(s, p, end);
      assert Crids(s, p, end) == Prepend([Crid(c.kind, Chars(c.bytes))], Some(Carried(cs[1..])));
    }
  }

  /** The tags parseDescription names in its switch; any other tag is
      reported in round 0. */
  predicate KnownTag(tag: Byte)
  {
    tag in {0x00, 0x4D, 0x4E, 0x4F, 0x50, 0x52, 0x53, 0x54, 0x55, 0x5E, 0x5F,
            0x64, 0x69, 0x76, 0x81, 0x82, 0x83, 0x84, 0x85, 0x86}
  }

  /** parsePrivateDataSpecifier: the 32-bit private_data_specifier. */
  function PrivateDataSpecifier(s: seq<Byte>, d: int): nat
  {
    Hilo4(At(s, d + 2), At(s, d + 3), At(s, d + 4), At(s, d + 5))
  }

  /** An effect that sets a title. */
  predicate Titled(es: seq<Effect>)
  {
    exists i :: 0 <= i < |es| && es[i].TitleSet?
  }

  /** The kind of effect that takes `seen` from 0: the video of round 5, the audio of round 6. */
  predicate FirstOnly(round: nat, e: Effect)
  {
    (round == 5 && e.Video?) || (round == 6 && e.Audio?)
  }

  /** No effect of that kind. */
  predicate NoneOf(round: nat, es: seq<Effect>)
  {
    forall i :: 0 <= i < |es| ==> !FirstOnly(round, es[i])
  }

  /** At most one effect of that kind. */
  predicate AtMostOne(round: nat, es: seq<Effect>)
  {
    forall i, j :: 0 <= i < j < |es| ==> !(FirstOnly(round, es[i]) && FirstOnly(round, es[j]))
  }

  /** One descriptor at d in one round of parseDescription. The specifier
      only chooses between two break statements of tags 0x81 and 0x82 that
      lead to the same place, so it changes nothing. */
  function Descriptor(rd: Reading, langs: LangTable, s: seq<Byte>, d: int, round: nat, seen: nat, pds: nat): (r: Scan)
    requires round < 8
    ensures r.Done? ==> r.seen >= seen && forall e | e in r.effects :: Rank(e) == round
  {
    var tag := At(s, d);
    if tag == 0x4D then
      var es := if round <= 1 then ShortEvent(langs, s, d, round) else [];
      assert round == 0 && es != [] ==> es[0].TitleSet?;
      Done(es, seen, pds)
    else if tag == 0x4E && round == 2 then
      var l := LongEvent(langs, s, d);
      if l.None? then Exit else Done(l.value, seen, pds)
    else if tag == 0x50 && 4 <= round then Component(langs, s, d, round, seen, pds)
    else if tag == 0x54 && round == 3 then Done(ContentBy(rd, s, d), seen, pds)
    else if tag == 0x55 && round == 7 then Done(ParentalRating(s, d), seen, pds)
    else if tag == 0x5F then Done([], seen, PrivateDataSpecifier(s, d))
    else if tag == 0x76 && round == 5 then
      var c := ContentIdentifier(s, d);
      if c.None? then Exit
      else
        assert forall i :: 0 <= i < |c.value| ==> c.value[i].Crid?;
        Done(c.value, seen, pds)
    else if KnownTag(tag) || round != 0 then Done([], seen, pds)
    else Done([Unknown(tag, At(s, d + 1))], seen, pds)
  }

  /** What one descriptor does in a round: a first-only kind (video,
      audio, subtitle) is printed only while `seen` is 0, and then alone; only
      the long-event and content-identifier rounds can end the call; round 0
      prints a title iff the descriptor is a titled short event; only the
      private-data-specifier tag changes the specifier. */
  lemma DescriptorFacts(rd: Reading, langs: LangTable, s: seq<Byte>, d: int, round: nat, seen: nat, pds: nat)
    requires round < 8
    ensures var r := Descriptor(rd, langs, s, d, round, seen, pds);
      && (r.Done? && !NoneOf(round, r.effects) ==> seen == 0 && |r.effects| == 1 && r.seen == 1)
      && (r.Exit? ==> round == 2 || round == 5)
      && (round == 0 ==> r.Done? && (Titled(r.effects) <==> IsTitle(s, d)))
      && (At(s, d) != 0x5F ==> r.Exit? || r.pds == pds)
  {
    var tag := At(s, d);
    if tag == 0x4D {
      var es := if round <= 1 then ShortEvent(langs, s, d, round) else [];
      assert round == 0 && es != [] ==> es[0].TitleSet?;
    } else if tag == 0x76 && round == 5 {
      var c := ContentIdentifier(s, d);
      if c.Some? {
        assert forall i :: 0 <= i < |c.value| ==> c.value[i].Crid?;
        assert NoneOf(round, c.value);
      }
    }
  }

  /** The content descriptor 54 02 10 00 in the content pass prints no
      category as written, and movie/drama (0x10) corrected. */
  lemma ContentDescriptorReadings(langs: LangTable)
    ensures Descriptor(AsWritten, langs, [0x54, 2, 0x10, 0x00], 0, 3, 0, 0) == Done([], 0, 0)
    ensures Descriptor(Corrected, langs, [0x54, 2, 0x10, 0x00], 0, 3, 0, 0) == Done([Category(0x10)], 0, 0)
  {
    ContentPairsMissed();
  }

  /** One round over the descriptors at the offsets ds, from the given
      `seen` counter and specifier. */
  function Round(rd: Reading, langs: LangTable, s: seq<Byte>, ds: seq<int>, round: nat, seen: nat, pds: nat): (r: Scan)
    requires round < 8
    ensures r.Done? ==> r.seen >= seen
    decreases |ds|
  {
    if ds == [] then Done([], seen, pds)
    else
      var h := Descriptor(rd, langs, s, ds[0], round, seen, pds);
      if h.Exit? then Exit
      else
        var t := Round(rd, langs, s, ds[1..], round, h.seen, h.pds);
        if t.Exit? then Exit else Done(h.effects + t.effects, t.seen, t.pds)
  }
  /** Every effect of a round is of that round's rank. */
  lemma {:induction false} RoundRanks(rd: Reading, langs: LangTable, s: seq<Byte>, ds: seq<int>, round: nat, seen: nat, pds: nat)
    requires round < 8
    ensures var r := Round(rd, langs, s, ds, round, seen, pds);
      r.Done? ==> forall e | e in r.effects :: Rank(e) == round
    decreases |ds|
  {
    if ds != [] {
      var h := Descriptor(rd, langs, s, ds[0], round, seen, pds);
      if h.Done? {
        RoundRanks(rd, langs, s, ds[1..], round, h.seen, h.pds);
      }
    }
  }


  /** The rounds from `round` to 7; each starts with `seen` at 0 and the
      specifier is kept from round to round. */
  function Rounds(rd: Reading, langs: LangTable, s: seq<Byte>, ds: seq<int>, round: nat, pds: nat): (r: Scan)
    requires round <= 8
    ensures r.Done? ==> r.seen == 0
    decreases 8 - round
  {
    if round == 8 then Done([], 0, pds)
    else
      var h := Round(rd, langs, s, ds, round, 0, pds);
      if h.Exit? then Exit
      else
        var t := Rounds(rd, langs, s, ds, round + 1, h.pds);
        if t.Exit? then Exit else Done(h.effects + t.effects, 0, t.pds)
  }

  /** parseDescription over the len bytes of a descriptor loop at from: its
      effects come in the order of the rounds. */
  function Description(rd: Reading, langs: LangTable, s: seq<Byte>, from: int, len: nat): (r: Scan)
    ensures r.Done? ==> Ordered(r.effects)
  {
    RoundsOrdered(rd, langs, s, Offsets(s, from, from + len), 0, 0);
    Rounds(rd, langs, s, Offsets(s, from, from + len), 0, 0)
  }

  /** The effects come in the order of the rounds: titles and unknown tags,
      sub-titles, descriptions, categories, languages, video and crids,
      audio, then teletext and ratings. */
  predicate Ordered(es: seq<Effect>)
  {
    forall i, j :: 0 <= i < j < |es| ==> Rank(es[i]) <= Rank(es[j])
  }

  /** The effects of one round before those of the later rounds stay in order. */
  lemma OrderedConcat(a: seq<Effect>, b: seq<Effect>, round: nat)
    requires forall e | e in a :: Rank(e) == round
    requires Ordered(b) && forall e | e in b :: Rank(e) > round
    ensures Ordered(a + b) && forall e | e in a + b :: Rank(e) >= round
  {
    var es := a + b;
    assert forall i :: 0 <= i < |a| ==> es[i] == a[i] && a[i] in a;
    assert forall i :: |a| <= i < |es| ==> es[i] == b[i - |a|] && b[i - |a|] in b;
  }

  lemma {:induction false} RoundsOrdered(rd: Reading, langs: LangTable, s: seq<Byte>, ds: seq<int>, round: nat, pds: nat)
    requires round <= 8
    ensures var r := Rounds(rd, langs, s, ds, round, pds);
      r.Done? ==> Ordered(r.effects) && forall e | e in r.effects :: Rank(e) >= round
    decreases 8 - round
  {
    if round < 8 {
      var h := Round(rd, langs, s, ds, round, 0, pds);
      RoundRanks(rd, langs, s, ds, round, 0, pds);
      if h.Done? {
        RoundsOrdered(rd, langs, s, ds, round + 1, h.pds);
        var t := Rounds(rd, langs, s, ds, round + 1, h.pds);
        if t.Done? {
          OrderedConcat(h.effects, t.effects, round);
        }
      }
    }
  }

  /** Joining two runs of effects, where one has none of the kind and the
      other at most one. */
  lemma FirstOnlyConcat(w: nat, a: seq<Effect>, b: seq<Effect>)
    requires (NoneOf(w, a) && AtMostOne(w, b)) || (AtMostOne(w, a) && NoneOf(w, b))
    ensures AtMostOne(w, a + b)
    ensures NoneOf(w, a + b) <==> NoneOf(w, a) && NoneOf(w, b)
  {
    var es := a + b;
    assert forall i :: 0 <= i < |a| ==> es[i] == a[i];
    assert forall i :: |a| <= i < |es| ==> es[i] == b[i - |a|];
    if !NoneOf(w, b) {
      var i :| 0 <= i < |b| && FirstOnly(w, b[i]);
      assert FirstOnly(w, es[|a| + i]);
    }
  }

  /** In rounds 5 and 6 at most one video or audio effect happens, none
      once `seen` is positive, and one leaves `seen` positive. */
  lemma {:induction false} RoundFirstOnly(rd: Reading, langs: LangTable, s: seq<Byte>, ds: seq<int>, round: nat, seen: nat, pds: nat)
    requires round == 5 || round == 6
    ensures var r := Round(rd, langs, s, ds, round, seen, pds);
      r.Done? ==>
        (AtMostOne(round, r.effects) && (seen > 0 ==> NoneOf(round, r.effects)) &&
         (!NoneOf(round, r.effects) ==> r.seen > 0))
    decreases |ds|
  {
    if ds != [] {
      var h := Descriptor(rd, langs, s, ds[0], round, seen, pds);
      DescriptorFacts(rd, langs, s, ds[0], round, seen, pds);
      if h.Done? {
        RoundFirstOnly(rd, langs, s, ds[1..], round, h.seen, h.pds);
        var t := Round(rd, langs, s, ds[1..], round, h.seen, h.pds);
        if t.Done? {
          FirstOnlyConcat(round, h.effects, t.effects);
        }
      }
    }
  }

  /** Effects of other rounds are not of the kind. */
  lemma OtherRanks(w: nat, es: seq<Effect>)
    requires forall e | e in es :: Rank(e) != w
    ensures NoneOf(w, es) && AtMostOne(w, es)
  {
    assert forall i :: 0 <= i < |es| ==> es[i] in es;
  }

  /** A description has at most one video and at most one audio element. */
  lemma {:induction false} RoundsFirstOnly(rd: Reading, langs: LangTable, s: seq<Byte>, ds: seq<int>, round: nat, pds: nat, which: nat)
    requires round <= 8 && (which == 5 || which == 6)
    ensures var r := Rounds(rd, langs, s, ds, round, pds);
      r.Done? ==> AtMostOne(which, r.effects) && (which < round ==> NoneOf(which, r.effects))
    decreases 8 - round
  {
    if round < 8 {
      var h := Round(rd, langs, s, ds, round, 0, pds);
      if h.Done? {
        RoundsFirstOnly(rd, langs, s, ds, round + 1, h.pds, which);
        var t := Rounds(rd, langs, s, ds, round + 1, h.pds);
        if t.Done? {
          if round == which {
            RoundFirstOnly(rd, langs, s, ds, round, 0, pds);
          } else {
            RoundRanks(rd, langs, s, ds, round, 0, pds);
            OtherRanks(which, h.effects);
          }
          FirstOnlyConcat(which, h.effects, t.effects);
        }
      }
    }
  }

  lemma DescriptionFirstOnly(rd: Reading, langs: LangTable, s: seq<Byte>, from: int, len: nat)
    ensures var r := Description(rd, langs, s, from, len);
      r.Done? ==> AtMostOne(5, r.effects) && AtMostOne(6, r.effects)
  {
    RoundsFirstOnly(rd, langs, s, Offsets(s, from, from + len), 0, 0, 5);
    RoundsFirstOnly(rd, langs, s, Offsets(s, from, from + len), 0, 0, 6);
  }

  lemma TitledConcat(a: seq<Effect>, b: seq<Effect>)
    ensures Titled(a + b) <==> Titled(a) || Titled(b)
  {
    var es := a + b;
    if Titled(a) {
      var i :| 0 <= i < |a| && a[i].TitleSet?;
      assert es[i] == a[i];
    }
    if Titled(b) {
      var i :| 0 <= i < |b| && b[i].TitleSet?;
      assert es[|a| + i] == b[i];
    }
  }

  /** Round 0 never ends the process, and it sets a title exactly when one
      of the descriptors is a short event descriptor with a non-empty name. */
  lemma {:induction false} RoundZeroTitles(rd: Reading, langs: LangTable, s: seq<Byte>, ds: seq<int>, seen: nat, pds: nat)
    ensures var r := Round(rd, langs, s, ds, 0, seen, pds);
      r.Done? && (Titled(r.effects) <==> exists k :: 0 <= k < |ds| && IsTitle(s, ds[k]))
    decreases |ds|
  {
    if ds != [] {
      var h := Descriptor(rd, langs, s, ds[0], 0, seen, pds);
      RoundZeroTitles(rd, langs, s, ds[1..], h.seen, h.pds);
      var t := Round(rd, langs, s, ds[1..], 0, h.seen, h.pds);
      TitledConcat(h.effects, t.effects);
      if exists k :: 1 <= k < |ds| && IsTitle(s, ds[k]) {
        var k :| 1 <= k < |ds| && IsTitle(s, ds[k]);
        assert IsTitle(s, ds[1..][k - 1]);
      }
      if exists k :: 0 <= k < |ds| - 1 && IsTitle(s, ds[1..][k]) {
        var k :| 0 <= k < |ds| - 1 && IsTitle(s, ds[1..][k]);
        assert IsTitle(s, ds[k + 1]);
      }
    }
  }

  lemma NotTitled(es: seq<Effect>)
    requires forall e | e in es :: Rank(e) > 0
    ensures !Titled(es)
  {
    assert forall i :: 0 <= i < |es| ==> es[i] in es;
  }

  /** validateDescription accepts an event exactly when parseDescription
      sets a title for it (when the process lives through it). */
  lemma ValidatedIffTitled(rd: Reading, langs: LangTable, s: seq<Byte>, from: int, len: nat)
    ensures var r := Description(rd, langs, s, from, len);
      r.Done? ==> (HasTitle(s, from, len) <==> Titled(r.effects))
  {
    var ds := Offsets(s, from, from + len);
    var r := Description(rd, langs, s, from, len);
    RoundZeroTitles(rd, langs, s, ds, 0, 0);
    if r.Done? {
      var h := Round(rd, langs, s, ds, 0, 0, 0);
      RoundsOrdered(rd, langs, s, ds, 1, h.pds);
      var t := Rounds(rd, langs, s, ds, 1, h.pds);
      assert r.effects == h.effects + t.effects;
      NotTitled(t.effects);
      TitledConcat(h.effects, t.effects);
    }
  }

  /** What an effect does to the event record: the setter it calls. */
  function Apply(v: E.Record, e: Effect): E.Record
  {
    match e
    case TitleSet(text, lang) => v.(titles := E.SetLangStr(v.titles, lang, text).0)
    case SubTitleSet(text, lang) => v.(subtitles := E.SetLangStr(v.subtitles, lang, text).0)
    case Video(aspect) => v.(aspect := aspect)
    case Audio(kind) => v.(audio := kind)
    case Language(lang, _) => v.(lang := Take(lang, E.LangSize - 1))
    case Crid(kind, crid) =>
      if kind == 0x01 || kind == 0x31 then v.(pcrid := Clip(crid))
      else if kind == 0x02 || kind == 0x32 then v.(scrid := Clip(crid))
      else v
    case _ => v
  }

  /** The record after the effects, in order. */
  function ApplyAll(v: E.Record, es: seq<Effect>): E.Record
    decreases |es|
  {
    if es == [] then v else Apply(ApplyAll(v, es[..|es| - 1]), es[|es| - 1])
  }

  lemma {:induction false} ApplyAppend(v: E.Record, a: seq<Effect>, b: seq<Effect>)
    ensures ApplyAll(v, a + b) == ApplyAll(ApplyAll(v, a), b)
    decreases |b|
  {
    if b != [] {
      assert (a + b)[..|a + b| - 1] == a + b[..|b| - 1];
      ApplyAppend(v, a, b[..|b| - 1]);
    } else {
      assert a + b == a;
    }
  }

  /** Elements that are only printed leave the record as it is. */
  lemma {:induction false} PrintedOnly(v: E.Record, es: seq<Effect>)
    requires forall e | e in es :: e.Desc? || e.Category? || e.Teletext? || e.Rating? || e.Unknown?
    ensures ApplyAll(v, es) == v
    decreases |es|
  {
    if es != [] {
      var init, last := es[..|es| - 1], es[|es| - 1];
      assert forall e | e in init :: e in es;
      PrintedOnly(v, init);
      assert last in es;
      ApplyPrinted(v, last);
    }
  }

  /** An element that is only printed leaves the record as it is. */
  lemma ApplyPrinted(v: E.Record, e: Effect)
    requires e.Desc? || e.Category? || e.Teletext? || e.Rating? || e.Unknown?
    ensures Apply(v, e) == v
  {
  }

  /** The descriptors never touch the identifier, the service, the times or
      the transport URI of an event. */
  lemma {:induction false} ApplyAllKeepsHeader(v: E.Record, es: seq<Effect>)
    ensures var w := ApplyAll(v, es);
      w.identifier == v.identifier && w.service == v.service && w.start == v.start &&
      w.duration == v.duration && w.transportUri == v.transportUri
    decreases |es|
  {
    if es != [] {
      ApplyAllKeepsHeader(v, es[..|es| - 1]);
      ApplyKeepsHeader(ApplyAll(v, es[..|es| - 1]), es[|es| - 1]);
    }
  }

  /** One effect keeps the header of the record. */
  lemma ApplyKeepsHeader(v: E.Record, e: Effect)
    ensures var w := Apply(v, e);
      w.identifier == v.identifier && w.service == v.service && w.start == v.start &&
      w.duration == v.duration && w.transportUri == v.transportUri
  {
  }

  /** A single effect. */
  lemma ApplySingle(v: E.Record, e: Effect)
    ensures ApplyAll(v, [e]) == Apply(v, e)
  {
    assert [e][..0] == [];
  }

  /** One more effect, applied last. */
  lemma ApplyOne(v: E.Record, a: seq<Effect>, e: Effect)
    ensures ApplyAll(v, a + [e]) == Apply(ApplyAll(v, a), e)
  {
    assert (a + [e])[..|a|] == a;
  }

  /** The effects so far put in front of what the rest finds. */
  function Prepend(acc: seq<Effect>, r: Option<seq<Effect>>): Option<seq<Effect>>
  {
    if r.None? then None else Some(acc + r.value)
  }

  /** What the rest of a round or of the rounds finds, after the effects so far. */
  function Then(acc: seq<Effect>, r: Scan): Scan
  {
    if r.Exit? then Exit else Done(acc + r.effects, r.seen, r.pds)
  }

  /** One descriptor of a round, after the effects so far. */
  lemma RoundStep(rd: Reading, langs: LangTable, s: seq<Byte>, ds: seq<int>, round: nat, seen: nat, pds: nat, acc: seq<Effect>, h: Scan)
    requires round < 8 && ds != [] && h == Descriptor(rd, langs, s, ds[0], round, seen, pds)
    ensures h.Exit? ==> Round(rd, langs, s, ds, round, seen, pds) == Exit
    ensures h.Done? ==> Then(acc, Round(rd, langs, s, ds, round, seen, pds)) == Then(acc + h.effects, Round(rd, langs, s, ds[1..], round, h.seen, h.pds))
  {
    if h.Done? {
      ThenAssoc(acc, h.effects, Round(rd, langs, s, ds[1..], round, h.seen, h.pds));
    }
  }

  /** parseEventDescription: the setter calls of a short event descriptor. */
  method ShortEventInto(ev: E.Event, langs: LangTable, s: seq<Byte>, d: int, round: nat) returns (es: seq<Effect>)
    requires round <= 1
    modifies ev
    ensures es == ShortEvent(langs, s, d, round)
    ensures ev.Value() == ApplyAll(old(ev.Value()), es)
  {
    ghost var before := ev.Value();
    var evtlen := At(s, d + 5);
    var lang := XmlLang(langs, s, d + 2);
    es := [];
    if round == 0 {
      if evtlen == 0 {
        return;
      }
      var evt := StringField(s, d + 6, evtlen);
      var slot := ev.SetTitle(evt, lang);
      es := [TitleSet(evt, lang)];
      assert ev.Value() == Apply(before, TitleSet(evt, lang));
      ApplySingle(before, TitleSet(evt, lang));
    } else {
      var dsc := StringField(s, d + 7 + evtlen, At(s, d + 6 + evtlen));
      if dsc != [] {
        var slot := ev.SetSubtitle(dsc, lang);
        es := [SubTitleSet(dsc, lang)];
        assert ev.Value() == Apply(before, SubTitleSet(dsc, lang));
        ApplySingle(before, SubTitleSet(dsc, lang));
      }
    }
  }

  /** parseComponentDescription: the setter calls of a component descriptor. */
  method ComponentInto(ev: E.Event, langs: LangTable, s: seq<Byte>, d: int, round: nat, seen: nat, pds: nat) returns (r: Scan)
    requires 4 <= round <= 7
    modifies ev
    ensures r == Component(langs, s, d, round, seen, pds)
    ensures ev.Value() == ApplyAll(old(ev.Value()), r.effects)
  {
    var stream := At(s, d + 2) % 16;
    var ctype := At(s, d + 3);
    r := Done([], seen, pds);
    if stream == 1 && round == 5 && seen == 0 {
      var aspect := (ctype as int + 3) % 4;
      ev.SetAspect(aspect);
      r := Done([Video(aspect)], seen + 1, pds);
      ApplySingle(old(ev.Value()), Video(aspect));
    } else if stream == 2 && round == 6 && seen == 0 {
      ev.SetAudio(ctype);
      r := Done([Audio(ctype)], seen + 1, pds);
      ApplySingle(old(ev.Value()), Audio(ctype));
    } else if stream == 2 && round == 4 {
      var lang := XmlLang(langs, s, d + 5);
      ev.SetLang(lang);
      r := Done([Language(lang, seen == 0)], seen + 1, pds);
      ApplySingle(old(ev.Value()), Language(lang, seen == 0));
    } else if stream == 3 && round == 7 {
      var lang := XmlLang(langs, s, d + 5);
      r := Done([Teletext(lang)], seen, pds);
      ApplySingle(old(ev.Value()), Teletext(lang));
    }
  }

  /** parseContentIdentifierDescription: the loop over the entries, with the
      setter call of each carried crid. */
  method CridsInto(ev: E.Event, s: seq<Byte>, d: int) returns (r: Option<seq<Effect>>)
    modifies ev
    ensures r == ContentIdentifier(s, d)
    ensures r.Some? ==> ev.Value() == ApplyAll(old(ev.Value()), r.value)
  {
    var p, end := d + 2, d + At(s, d + 1);
    var acc: seq<Effect> := [];
    assert Prepend([], ContentIdentifier(s, d)) == ContentIdentifier(s, d) by {
      var c := ContentIdentifier(s, d);
      if c.Some? {
        assert [] + c.value == c.value;
      }
    }
    while p < end
      invariant Prepend(acc, Crids(s, p, end)) == ContentIdentifier(s, d)
      invariant ev.Value() == ApplyAll(old(ev.Value()), acc)
      decreases end - p
    {
      var b := At(s, p);
      if b % 4 == 0 {
        var crid := StringField(s, p + 2, At(s, p + 1));
        var kind := b / 4;
        SetCrid(ev, kind, crid);
        ApplyOne(old(ev.Value()), acc, Crid(kind, crid));
        PrependAssoc(acc, [Crid(kind, crid)], Crids(s, DescriptorEnd(s, p), end));
        acc := acc + [Crid(kind, crid)];
        p := DescriptorEnd(s, p);
      } else if b % 4 == 1 {
        return None;
      } else {
        p := p + 3;
      }
    }
    assert acc + [] == acc;
    return Some(acc);
  }

  /** The setter a carried crid calls, by its type. */
  method SetCrid(ev: E.Event, kind: nat, crid: string)
    modifies ev
    ensures ev.Value() == Apply(old(ev.Value()), Crid(kind, crid))
  {
    if kind == 0x01 || kind == 0x31 {
      ev.SetPcrid(crid);
    } else if kind == 0x02 || kind == 0x32 {
      ev.SetScrid(crid);
    }
  }

  /** One descriptor in one round, through the parse functions. */
  method DescriptorInto(rd: Reading, ev: E.Event, langs: LangTable, s: seq<Byte>, d: int, round: nat, seen: nat, pds: nat) returns (r: Scan)
    requires round < 8
    modifies ev
    ensures r == Descriptor(rd, langs, s, d, round, seen, pds)
    ensures r.Done? ==> ev.Value() == ApplyAll(old(ev.Value()), r.effects)
  {
    var tag := At(s, d);
    r := Done([], seen, pds);
    if tag == 0x4D {
      if round <= 1 {
        var es := ShortEventInto(ev, langs, s, d, round);
        r := Done(es, seen, pds);
      }
    } else if tag == 0x4E && round == 2 {
      var l := LongEventIn(langs, s, d);
      if l.None? {
        return Exit;
      }
      PrintedOnly(ev.Value(), l.value);
      r := Done(l.value, seen, pds);
    } else if tag == 0x50 && 4 <= round {
      r := ComponentInto(ev, langs, s, d, round, seen, pds);
    } else if tag == 0x54 && round == 3 {
      var es := ContentIn(rd, s, d);
      PrintedOnly(ev.Value(), es);
      r := Done(es, seen, pds);
    } else if tag == 0x55 && round == 7 {
      var es := RatingsIn(s, d);
      PrintedOnly(ev.Value(), es);
      r := Done(es, seen, pds);
    } else if tag == 0x5F {
      r := Done([], seen, PrivateDataSpecifier(s, d));
    } else if tag == 0x76 && round == 5 {
      var c := CridsInto(ev, s, d);
      if c.None? {
        return Exit;
      }
      r := Done(c.value, seen, pds);
    } else if !KnownTag(tag) && round == 0 {
      r := Done([Unknown(tag, At(s, d + 1))], seen, pds);
      PrintedOnly(ev.Value(), r.effects);
    }
  }

  lemma PrependAssoc(a: seq<Effect>, b: seq<Effect>, r: Option<seq<Effect>>)
    ensures Prepend(a, Prepend(b, r)) == Prepend(a + b, r)
  {
    if r.Some? {
      assert a + (b + r.value) == (a + b) + r.value;
    }
  }

  lemma ThenAssoc(a: seq<Effect>, b: seq<Effect>, r: Scan)
    ensures Then(a, Then(b, r)) == Then(a + b, r)
  {
    if r.Done? {
      assert a + (b + r.effects) == (a + b) + r.effects;
    }
  }

  lemma ThenEmpty(r: Scan)
    ensures Then([], r) == r
  {
    if r.Done? {
      assert [] + r.effects == r.effects;
    }
  }

  /** The round from the descriptor at p to end, after the effects acc,
      gives goal. */
  ghost predicate RoundLeft(rd: Reading, langs: LangTable, s: seq<Byte>, p: int, end: int, round: nat, seen: nat, pds: nat, acc: seq<Effect>, goal: Scan)
    requires round < 8
  {
    Then(acc, Round(rd, langs, s, Offsets(s, p, end), round, seen, pds)) == goal
  }

  /** The body of the inner loop: the descriptor at d, after the effects
      acc that took the record from v0 to its present value. */
  method RoundBody(rd: Reading, ev: E.Event, langs: LangTable, s: seq<Byte>, d: int, end: int, round: nat, seen: nat, pds: nat,
                   ghost v0: E.Record, ghost acc: seq<Effect>, ghost goal: Scan) returns (h: Scan)
    requires round < 8 && d < end && ev.Value() == ApplyAll(v0, acc)
    requires RoundLeft(rd, langs, s, d, end, round, seen, pds, acc, goal)
    modifies ev
    ensures h.Exit? ==> goal == Exit
    ensures h.Done? ==> RoundLeft(rd, langs, s, DescriptorEnd(s, d), end, round, h.seen, h.pds, acc + h.effects, goal)
    ensures h.Done? ==> ev.Value() == ApplyAll(v0, acc + h.effects)
  {
    ghost var ds := Offsets(s, d, end);
    assert ds[1..] == Offsets(s, DescriptorEnd(s, d), end);
    h := DescriptorInto(rd, ev, langs, s, d, round, seen, pds);
    RoundStep(rd, langs, s, ds, round, seen, pds, acc, h);
    if h.Done? {
      ApplyAppend(v0, acc, h.effects);
    }
  }

  /** The inner loop of parseDescription: one round over the descriptors
      of the len bytes at from. */
  method RoundInto(rd: Reading, ev: E.Event, langs: LangTable, s: seq<Byte>, from: int, len: nat, round: nat, pds: nat) returns (r: Scan)
    requires round < 8
    modifies ev
    ensures r == Round(rd, langs, s, Offsets(s, from, from + len), round, 0, pds)
    ensures r.Done? ==> ev.Value() == ApplyAll(old(ev.Value()), r.effects)
  {
    ghost var goal := Round(rd, langs, s, Offsets(s, from, from + len), round, 0, pds);
    ghost var v0 := ev.Value();
    var p, seen, spec := from, 0, pds;
    var acc: seq<Effect> := [];
    ThenEmpty(goal);
    while p < from + len
      invariant RoundLeft(rd, langs, s, p, from + len, round, seen, spec, acc, goal)
      invariant ev.Value() == ApplyAll(v0, acc)
      decreases from + len - p
    {
      var h := RoundBody(rd, ev, langs, s, p, from + len, round, seen, spec, v0, acc, goal);
      if h.Exit? {
        return Exit;
      }
      acc := acc + h.effects;
      p, seen, spec := DescriptorEnd(s, p), h.seen, h.pds;
    }
    assert acc + [] == acc;
    return Done(acc, seen, spec);
  }

  /** parseDescription: the eight rounds over the descriptor loop of an
      event, through the setters of the event. */
  method DescriptionInto(rd: Reading, ev: E.Event, langs: LangTable, s: seq<Byte>, from: int, len: nat) returns (r: Scan)
    modifies ev
    ensures r == Description(rd, langs, s, from, len)
    ensures r.Done? ==> ev.Value() == ApplyAll(old(ev.Value()), r.effects)
  {
    ghost var ds := Offsets(s, from, from + len);
    var round, pds := 0, 0;
    var acc: seq<Effect> := [];
    ThenEmpty(Rounds(rd, langs, s, ds, 0, 0));
    while round < 8
      invariant 0 <= round <= 8
      invariant Then(acc, Rounds(rd, langs, s, ds, round, pds)) == Description(rd, langs, s, from, len)
      invariant ev.Value() == ApplyAll(old(ev.Value()), acc)
    {
      var h := RoundInto(rd, ev, langs, s, from, len, round, pds);
      if h.Exit? {
        return Exit;
      }
      ThenAssoc(acc, h.effects, Rounds(rd, langs, s, ds, round + 1, h.pds));
      ApplyAppend(old(ev.Value()), acc, h.effects);
      acc := acc + h.effects;
      round, pds := round + 1, h.pds;
    }
    assert acc + [] == acc;
    return Done(acc, 0, pds);
  }
}
