// dvb/events.c: an event record with its per-language titles and
// sub-titles. A list of language strings is a sequence of slots; a slot is
// empty (None) after its string has been cleared. C strings are modelled as
// NUL-free character sequences, and a NULL string as the empty one.
module Events {
  import opened Wrappers
  import opened Format
  import opened Registry
  import S = Services

  /** EVENT_ID_SIZE. */
  const IdSize: nat := 64
  /** The char lang[8] of an event_langstr_t and of an event. */
  const LangSize: nat := 8
  /** EA_INVALID: the audio and aspect of an event nobody has set. */
  const EaInvalid: nat := 0xFF

  /** An event_langstr_t: the language (at most 7 characters) and the string. */
  datatype LangStr = LangStr(lang: string, str: string)

  /** The key the list searches compare: the language of a live slot. */
  function SlotLang(x: Option<LangStr>): Option<string>
  {
    if x.Some? then Some(x.value.lang) else None
  }

  /** No language has two live slots. */
  predicate OnePerLanguage(list: seq<Option<LangStr>>)
  {
    forall i, j :: 0 <= i < j < |list| && list[i].Some? && list[j].Some? ==>
      list[i].value.lang != list[j].value.lang
  }

  /** The slot event_set_langstr fills in: NULL for an empty string,
      otherwise the string with the language cut to 7 characters. */
  function NewSlot(lang: string, str: string): (r: Option<LangStr>)
    ensures r.None? <==> str == []
    ensures r.Some? ==> r.value.str == str && r.value.lang <= lang && |r.value.lang| < LangSize
    ensures |lang| < LangSize && r.Some? ==> r.value.lang == lang
  {
    if str == [] then None else Some(LangStr(Take(lang, LangSize - 1), str))
  }

  /** event_locate_langstr over the first count slots: the first live slot of
      the language. Slots past the end of the list are taken as empty. */
  function Locate(list: seq<Option<LangStr>>, count: nat, lang: string): (r: Option<nat>)
    ensures r.Some? ==> r.value < count && r.value < |list| && SlotLang(list[r.value]) == Some(lang)
    ensures r.Some? ==> forall j :: 0 <= j < r.value ==> SlotLang(list[j]) != Some(lang)
    ensures r.None? <==> forall j :: 0 <= j < count && j < |list| ==> SlotLang(list[j]) != Some(lang)
  {
    var r := IndexOf(Take(list, count), SlotLang, Some(lang));
    assert forall j :: 0 <= j < |Take(list, count)| ==> Take(list, count)[j] == list[j];
    r
  }

  /** The index of the last empty slot. */
  function LastEmpty(list: seq<Option<LangStr>>): (r: Option<nat>)
    ensures r.Some? ==> r.value < |list| && list[r.value].None?
    ensures r.Some? ==> forall j :: r.value < j < |list| ==> list[j].Some?
    ensures r.None? <==> forall j :: 0 <= j < |list| ==> list[j].Some?
    decreases |list|
  {
    if list == [] then None
    else if list[|list| - 1].None? then Some(|list| - 1)
    else
      var r := LastEmpty(list[..|list| - 1]);
      assert forall j :: 0 <= j < |list| - 1 ==> list[..|list| - 1][j] == list[j];
      r
  }

  /** event_set_langstr: the live slot of the language is replaced (cleared
      when the string is empty); otherwise a non-empty string goes into the
      last empty slot, or a new slot at the end. Gives the new slot. */
  function SetLangStr(list: seq<Option<LangStr>>, lang: string, str: string): (r: (seq<Option<LangStr>>, Option<LangStr>))
    ensures r.1 == NewSlot(lang, str)
    ensures Locate(list, |list|, lang).Some? ==> r.0 == list[Locate(list, |list|, lang).value := r.1]
    ensures Locate(list, |list|, lang).None? && str == [] ==> r.0 == list
    ensures Locate(list, |list|, lang).None? && str != [] && LastEmpty(list).Some? ==>
      r.0 == list[LastEmpty(list).value := r.1]
    ensures Locate(list, |list|, lang).None? && str != [] && LastEmpty(list).None? ==> r.0 == list + [r.1]
  {
    var p := NewSlot(lang, str);
    match Locate(list, |list|, lang)
    case Some(i) => (list[i := p], p)
    case None =>
      if p.None? then (list, None)
      else match LastEmpty(list)
        case Some(f) => (list[f := p], p)
        case None => (list + [p], p)
  }

  /** With a language that fits, the next locate finds what a set stored. */
  lemma SetThenLocate(list: seq<Option<LangStr>>, lang: string, str: string)
    requires |lang| < LangSize && str != []
    ensures var r := SetLangStr(list, lang, str).0; var i := Locate(r, |r|, lang);
      i.Some? && r[i.value] == Some(LangStr(lang, str))
  {
    var r := SetLangStr(list, lang, str).0;
    var l := Locate(list, |list|, lang);
    if l.Some? {
      assert forall j :: 0 <= j < l.value ==> r[j] == list[j];
      assert SlotLang(r[l.value]) == Some(lang);
    } else {
      assert forall j :: 0 <= j < |list| ==> SlotLang(list[j]) != Some(lang);
      match LastEmpty(list)
      case Some(f) =>
        assert forall j :: 0 <= j < |r| && j != f ==> r[j] == list[j];
        assert SlotLang(r[f]) == Some(lang);
      case None =>
        assert forall j :: 0 <= j < |list| ==> r[j] == list[j];
        assert SlotLang(r[|list|]) == Some(lang);
    }
  }

  /** With one slot per language, setting the empty string leaves nothing
      for the language to find. */
  lemma ClearThenLocate(list: seq<Option<LangStr>>, lang: string)
    requires OnePerLanguage(list)
    ensures var r := SetLangStr(list, lang, []).0; Locate(r, |r|, lang).None?
  {
    var r := SetLangStr(list, lang, []).0;
    var l := Locate(list, |list|, lang);
    if l.Some? {
      assert forall j :: 0 <= j < |r| && j != l.value ==> r[j] == list[j];
      assert forall j :: 0 <= j < |list| && j != l.value ==> SlotLang(list[j]) != Some(lang);
    }
  }

  /** A set for one language changes nothing that another language finds. */
  lemma SetKeepsOthers(list: seq<Option<LangStr>>, lang: string, str: string, other: string)
    requires |lang| < LangSize && other != lang
    ensures var r := SetLangStr(list, lang, str).0;
      Locate(r, |r|, other) == Locate(list, |list|, other)
  {
    var r := SetLangStr(list, lang, str).0;
    var l := Locate(list, |list|, lang);
    assert SlotLang(NewSlot(lang, str)) != Some(other);
    assert forall xs: seq<Option<LangStr>> :: Take(xs, |xs|) == xs;
    if l.Some? {
      ReplaceKeepsOthers(list, SlotLang, l.value, NewSlot(lang, str), Some(other));
    } else if str != [] {
      match LastEmpty(list)
      case Some(f) =>
        ReplaceKeepsOthers(list, SlotLang, f, NewSlot(lang, str), Some(other));
      case None =>
        AppendKeepsOthers(list, SlotLang, NewSlot(lang, str), Some(other));
    }
  }

  /** event_set_langstr keeps at most one live slot per language, for
      languages that fit the 8-byte field. */
  lemma SetKeepsOnePerLanguage(list: seq<Option<LangStr>>, lang: string, str: string)
    requires |lang| < LangSize && OnePerLanguage(list)
    ensures OnePerLanguage(SetLangStr(list, lang, str).0)
    ensures |list| <= |SetLangStr(list, lang, str).0| <= |list| + 1
  {
    var r := SetLangStr(list, lang, str).0;
    var l := Locate(list, |list|, lang);
    if l.None? && str != [] {
      assert forall j :: 0 <= j < |list| ==> SlotLang(list[j]) != Some(lang);
      assert forall j :: 0 <= j < |list| && list[j].Some? ==> list[j].value.lang != lang;
      forall i, j | 0 <= i < j < |r| && r[i].Some? && r[j].Some?
        ensures r[i].value.lang != r[j].value.lang
      {
        if i < |list| && j < |list| {
          if r[i] != list[i] || r[j] != list[j] {
            assert r[i].value.lang == lang || r[j].value.lang == lang;
          }
        }
      }
    }
  }

  /** A language of 8 characters or more is stored cut to 7, which the
      comparison with the full language then never matches: setting it
      twice gives two live slots. */
  lemma LongLanguageDuplicates()
    ensures var r := SetLangStr(SetLangStr([], "abcdefgh", "one").0, "abcdefgh", "two").0;
      r == [Some(LangStr("abcdefg", "one")), Some(LangStr("abcdefg", "two"))] && !OnePerLanguage(r)
  {
    var r1 := SetLangStr([], "abcdefgh", "one").0;
    assert Take("abcdefgh", 7) == "abcdefg";
    assert r1 == [Some(LangStr("abcdefg", "one"))];
    assert SlotLang(r1[0]) != Some("abcdefgh");
    assert Locate(r1, 1, "abcdefgh").None?;
    var r := SetLangStr(r1, "abcdefgh", "two").0;
    assert r[0].value.lang == r[1].value.lang;
  }

  /** The loop of event_set_langstr: the first live slot of the language is
      replaced and the call returns; an empty slot seen before is
      remembered in ff, so the last one seen is used. */
  method SetLangStrIn(list: seq<Option<LangStr>>, lang: string, str: string)
    returns (list': seq<Option<LangStr>>, r: Option<LangStr>)
    ensures (list', r) == SetLangStr(list, lang, str)
  {
    var p := NewSlot(lang, str);
    var ff := -1;
    var i := 0;
    while i < |list|
      invariant 0 <= i <= |list|
      invariant forall j :: 0 <= j < i ==> SlotLang(list[j]) != Some(lang)
      invariant ff == (if LastEmpty(list[..i]).Some? then LastEmpty(list[..i]).value else -1)
    {
      assert list[..i + 1][..i] == list[..i];
      if list[i].None? {
        ff := i;
      } else if list[i].value.lang == lang {
        list', r := list[i := p], p;
        return;
      }
      i := i + 1;
    }
    assert list[..i] == list;
    if p.None? {
      return list, None;
    }
    if ff != -1 {
      return list[ff := p], p;
    }
    return list + [p], p;
  }

  /** The fields of an event_t, as one value. */
  datatype Record = Record(identifier: string, transportUri: string, pcrid: string, scrid: string,
                           lang: string, start: int, duration: int,
                           titles: seq<Option<LangStr>>, subtitles: seq<Option<LangStr>>,
                           audio: nat, aspect: nat, service: Option<nat>, data: nat)

  /** What event_alloc returns: a zeroed record holding the identifier, with
      audio and aspect EA_INVALID. */
  function Blank(id: string): (r: Record)
    ensures r.identifier == id && r.titles == [] && r.subtitles == []
    ensures r.audio == EaInvalid && r.aspect == EaInvalid && r.pcrid == [] && r.service.None?
  {
    Record(id, [], [], [], [], 0, 0, [], [], EaInvalid, EaInvalid, None, 0)
  }

  /** An event_t. The service is an index into the service registry. */
  class Event {
    var identifier: string
    var transportUri: string
    var pcrid: string
    var scrid: string
    var lang: string
    var start: int
    var duration: int
    var titles: seq<Option<LangStr>>
    var subtitles: seq<Option<LangStr>>
    var audio: nat
    var aspect: nat
    var service: Option<nat>
    var data: nat

    /** All fields of the record. */
    function Value(): Record
      reads this
    {
      Record(identifier, transportUri, pcrid, scrid, lang, start, duration, titles, subtitles,
             audio, aspect, service, data)
    }

    /** The zeroed record of event_alloc, with the identifier copied in. */
    constructor (id: string)
      requires |id| < IdSize
      ensures Value() == Blank(id)
    {
      identifier, transportUri, pcrid, scrid, lang := id, [], [], [], [];
      start, duration, titles, subtitles := 0, 0, [], [];
      audio, aspect, service, data := EaInvalid, EaInvalid, None, 0;
    }

    /** event_set_title. */
    method SetTitle(title: string, language: string) returns (r: Option<LangStr>)
      modifies this
      ensures (titles, r) == SetLangStr(old(titles), language, title)
      ensures Value() == old(Value()).(titles := titles)
      ensures |language| < LangSize && title != [] ==> Title(language) == Some(title)
    {
      titles, r := SetLangStrIn(titles, language, title);
      if |language| < LangSize && title != [] {
        SetThenLocate(old(titles), language, title);
      }
    }

    /** event_set_subtitle. */
    method SetSubtitle(subtitle: string, language: string) returns (r: Option<LangStr>)
      modifies this
      ensures (subtitles, r) == SetLangStr(old(subtitles), language, subtitle)
      ensures Value() == old(Value()).(subtitles := subtitles)
      ensures |language| < LangSize && subtitle != [] ==> Subtitle(language) == Some(subtitle)
    {
      subtitles, r := SetLangStrIn(subtitles, language, subtitle);
      if |language| < LangSize && subtitle != [] {
        SetThenLocate(old(subtitles), language, subtitle);
      }
    }

    /** event_title: the title in the language, or NULL. */
    function Title(language: string): (r: Option<string>)
      reads this
      ensures r.Some? <==> Locate(titles, |titles|, language).Some?
      ensures r.Some? ==> Some(LangStr(language, r.value)) in titles
    {
      match Locate(titles, |titles|, language)
      case Some(i) => Some(titles[i].value.str)
      case None => None
    }

    /** event_subtitle, searching as far as the number of sub-titles. */
    function Subtitle(language: string): (r: Option<string>)
      reads this
      ensures r.Some? <==> Locate(subtitles, |subtitles|, language).Some?
      ensures r.Some? ==> Some(LangStr(language, r.value)) in subtitles
    {
      match Locate(subtitles, |subtitles|, language)
      case Some(i) => Some(subtitles[i].value.str)
      case None => None
    }

    /** event_subtitle as written: the search is bounded by the number of
      titles, ntitle, rather than nsubtitle. */
    function SubtitleAsWritten(language: string): (r: Option<string>)
      reads this
      ensures r.Some? ==> Some(LangStr(language, r.value)) in subtitles[..if |titles| < |subtitles| then |titles| else |subtitles|]
    {
      match Locate(subtitles, |titles|, language)
      case Some(i) => Some(subtitles[i].value.str)
      case None => None
    }

    /** event_set_lang: strncpy into the 8-byte buffer. */
    method SetLang(language: string)
      modifies this
      ensures Value() == old(Value()).(lang := Take(language, LangSize - 1))
    {
      lang := Take(language, LangSize - 1);
    }

    /** event_set_pcrid, event_set_scrid and event_set_transport_uri:
        strncpy into their 128-byte buffers. */
    method SetPcrid(crid: string)
      modifies this
      ensures Value() == old(Value()).(pcrid := Clip(crid))
    {
      pcrid := Clip(crid);
    }

    method SetScrid(crid: string)
      modifies this
      ensures Value() == old(Value()).(scrid := Clip(crid))
    {
      scrid := Clip(crid);
    }

    method SetTransportUri(uri: string)
      modifies this
      ensures Value() == old(Value()).(transportUri := Clip(uri))
    {
      transportUri := Clip(uri);
    }

    /** event_set_audio and event_set_aspect. */
    method SetAudio(a: nat)
      modifies this
      ensures Value() == old(Value()).(audio := a)
    {
      audio := a;
    }

    method SetAspect(a: nat)
      modifies this
      ensures Value() == old(Value()).(aspect := a)
    {
      aspect := a;
    }

    /** event_set_start and event_set_duration. */
    method SetTimes(s: int, d: int)
      modifies this
      ensures Value() == old(Value()).(start := s, duration := d)
    {
      start, duration := s, d;
    }

    /** event_set_service. */
    method SetService(svc: Option<nat>)
      modifies this
      ensures Value() == old(Value()).(service := svc)
    {
      service := svc;
    }

    /** event_finish: the end of the event, start + duration. A 64-bit
        time_t does not wrap for the times in an EIT. */
    function Finish(): (r: int)
      reads this
      ensures r - duration == start
      ensures duration >= 0 ==> r >= start
    {
      start + duration
    }

    /** event_qual_pcrid into a buffer of buflen bytes. The authority is
        service_authority of the event's service, NULL when there is no
        service or its authority is empty, and then "undefined" is used: a
        crid starting with '/' never follows "crid://" directly. */
    function QualPcrid(services: seq<S.Service>, buflen: nat): (r: (string, nat))
      reads this
      requires service.Some? ==> service.value < |services|
      ensures pcrid == [] ==> r == ([], 0)
      ensures pcrid != [] && pcrid[0] != '/' ==> r.1 == |pcrid| + 7
      ensures pcrid != [] && pcrid[0] == '/' ==>
        r.1 == |pcrid| + 7 + (if service.None? || services[service.value].authority == [] then 9
                              else |services[service.value].authority|)
      ensures pcrid != [] && pcrid[0] == '/' && buflen > r.1 ==> |r.0| == r.1 > |pcrid| + 7
    {
      var authority := if service.None? then None else Text(services[service.value].authority);
      QualifiedCrid(pcrid, authority, buflen)
    }
  }

  /** event_alloc: NULL for an identifier of 64 characters or more; a
      failing calloc is not modelled. */
  method Alloc(id: string) returns (e: Option<Event>)
    ensures e.None? <==> |id| >= IdSize
    ensures e.Some? ==> fresh(e.value) && e.value.Value() == Blank(id)
  {
    if |id| >= IdSize {
      return None;
    }
    var ev := new Event(id);
    return Some(ev);
  }

  /** snprintf(buf, buflen, ...): at most buflen - 1 characters and a NUL. */
  function Snprintf(text: string, buflen: nat): (r: string)
    ensures r <= text && (buflen > 0 ==> |r| == (if |text| < buflen then |text| else buflen - 1)) && (buflen == 0 ==> r == [])
  {
    if buflen == 0 then [] else Take(text, buflen - 1)
  }

  /** The qualified content reference: "crid://" and the crid itself when it
      does not start with '/', otherwise "crid://", the default authority of
      the service (or "undefined") and the crid. */
  function QualifiedText(crid: string, authority: Option<string>): (r: string)
    requires crid != []
    ensures crid[0] != '/' ==> r == "crid://" + crid
    ensures crid[0] == '/' ==> r == "crid://" + (if authority.Some? then authority.value else "undefined") + crid
  {
    if crid[0] != '/' then "crid://" + crid
    else "crid://" + (if authority.Some? then authority.value else "undefined") + crid
  }

  /** event_qual_pcrid: the text written into the buffer and the value
      returned, which is the length of the whole text; "" and 0 without a
      crid. */
  function QualifiedCrid(crid: string, authority: Option<string>, buflen: nat): (r: (string, nat))
    ensures crid == [] ==> r == ([], 0)
    ensures crid != [] && crid[0] != '/' ==> r.1 == |crid| + 7
    ensures crid != [] && crid[0] == '/' && authority.Some? ==> r.1 == |authority.value| + |crid| + 7
    ensures crid != [] && crid[0] == '/' && authority.None? ==> r.1 == |crid| + 16
    ensures crid != [] ==> r.0 == Snprintf(QualifiedText(crid, authority), buflen)
    ensures crid != [] && buflen > r.1 ==> r.0 == QualifiedText(crid, authority) && r.0[..7] == "crid://" && r.0[|r.0| - |crid|..] == crid
  {
    if crid == [] then ([], 0)
    else
      var text := QualifiedText(crid, authority);
      assert text[|text| - |crid|..] == crid;
      (Snprintf(text, buflen), |text|)
  }

  /** event_subtitle as written misses a sub-title of an event without
      titles; the corrected search finds it. */
  lemma SubtitleBoundMisses(e: Event)
    requires e.titles == [] && e.subtitles == [Some(LangStr("eng", "News"))]
    ensures e.SubtitleAsWritten("eng") == None
    ensures e.Subtitle("eng") == Some("News")
  {
    assert SlotLang(e.subtitles[0]) == Some("eng");
  }
}
