// parseEIT of dvb-eit.c: the walk over the events of one event information
// table section (ETSI EN 300 468 section 5.2.4). Each event is checked
// against the versions already output, allocated, timed, checked for a
// sensible date and a title, then decoded and handed to the event callback.
// The globals the C code keeps (the chninfo list and three counters) are the
// fields of a Grabber, and the callback's events are recorded in order.
module EitTable {
  import opened Wrappers
  import opened Wire
  import opened Format
  import opened Registry
  import opened Calendar
  import E = Events
  import S = Services
  import D = EitDescriptors

  /** A chninfo_t: the version last output for an event of a service. */
  datatype Channel = Channel(sid: nat, eid: nat, ver: nat)

  function Key(c: Channel): (nat, nat) { (c.sid, c.eid) }

  /** The program settings parseEIT reads. */
  datatype Config = Config(ignoreUpdates: bool, ignoreBadDates: bool, timeOffset: int)

  /** What parseEIT takes from outside the section: the reading of its
      version and date tests (as written, or as evidently intended), the
      settings, the language table of the descriptors, get_channelident,
      the "%Y-%m-%dT%H:%M:%SZ" text of an epoch time, and the clock. */
  datatype Env = Env(reading: Reading, config: Config, langs: D.LangTable, ident: nat -> string,
                     isoTime: int -> string, now: int)

  /** The globals an allocated event can still change: invalid_date_count,
      programme_count, and the events passed to the callback so far. */
  datatype Tally = Tally(invalidDates: nat, programmes: nat, emitted: seq<E.Record>)

  /** All the globals: the chninfo list (newest first), update_count and the tally. */
  datatype State = State(channels: seq<Channel>, updates: nat, tally: Tally)

  /** How the handling of one event ends: go on with the next event, return
      from parseEIT with a code, or end the program (a failed check while
      decoding the descriptors). */
  datatype Outcome = Next | Returned(code: int) | Exit

  datatype Step = Step(state: State, outcome: Outcome)

  /** How the validations and the decoding of an allocated event end. */
  datatype Checked = Checked(tally: Tally, outcome: Outcome)

  // The fields of a section and of an event in it.
  function ServiceId(s: seq<Byte>): nat { Field16(s, 3) }
  function TransportStreamId(s: seq<Byte>): nat { Field16(s, 8) }
  function NetworkId(s: seq<Byte>): nat { Field16(s, 10) }
  function EventId(s: seq<Byte>, p: int): nat { Field16(s, p) }
  function LoopLength(s: seq<Byte>, p: int): nat { Field12(s, p + 10) }
  /** Where the event at p ends: its 12 fixed bytes, then its descriptor loop. */
  function EventEnd(s: seq<Byte>, p: int): int { p + 12 + LoopLength(s, p) }

  /** The seen-before test as written: the stored version is at most the
      incoming one. */
  predicate SeenAsWritten(stored: nat, incoming: nat) { stored <= incoming }

  /** The seen-before test as the comment describes it: the incoming version
      is the stored one or older. */
  predicate Seen(stored: nat, incoming: nat) { incoming <= stored }

  /** The seen-before test parseEIT applies under a reading. */
  predicate SeenIn(rd: Reading, stored: nat, incoming: nat)
  {
    if rd.AsWritten? then SeenAsWritten(stored, incoming) else Seen(stored, incoming)
  }

  /** As written, a newer version of an event is taken for one already
      output, and an older one is taken for an update. */
  lemma SeenAsWrittenInverted()
    ensures SeenAsWritten(3, 4) && !Seen(3, 4)
    ensures !SeenAsWritten(4, 3) && Seen(4, 3)
  {
  }

  /** The bad-date test as written. */
  predicate BadDateAsWritten(stop: int, now: int)
  {
    stop - now < -24 * 60 * 60 || now - stop > 14 * 24 * 60 * 60
  }

  /** The bad-date test of the comment: the event ends before this time
      yesterday or more than two weeks from now. */
  predicate BadDate(stop: int, now: int)
  {
    stop - now < -24 * 60 * 60 || stop - now > 14 * 24 * 60 * 60
  }

  /** The bad-date test parseEIT applies under a reading. */
  predicate BadDateIn(rd: Reading, stop: int, now: int)
  {
    if rd.AsWritten? then BadDateAsWritten(stop, now) else BadDate(stop, now)
  }

  /** As written, the two-week clause never decides, and an event ending in
      fifteen days passes. */
  lemma BadDateAsWrittenFortnightDead(stop: int, now: int)
    ensures BadDateAsWritten(stop, now) <==> stop < now - 86400
    ensures !BadDateAsWritten(15 * 86400, 0) && BadDate(15 * 86400, 0)
  {
  }

  /** The corrected test flags exactly the stop times outside the window from
      a day ago to two weeks ahead. */
  lemma BadDateWindow(stop: int, now: int)
    ensures !BadDate(stop, now) <==> now - 86400 <= stop <= now + 14 * 86400
  {
  }

  /** The broken-down start time: the MJD date, the BCD start time and the
      configured hour offset. */
  function StartTm(s: seq<Byte>, p: int, offset: int): Tm
  {
    ParseMjd(Field16(s, p + 2)).(hour := BcdCharToInt(At(s, p + 4)) + offset,
                                 min := BcdCharToInt(At(s, p + 5)),
                                 sec := BcdCharToInt(At(s, p + 6)))
  }

  /** The BCD duration fields added to the fields of a broken-down time. */
  function AddBcd(t: Tm, h: Byte, m: Byte, sec: Byte): Tm
  {
    t.(hour := t.hour + BcdCharToInt(h), min := t.min + BcdCharToInt(m), sec := t.sec + BcdCharToInt(sec))
  }

  /** The broken-down stop time: the duration added to the start time. */
  function StopTm(s: seq<Byte>, p: int, offset: int): Tm
  {
    AddBcd(StartTm(s, p, offset), At(s, p + 7), At(s, p + 8), At(s, p + 9))
  }

  function Start(s: seq<Byte>, p: int, offset: int): int { Timegm(StartTm(s, p, offset)) }
  function Stop(s: seq<Byte>, p: int, offset: int): int { Timegm(StopTm(s, p, offset)) }

  /** Adding BCD duration fields to any broken-down time moves it by the duration in seconds. */
  lemma DurationOf(t: Tm, h: Byte, m: Byte, sec: Byte)
    ensures Timegm(AddBcd(t, h, m, sec)) == Timegm(t) + BcdTimeToSeconds(h, m, sec)
  {
    var hh, mm, ss := BcdCharToInt(h), BcdCharToInt(m), BcdCharToInt(sec);
    TimegmAddsDuration(t, hh, mm, ss);
    assert AddBcd(t, h, m, sec) == t.(hour := t.hour + hh, min := t.min + mm, sec := t.sec + ss);
    assert BcdTimeToSeconds(h, m, sec) == 3600 * hh + 60 * mm + ss;
  }

  /** The duration set on the event is the BCD duration field in seconds,
      whatever the date and the offset. */
  lemma DurationIsBcd(s: seq<Byte>, p: int, offset: int)
    ensures Stop(s, p, offset) == Start(s, p, offset) + BcdTimeToSeconds(At(s, p + 7), At(s, p + 8), At(s, p + 9))
  {
    DurationOf(StartTm(s, p, offset), At(s, p + 7), At(s, p + 8), At(s, p + 9));
  }

  /** The identifier given to event_alloc: "%s/%04x" of the channel ident and the event id. */
  function EventIdent(env: Env, sid: nat, eid: nat): string
  {
    env.ident(sid) + "/" + Hex04(eid)
  }

  /** "dvb://%04x.%04x.%04x;%04x@%s--PT%02dH%02dM%02dS": the service, the event
      id, the start time and the BCD duration. */
  function TransportUri(env: Env, s: seq<Byte>, p: int): string
  {
    S.DvbUri(NetworkId(s), TransportStreamId(s), ServiceId(s)) + ";" + Hex04(EventId(s, p)) + "@" +
    env.isoTime(Start(s, p, env.config.timeOffset)) +
    "--PT" + Dec02(BcdCharToInt(At(s, p + 7))) + "H" + Dec02(BcdCharToInt(At(s, p + 8))) + "M" +
    Dec02(BcdCharToInt(At(s, p + 9))) + "S"
  }

  lemma DecDigitsShort(n: nat)
    requires n < 1000
    ensures |DecDigits(n)| <= 3
  {
    if n >= 10 {
      assert |DecDigits(n)| == |DecDigits(n / 10)| + 1;
      if n / 10 >= 10 {
        assert |DecDigits(n / 10)| == |DecDigits(n / 100)| + 1;
      }
    }
  }

  /** With a 20-character ISO time, the transport URI fits the 127
      characters event_set_transport_uri keeps, so it is stored whole. */
  lemma TransportUriFits(env: Env, s: seq<Byte>, p: int)
    requires |env.isoTime(Start(s, p, env.config.timeOffset))| <= 20
    ensures |TransportUri(env, s, p)| <= 62
    ensures Clip(TransportUri(env, s, p)) == TransportUri(env, s, p)
  {
    Hex04RoundTrip(NetworkId(s));
    Hex04RoundTrip(TransportStreamId(s));
    Hex04RoundTrip(ServiceId(s));
    Hex04RoundTrip(EventId(s, p));
    DecDigitsShort(BcdCharToInt(At(s, p + 7)));
    DecDigitsShort(BcdCharToInt(At(s, p + 8)));
    DecDigitsShort(BcdCharToInt(At(s, p + 9)));
  }

  /** What event_alloc and event_set_service make of an event. */
  function Allocated(env: Env, service: Option<nat>, s: seq<Byte>, p: int): E.Record
  {
    E.Blank(EventIdent(env, ServiceId(s), EventId(s, p))).(service := service)
  }

  /** The event with its start and duration set. */
  function Timed(env: Env, service: Option<nat>, s: seq<Byte>, p: int): E.Record
  {
    var start := Start(s, p, env.config.timeOffset);
    Allocated(env, service, s, p).(start := start, duration := Stop(s, p, env.config.timeOffset) - start)
  }

  /** The event as it stands before its descriptors are decoded: the
      transport URI set as well. */
  function Prepared(env: Env, service: Option<nat>, s: seq<Byte>, p: int): E.Record
  {
    Timed(env, service, s, p).(transportUri := Clip(TransportUri(env, s, p)))
  }

  /** The validations on an allocated event, given its descriptor loop length,
      whether its date is bad and whether its loop has a title: an empty
      loop ends the call; a bad date is counted and, with bad dates ignored,
      ends the call; a loop without a title ends the call. Next when the
      event passes. */
  function Verdict(t: Tally, ignoreBadDates: bool, len: nat, bad: bool, titled: bool): Checked
  {
    if len == 0 then Checked(t, Returned(0))
    else
      var t1 := if bad then t.(invalidDates := t.invalidDates + 1) else t;
      if bad && ignoreBadDates then Checked(t1, Returned(0))
      else if !titled then Checked(t1, Returned(0))
      else Checked(t1, Next)
  }

  /** The validations on the event at offset p. */
  function Screen(t: Tally, env: Env, s: seq<Byte>, p: int): Checked
  {
    Verdict(t, env.config.ignoreBadDates, LoopLength(s, p), BadDateIn(env.reading, Stop(s, p, env.config.timeOffset), env.now),
            D.HasTitle(s, p + 12, LoopLength(s, p)))
  }

  /** An event that passed the validations: it is counted and, unless decoding
      its descriptors ended the program, the event as the descriptors leave
      it is passed to the callback. */
  function Decode(t: Tally, base: E.Record, desc: D.Scan): Checked
  {
    var t1 := t.(programmes := t.programmes + 1);
    if desc.Exit? then Checked(t1, Exit)
    else Checked(t1.(emitted := t1.emitted + [D.ApplyAll(base, desc.effects)]), Next)
  }

  /** An allocated event: the validations, then the decoding. */
  function Admit(t: Tally, env: Env, service: Option<nat>, s: seq<Byte>, p: int): Checked
  {
    var c := Screen(t, env, s, p);
    if c.outcome.Next? then Decode(c.tally, Prepared(env, service, s, p), D.Description(env.reading, env.langs, s, p + 12, LoopLength(s, p)))
    else c
  }

  /** What becomes of an allocated event at an offset, given the tally. */
  type Handler = (Tally, int) -> Checked

  /** The handling parseEIT gives an allocated event of the section s. */
  function Handling(env: Env, service: Option<nat>, s: seq<Byte>): Handler
  {
    (t: Tally, q: int) => Admit(t, env, service, s, q)
  }

  /** One event of the loop, at offset p: the chninfo check and update, the
      allocation, then the handling of the allocated event. */
  function EventStep(g: State, env: Env, admit: Handler, s: seq<Byte>, p: int): Step
  {
    var sid, eid, ver := ServiceId(s), EventId(s, p), VersionNumber(s);
    var found := IndexOf(g.channels, Key, (sid, eid));
    if found.Some? && SeenIn(env.reading, g.channels[found.value].ver, ver) then Step(g, Returned(0))
    else
      var g1 := if found.Some? then g.(channels := g.channels[found.value := Channel(sid, eid, ver)],
                                       updates := g.updates + 1)
                else g;
      Allocation(g1, env, admit, s, p, found.Some?)
  }

  /** The rest of an event not seen at this version, once a known event's
      chninfo is updated: the update check, the allocation, the chninfo of a
      new event, then the handling. */
  function Allocation(g: State, env: Env, admit: Handler, s: seq<Byte>, p: int, known: bool): Step
  {
    var sid, eid := ServiceId(s), EventId(s, p);
    if known && env.config.ignoreUpdates then Step(g, Returned(0))
    else if |EventIdent(env, sid, eid)| >= E.IdSize then Step(g, Returned(-1))
    else
      var g2 := if known then g else g.(channels := [Channel(sid, eid, VersionNumber(s))] + g.channels);
      var c := admit(g2.tally, p);
      Step(g2.(tally := c.tally), c.outcome)
  }

  /** The events from offset p up to end; each takes 12 bytes and its
      descriptor loop. */
  function Events(g: State, env: Env, admit: Handler, s: seq<Byte>, p: int, end: int): (r: Step)
    ensures !r.outcome.Next?
    decreases end - p
  {
    if p >= end then Step(g, Returned(0))
    else
      var st := EventStep(g, env, admit, s, p);
      if st.outcome.Next? then Events(st.state, env, admit, s, EventEnd(s, p), end)
      else st
  }

  /** parseEIT on a whole section, CRC included: the service is located once,
      the events start at byte 14 and stop before the CRC. */
  function ParseEit(g: State, env: Env, services: seq<S.Service>, s: seq<Byte>): (r: Step)
    requires |s| >= 4
    ensures !r.outcome.Next?
    ensures g.updates <= r.state.updates && Grows(g.tally, r.state.tally)
  {
    var service := IndexOf(services, S.Uri, S.DvbUri(NetworkId(s), TransportStreamId(s), ServiceId(s)));
    HandlingGrows(env, service, s);
    EventsGrow(g, env, Handling(env, service, s), s, 14, |s| - 4);
    Events(g, env, Handling(env, service, s), s, 14, |s| - 4)
  }

  /** The counters never go down and the callback's events are only ever appended to. */
  predicate Grows(t: Tally, u: Tally)
  {
    t.invalidDates <= u.invalidDates && t.programmes <= u.programmes && t.emitted <= u.emitted
  }

  lemma GrowsTransitive(t: Tally, u: Tally, v: Tally)
    requires Grows(t, u) && Grows(u, v)
    ensures Grows(t, v)
  {
    assert forall i :: 0 <= i < |t.emitted| ==> t.emitted[i] == u.emitted[i] == v.emitted[i];
  }

  /** The validations add at most one invalid date and nothing else; the
      decoding adds one programme and at most one event for the callback. */
  lemma AdmitGrows(t: Tally, env: Env, service: Option<nat>, s: seq<Byte>, p: int)
    ensures var c := Admit(t, env, service, s, p);
      Grows(t, c.tally) && t.invalidDates <= c.tally.invalidDates <= t.invalidDates + 1 &&
      |c.tally.emitted| <= |t.emitted| + 1
  {
    var c := Screen(t, env, s, p);
    ScreenGrows(t, env, s, p);
    if c.outcome.Next? {
      DecodeGrows(c.tally, Prepared(env, service, s, p), D.Description(env.reading, env.langs, s, p + 12, LoopLength(s, p)));
    }
  }

  lemma ScreenGrows(t: Tally, env: Env, s: seq<Byte>, p: int)
    ensures var c := Screen(t, env, s, p);
      c.tally.emitted == t.emitted && c.tally.programmes == t.programmes &&
      t.invalidDates <= c.tally.invalidDates <= t.invalidDates + 1
  {
  }

  lemma DecodeGrows(t: Tally, base: E.Record, desc: D.Scan)
    ensures var c := Decode(t, base, desc);
      Grows(t, c.tally) && c.tally.invalidDates == t.invalidDates && c.tally.programmes == t.programmes + 1 &&
      |c.tally.emitted| <= |t.emitted| + 1
  {
    if desc.Done? {
      assert t.emitted <= t.emitted + [D.ApplyAll(base, desc.effects)];
    }
  }

  lemma DecodeEmits(t: Tally, base: E.Record, desc: D.Scan)
    ensures Decode(t, base, desc).outcome.Next? <==> desc.Done?
    ensures desc.Done? ==> Decode(t, base, desc).tally.emitted == t.emitted + [D.ApplyAll(base, desc.effects)]
  {
  }

  /** One event keeps the chninfo keys unique, and the update count grows by at most one. */
  lemma EventStepUnique(g: State, env: Env, admit: Handler, s: seq<Byte>, p: int)
    requires Unique(g.channels, Key)
    ensures var r := EventStep(g, env, admit, s, p);
      Unique(r.state.channels, Key) && g.updates <= r.state.updates <= g.updates + 1
  {
    var sid, eid, ver := ServiceId(s), EventId(s, p), VersionNumber(s);
    var found := IndexOf(g.channels, Key, (sid, eid));
    if found.Some? && !SeenIn(env.reading, g.channels[found.value].ver, ver) {
      var cs := g.channels[found.value := Channel(sid, eid, ver)];
      assert forall j :: 0 <= j < |cs| ==> Key(cs[j]) == Key(g.channels[j]);
    } else if found.None? {
      var cs := [Channel(sid, eid, ver)] + g.channels;
      assert forall j :: 1 <= j < |cs| ==> cs[j] == g.channels[j - 1];
    }
  }

  /** An event already seen at this version ends the call and changes
      nothing. Otherwise its chninfo holds the incoming version, unless a new
      event failed to allocate; a known event counts one update. */
  lemma EventStepStores(g: State, env: Env, admit: Handler, s: seq<Byte>, p: int)
    requires Unique(g.channels, Key)
    ensures var found := IndexOf(g.channels, Key, (ServiceId(s), EventId(s, p)));
      found.Some? && SeenIn(env.reading, g.channels[found.value].ver, VersionNumber(s)) ==>
        EventStep(g, env, admit, s, p) == Step(g, Returned(0))
    ensures var found := IndexOf(g.channels, Key, (ServiceId(s), EventId(s, p)));
      var r := EventStep(g, env, admit, s, p);
      found.Some? && !SeenIn(env.reading, g.channels[found.value].ver, VersionNumber(s)) ==>
        r.state.updates == g.updates + 1
    ensures var found := IndexOf(g.channels, Key, (ServiceId(s), EventId(s, p)));
      var r := EventStep(g, env, admit, s, p);
      !(found.Some? && SeenIn(env.reading, g.channels[found.value].ver, VersionNumber(s))) &&
      !(found.None? && r.outcome == Returned(-1)) ==>
        && IndexOf(r.state.channels, Key, (ServiceId(s), EventId(s, p))).Some?
        && r.state.channels[IndexOf(r.state.channels, Key, (ServiceId(s), EventId(s, p))).value].ver == VersionNumber(s)
  {
    var sid, eid, ver := ServiceId(s), EventId(s, p), VersionNumber(s);
    var found := IndexOf(g.channels, Key, (sid, eid));
    if found.Some? && !SeenIn(env.reading, g.channels[found.value].ver, ver) {
      var cs := g.channels[found.value := Channel(sid, eid, ver)];
      assert forall j :: 0 <= j < |cs| ==> Key(cs[j]) == Key(g.channels[j]);
      UniqueIndex(cs, Key, found.value);
    } else if found.None? && |EventIdent(env, sid, eid)| < E.IdSize {
      var cs := [Channel(sid, eid, ver)] + g.channels;
      assert forall j :: 1 <= j < |cs| ==> cs[j] == g.channels[j - 1];
      UniqueIndex(cs, Key, 0);
    }
  }

  /** An event passed to the callback has a descriptor loop with a title and
      a date inside the window unless bad dates are kept; it is counted as a
      programme and appended to the callback's events. */
  lemma AdmittedChecks(t: Tally, env: Env, service: Option<nat>, s: seq<Byte>, p: int)
    requires Admit(t, env, service, s, p).outcome.Next?
    ensures var c := Admit(t, env, service, s, p); var len := LoopLength(s, p);
      && len > 0 && D.HasTitle(s, p + 12, len)
      && (env.config.ignoreBadDates ==> !BadDateIn(env.reading, Stop(s, p, env.config.timeOffset), env.now))
      && c.tally.programmes == t.programmes + 1
      && |c.tally.emitted| == |t.emitted| + 1 && t.emitted <= c.tally.emitted
  {
    var c := Screen(t, env, s, p);
    DecodeGrows(c.tally, Prepared(env, service, s, p), D.Description(env.reading, env.langs, s, p + 12, LoopLength(s, p)));
  }

  /** The event passed to the callback carries the identifier, service,
      times and transport URI parseEIT gave it, whatever its descriptors. */
  lemma EmittedEvent(t: Tally, env: Env, service: Option<nat>, s: seq<Byte>, p: int)
    requires Admit(t, env, service, s, p).outcome.Next?
    ensures var c := Admit(t, env, service, s, p);
      && |c.tally.emitted| == |t.emitted| + 1
      && var e := c.tally.emitted[|t.emitted|];
      && e.identifier == EventIdent(env, ServiceId(s), EventId(s, p))
      && e.service == service
      && e.start == Start(s, p, env.config.timeOffset)
      && e.duration == BcdTimeToSeconds(At(s, p + 7), At(s, p + 8), At(s, p + 9))
      && e.transportUri == Clip(TransportUri(env, s, p))
  {
    var c := Screen(t, env, s, p);
    var base := Prepared(env, service, s, p);
    var desc := D.Description(env.reading, env.langs, s, p + 12, LoopLength(s, p));
    ScreenGrows(t, env, s, p);
    DecodeEmits(c.tally, base, desc);
    D.ApplyAllKeepsHeader(base, desc.effects);
    DurationIsBcd(s, p, env.config.timeOffset);
  }

  /** The loop keeps the chninfo keys unique, and it ends only on a return
      or an exit, whatever becomes of the allocated events. */
  lemma {:induction false} EventsUnique(g: State, env: Env, admit: Handler, s: seq<Byte>, p: int, end: int)
    requires Unique(g.channels, Key)
    ensures var r := Events(g, env, admit, s, p, end);
      Unique(r.state.channels, Key) && !r.outcome.Next?
    decreases end - p
  {
    if p < end {
      var st := EventStep(g, env, admit, s, p);
      EventStepUnique(g, env, admit, s, p);
      if st.outcome.Next? {
        EventsUnique(st.state, env, admit, s, EventEnd(s, p), end);
      }
    }
  }

  /** A handling that only adds to the tally. */
  ghost predicate Monotone(admit: Handler)
  {
    forall t, q :: Grows(t, admit(t, q).tally)
  }

  /** parseEIT's handling only adds to the tally. */
  lemma HandlingGrows(env: Env, service: Option<nat>, s: seq<Byte>)
    ensures Monotone(Handling(env, service, s))
  {
    forall t, q ensures Grows(t, Handling(env, service, s)(t, q).tally) {
      AdmitGrows(t, env, service, s, q);
    }
  }

  /** One event adds at most one update, and the tally only grows. */
  lemma EventStepGrows(g: State, env: Env, admit: Handler, s: seq<Byte>, p: int)
    requires Monotone(admit)
    ensures var r := EventStep(g, env, admit, s, p);
      g.updates <= r.state.updates <= g.updates + 1 && Grows(g.tally, r.state.tally)
  {
  }

  /** Over the loop the counters only grow and the callback's events are
      appended in order. */
  lemma {:induction false} EventsGrow(g: State, env: Env, admit: Handler, s: seq<Byte>, p: int, end: int)
    requires Monotone(admit)
    ensures var r := Events(g, env, admit, s, p, end);
      g.updates <= r.state.updates && Grows(g.tally, r.state.tally)
    decreases end - p
  {
    if p < end {
      var st := EventStep(g, env, admit, s, p);
      EventStepGrows(g, env, admit, s, p);
      if st.outcome.Next? {
        var r := Events(st.state, env, admit, s, EventEnd(s, p), end);
        EventsGrow(st.state, env, admit, s, EventEnd(s, p), end);
        GrowsTransitive(g.tally, st.state.tally, r.state.tally);
      }
    }
  }

  /** An event already seen at this version ends the whole call: the
      events after it are not looked at and nothing changes. */
  lemma SeenEndsCall(g: State, env: Env, admit: Handler, s: seq<Byte>, p: int, end: int)
    requires p < end
    requires var found := IndexOf(g.channels, Key, (ServiceId(s), EventId(s, p)));
      found.Some? && SeenIn(env.reading, g.channels[found.value].ver, VersionNumber(s))
    ensures Events(g, env, admit, s, p, end) == Step(g, Returned(0))
  {
  }

  /** Stored version 3 and incoming 4: as written the whole call ends
      there, while corrected the event counts as an update. */
  lemma NewerVersionReadings(g: State, env: Env, admit: Handler, s: seq<Byte>, p: int, end: int)
    requires p < end
    requires var found := IndexOf(g.channels, Key, (ServiceId(s), EventId(s, p)));
      found.Some? && g.channels[found.value].ver == 3 && VersionNumber(s) == 4
    ensures Events(g, env.(reading := AsWritten), admit, s, p, end) == Step(g, Returned(0))
    ensures EventStep(g, env.(reading := Corrected), admit, s, p).state.updates == g.updates + 1
  {
  }

  /** As written, with bad dates ignored, an allocated event with
      descriptors is dropped and counted as an invalid date exactly when it
      stopped before this time yesterday; a titled event that stops later is
      decoded, however far ahead it stops. */
  lemma AdmitDateAsWritten(t: Tally, env: Env, service: Option<nat>, s: seq<Byte>, p: int)
    requires env.reading.AsWritten? && env.config.ignoreBadDates && LoopLength(s, p) > 0
    ensures var stop := Stop(s, p, env.config.timeOffset); var c := Admit(t, env, service, s, p);
      (stop < env.now - 86400 ==> c == Checked(t.(invalidDates := t.invalidDates + 1), Returned(0))) &&
      (stop >= env.now - 86400 && D.HasTitle(s, p + 12, LoopLength(s, p)) ==>
         c == Decode(t, Prepared(env, service, s, p), D.Description(env.reading, env.langs, s, p + 12, LoopLength(s, p))))
  {
    BadDateAsWrittenFortnightDead(Stop(s, p, env.config.timeOffset), env.now);
  }

  /** Corrected, with bad dates ignored, an allocated event with descriptors
      is dropped and counted exactly when it stops outside the window from a
      day ago to two weeks ahead; a titled event inside it is decoded. */
  lemma AdmitDateCorrected(t: Tally, env: Env, service: Option<nat>, s: seq<Byte>, p: int)
    requires env.reading.Corrected? && env.config.ignoreBadDates && LoopLength(s, p) > 0
    ensures var stop := Stop(s, p, env.config.timeOffset); var c := Admit(t, env, service, s, p);
      (!(env.now - 86400 <= stop <= env.now + 14 * 86400) ==>
         c == Checked(t.(invalidDates := t.invalidDates + 1), Returned(0))) &&
      (env.now - 86400 <= stop <= env.now + 14 * 86400 && D.HasTitle(s, p + 12, LoopLength(s, p)) ==>
         c == Decode(t, Prepared(env, service, s, p), D.Description(env.reading, env.langs, s, p + 12, LoopLength(s, p))))
  {
    BadDateWindow(Stop(s, p, env.config.timeOffset), env.now);
  }

  /** With bad dates ignored, a new event with descriptors and a bad date
      ends the whole call: the events after it are not looked at, and only
      its chninfo and the invalid-date count are added. */
  lemma BadDateEndsCall(g: State, env: Env, service: Option<nat>, s: seq<Byte>, p: int, end: int)
    requires p < end && env.config.ignoreBadDates && LoopLength(s, p) > 0
    requires BadDateIn(env.reading, Stop(s, p, env.config.timeOffset), env.now)
    requires IndexOf(g.channels, Key, (ServiceId(s), EventId(s, p))).None?
    requires |EventIdent(env, ServiceId(s), EventId(s, p))| < E.IdSize
    ensures var r := Events(g, env, Handling(env, service, s), s, p, end);
      r.outcome == Returned(0) &&
      r.state == State([Channel(ServiceId(s), EventId(s, p), VersionNumber(s))] + g.channels, g.updates,
                       g.tally.(invalidDates := g.tally.invalidDates + 1))
  {
    assert Handling(env, service, s)(g.tally, p) == Checked(g.tally.(invalidDates := g.tally.invalidDates + 1), Returned(0));
  }

  /** An event with an empty descriptor loop ends the call with a return. */
  lemma AdmitEmptyLoop(t: Tally, env: Env, service: Option<nat>, s: seq<Byte>, p: int)
    requires LoopLength(s, p) == 0
    ensures Admit(t, env, service, s, p) == Checked(t, Returned(0))
  {
  }

  /** An event with an empty descriptor loop ends the whole call: the events
      after it are not looked at. */
  lemma EmptyLoopEndsCall(g: State, env: Env, service: Option<nat>, s: seq<Byte>, p: int, end: int)
    requires p < end
    requires LoopLength(s, p) == 0
    ensures var admit := Handling(env, service, s);
      Events(g, env, admit, s, p, end).outcome.Returned? &&
      Events(g, env, admit, s, p, end) == EventStep(g, env, admit, s, p)
  {
    forall t ensures Handling(env, service, s)(t, p) == Checked(t, Returned(0)) {
      AdmitEmptyLoop(t, env, service, s, p);
    }
  }

  /** One step of the loop. */
  lemma NextEvent(g: State, env: Env, admit: Handler, s: seq<Byte>, p: int, end: int, g': State, o: Outcome)
    requires p < end && Step(g', o) == EventStep(g, env, admit, s, p)
    ensures o.Next? ==> Events(g', env, admit, s, EventEnd(s, p), end) == Events(g, env, admit, s, p, end)
    ensures !o.Next? ==> Step(g', o) == Events(g, env, admit, s, p, end)
  {
  }

  /** The transport URI and the descriptors of an event that passed the validations. */
  method Describe(ev: E.Event, env: Env, service: Option<nat>, s: seq<Byte>, p: int) returns (desc: D.Scan)
    requires ev.Value() == Timed(env, service, s, p)
    modifies ev
    ensures desc == D.Description(env.reading, env.langs, s, p + 12, LoopLength(s, p))
    ensures desc.Done? ==> ev.Value() == D.ApplyAll(Prepared(env, service, s, p), desc.effects)
  {
    ev.SetTransportUri(TransportUri(env, s, p));
    desc := D.DescriptionInto(env.reading, ev, env.langs, s, p + 12, LoopLength(s, p));
  }

  /** The chninfo records and counters of the module, and the events the callback received. */
  class Grabber {
    var channels: seq<Channel>
    var updates: nat
    var invalidDates: nat
    var programmes: nat
    var emitted: seq<E.Record>

    function Tallied(): Tally
      reads this
    {
      Tally(invalidDates, programmes, emitted)
    }

    function Value(): State
      reads this
    {
      State(channels, updates, Tallied())
    }

    constructor ()
      ensures Value() == State([], 0, Tally(0, 0, []))
    {
      channels, updates, invalidDates, programmes, emitted := [], 0, 0, 0, [];
    }

    /** The walk of the chninfo list for a (sid, eid) pair. */
    method FindChannel(sid: nat, eid: nat) returns (r: Option<nat>)
      ensures r == IndexOf(channels, Key, (sid, eid))
    {
      var i := 0;
      while i < |channels|
        invariant 0 <= i <= |channels|
        invariant forall j :: 0 <= j < i ==> Key(channels[j]) != (sid, eid)
      {
        if channels[i].sid == sid && channels[i].eid == eid {
          return Some(i);
        }
        i := i + 1;
      }
      return None;
    }

    /** The empty-loop, date and title checks with their count. */
    method ScreenEvent(env: Env, s: seq<Byte>, p: int) returns (o: Outcome)
      modifies this
      ensures Checked(Tallied(), o) == Screen(old(Tallied()), env, s, p)
      ensures channels == old(channels) && updates == old(updates)
    {
      var len := LoopLength(s, p);
      if len == 0 {
        return Returned(0);
      }
      if BadDateIn(env.reading, Stop(s, p, env.config.timeOffset), env.now) {
        invalidDates := invalidDates + 1;
        if env.config.ignoreBadDates {
          return Returned(0);
        }
      }
      var ok := D.ValidateDescription(s, p + 12, len);
      if !ok {
        return Returned(0);
      }
      return Next;
    }

    /** The count and the callback of an event whose descriptors were
        decoded into e from the event base. */
    method Emit(ghost base: E.Record, desc: D.Scan, e: E.Record) returns (o: Outcome)
      requires desc.Done? ==> e == D.ApplyAll(base, desc.effects)
      modifies this
      ensures Checked(Tallied(), o) == Decode(old(Tallied()), base, desc)
      ensures channels == old(channels) && updates == old(updates)
    {
      programmes := programmes + 1;
      if desc.Exit? {
        return Exit;
      }
      emitted := emitted + [e];
      return Next;
    }

    /** An allocated event: its times, the validations, the decoding and the
        callback. The times only matter for an event that passes the validations,
        so they are set once it has. */
    method AdmitEvent(ev: E.Event, env: Env, service: Option<nat>, s: seq<Byte>, p: int) returns (o: Outcome)
      requires ev.Value() == Allocated(env, service, s, p)
      modifies this, ev
      ensures Checked(Tallied(), o) == Admit(old(Tallied()), env, service, s, p)
      ensures channels == old(channels) && updates == old(updates)
    {
      o := ScreenEvent(env, s, p);
      if !o.Next? {
        return;
      }
      var start := Start(s, p, env.config.timeOffset);
      ev.SetTimes(start, Stop(s, p, env.config.timeOffset) - start);
      var desc := Describe(ev, env, service, s, p);
      o := Emit(Prepared(env, service, s, p), desc, ev.Value());
    }

    /** The body of the event loop. */
    method ParseEvent(env: Env, service: Option<nat>, s: seq<Byte>, p: int) returns (o: Outcome)
      modifies this
      ensures Step(Value(), o) == EventStep(old(Value()), env, Handling(env, service, s), s, p)
    {
      var sid, eid, ver := ServiceId(s), EventId(s, p), VersionNumber(s);
      var found := FindChannel(sid, eid);
      if found.Some? {
        if SeenIn(env.reading, channels[found.value].ver, ver) {
          return Returned(0);
        }
        channels := channels[found.value := Channel(sid, eid, ver)];
        updates := updates + 1;
      }
      o := AllocateEvent(env, service, s, p, found.Some?);
    }

    /** The allocation of an event not seen at this version, and what follows. */
    method AllocateEvent(env: Env, service: Option<nat>, s: seq<Byte>, p: int, known: bool) returns (o: Outcome)
      modifies this
      ensures Step(Value(), o) == Allocation(old(Value()), env, Handling(env, service, s), s, p, known)
    {
      if known && env.config.ignoreUpdates {
        return Returned(0);
      }
      var sid, eid := ServiceId(s), EventId(s, p);
      var a := E.Alloc(EventIdent(env, sid, eid));
      if a.None? {
        return Returned(-1);
      }
      var ev := a.value;
      ev.SetService(service);
      if !known {
        channels := [Channel(sid, eid, VersionNumber(s))] + channels;
      }
      ghost var g2 := Value();
      o := AdmitEvent(ev, env, service, s, p);
      assert Value() == g2.(tally := Tallied());
    }

    /** One pass of the event loop: the event at p, and the offset of the
        next one. */
    method EventAt(env: Env, service: Option<nat>, s: seq<Byte>, p: int, end: int) returns (o: Outcome, next: int)
      requires p < end
      modifies this
      ensures p < next
      ensures o.Next? ==> Events(Value(), env, Handling(env, service, s), s, next, end) == Events(old(Value()), env, Handling(env, service, s), s, p, end)
      ensures !o.Next? ==> Step(Value(), o) == Events(old(Value()), env, Handling(env, service, s), s, p, end)
    {
      ghost var before := Value();
      o := ParseEvent(env, service, s, p);
      next := EventEnd(s, p);
      NextEvent(before, env, Handling(env, service, s), s, p, end, Value(), o);
    }

    /** parseEIT, with the service registry it locates the section's service in. */
    method Parse(env: Env, services: S.ServiceList, s: seq<Byte>) returns (o: Outcome)
      requires |s| >= 4
      modifies this
      ensures Step(Value(), o) == ParseEit(old(Value()), env, services.services, s)
    {
      var service := services.Locate(S.DvbUri(NetworkId(s), TransportStreamId(s), ServiceId(s)));
      ghost var all := ParseEit(Value(), env, services.services, s);
      var p := 14;
      while p < |s| - 4
        invariant Events(Value(), env, Handling(env, service, s), s, p, |s| - 4) == all
        decreases |s| - 4 - p
      {
        var next;
        o, next := EventAt(env, service, s, p, |s| - 4);
        if !o.Next? {
          return;
        }
        p := next;
      }
      return Returned(0);
    }
  }
}
