// dvb/sdt.c: decoding a Service Description Table (ETSI EN 300 468 section
// 5.2.3) into the service and multiplex registries. Each section lists
// services of one transport stream; each service entry carries a descriptor
// loop whose service descriptor (tag 0x48) and default authority descriptor
// (tag 0x73) fill in the service record.
module Sdt {
  import opened Wrappers
  import opened Wire
  import opened Registry
  import opened Demux
  import S = Services
  import M = Multiplexes

  /** SDT_LEN: the section header before the first service entry. */
  const HeaderLen: nat := 11
  /** SDT_DESCR_LEN: service_id, flags and descriptors_loop_length. */
  const EntryLen: nat := 5
  /** sizeof(si_tab_t) - 4: the section ends 3 bytes after section_length,
      and its last 4 bytes are the CRC. */
  function EntriesEnd(s: Section): int { SectionLength(s) + 3 - 4 }

  /** What decoding leaves behind: both registries and the services passed
      to the service callback, in order. */
  datatype State = State(services: seq<S.Service>, muxes: seq<M.Mux>, visited: seq<nat>)

  /** Every service's multiplex is a record of the multiplex registry. */
  predicate Linked(services: seq<S.Service>, muxes: seq<M.Mux>)
  {
    forall i :: 0 <= i < |services| && services[i].mux.Some? ==> services[i].mux.value < |muxes|
  }

  /** The registries are well formed: no URI twice, every service's
      multiplex and every visited service exists. */
  predicate Valid(st: State)
  {
    Unique(st.services, S.Uri) && Unique(st.muxes, M.Uri) && Linked(st.services, st.muxes) &&
    forall k :: 0 <= k < |st.visited| ==> st.visited[k] < |st.services|
  }

  /** One descriptor at offset d applied to a service record. Tag 0x48
      (parse_sdt_service_descriptor) sets the type, then the provider of
      provider_name_length bytes, then the name whose length byte follows;
      tag 0x73 (parse_sdt_default_authority_descriptor) sets the authority
      from descriptor_length bytes; every other tag is only logged. */
  function Describe(svc: S.Service, s: Section, d: int): (r: S.Service)
    ensures r.uri == svc.uri && r.data == svc.data && r.version == svc.version && r.mux == svc.mux
    ensures At(s, d) == 0x48 ==> r.authority == svc.authority && r.serviceType == At(s, d + 2)
    ensures At(s, d) == 0x48 ==> |r.provider| <= At(s, d + 3) && |r.name| < S.UriSize
    ensures At(s, d) == 0x73 ==>
      (r.serviceType == svc.serviceType && r.name == svc.name &&
       r.provider == svc.provider && |r.authority| <= At(s, d + 1))
    ensures At(s, d) != 0x48 && At(s, d) != 0x73 ==> r == svc
  {
    if At(s, d) == 0x48 then
      var plen := At(s, d + 3);
      svc.(serviceType := At(s, d + 2),
           provider := Clip(StringField(s, d + 4, plen)),
           name := Clip(StringField(s, d + 5 + plen, At(s, d + 4 + plen))))
    else if At(s, d) == 0x73 then
      svc.(authority := Clip(StringField(s, d + 2, At(s, d + 1))))
    else svc
  }

  /** The descriptor loop from d up to p, each descriptor 2 + descriptor_length
      bytes long. Nothing but the described fields changes. */
  function Descriptors(svc: S.Service, s: Section, d: int, p: int): (r: S.Service)
    ensures r.uri == svc.uri && r.data == svc.data && r.version == svc.version && r.mux == svc.mux
    decreases p - d
  {
    if d < p then Descriptors(Describe(svc, s, d), s, d + 2 + At(s, d + 1), p) else svc
  }

  /** One service entry at offset p, and the offset of the next. The service
      is found or made by service_add_dvb, which resets it; it is linked to
      the multiplex of (onid, tsid); its descriptors are applied; and it is
      passed to the callback only when its descriptor loop is not empty. */
  function Entry(st: State, s: Section, p: int, onid: nat, tsid: nat): (r: (State, int))
    requires onid < 0x1_0000 && tsid < 0x1_0000
    ensures r.1 == p + EntryLen + Field12(s, p + 3)
  {
    EntryTail(EntryHead(st.services, st.muxes, s, p, onid, tsid), st.visited, s, p)
  }

  /** The descriptor loop of an entry and the callback, on the service h.2. */
  function EntryTail(h: (seq<S.Service>, seq<M.Mux>, nat), visited: seq<nat>, s: Section, p: int): (r: (State, int))
    requires h.2 < |h.0|
    ensures r.1 == p + EntryLen + Field12(s, p + 3)
  {
    var ndescr := Field12(s, p + 3);
    if ndescr == 0 then
      (State(h.0, h.1, visited), p + EntryLen)
    else
      var d := p + EntryLen;
      (State(h.0[h.2 := Descriptors(h.0[h.2], s, d, d + ndescr)], h.1, visited + [h.2]), d + ndescr)
  }

  /** The part of an entry before its descriptor loop: service_add_dvb,
      mux_locate_add_dvb and service_set_mux. */
  function EntryHead(services: seq<S.Service>, muxes: seq<M.Mux>, s: Section, p: int, onid: nat, tsid: nat):
    (r: (seq<S.Service>, seq<M.Mux>, nat))
    requires onid < 0x1_0000 && tsid < 0x1_0000
    ensures r.2 < |r.0|
  {
    var a := S.AddDvb(services, onid, tsid, Field16(s, p));
    var b := M.LocateAddDvb(muxes, onid, tsid);
    (a.0[a.1 := a.0[a.1].(mux := Some(b.1))], b.0, a.1)
  }

  /** What one entry does: its service, found by its URI, is reset to
      version -1 and linked to the multiplex found by (onid, tsid), and no
      other service changes. */
  lemma EntryEffect(st: State, s: Section, p: int, onid: nat, tsid: nat)
    requires onid < 0x1_0000 && tsid < 0x1_0000
    ensures
      var r := Entry(st, s, p, onid, tsid).0;
      var uri := S.DvbUri(onid, tsid, Field16(s, p));
      var i := IndexOf(r.services, S.Uri, uri);
      var m := IndexOf(r.muxes, M.Uri, M.DvbUri(onid, tsid));
      i.Some? && m.Some? && |st.services| <= |r.services| &&
      r.services[i.value].uri == uri && r.services[i.value].version == -1 &&
      r.services[i.value].mux == m &&
      forall j :: 0 <= j < |st.services| && j != i.value ==> r.services[j] == st.services[j]
  {
    var h := EntryHead(st.services, st.muxes, s, p, onid, tsid);
    HeadEffect(st.services, st.muxes, s, p, onid, tsid);
    TailEffect(h, st.visited, s, p);
    var r := Entry(st, s, p, onid, tsid).0;
    assert r == EntryTail(h, st.visited, s, p).0;
    assert IndexOf(r.services, S.Uri, S.DvbUri(onid, tsid, Field16(s, p))) == Some(h.2);
  }

  /** The callback list of one entry grows by its service iff its
      descriptor loop is not empty; with an empty loop the service keeps no
      name, provider or authority. */
  lemma EntryCallback(st: State, s: Section, p: int, onid: nat, tsid: nat)
    requires onid < 0x1_0000 && tsid < 0x1_0000
    ensures
      var r := Entry(st, s, p, onid, tsid).0;
      var i := IndexOf(r.services, S.Uri, S.DvbUri(onid, tsid, Field16(s, p)));
      i.Some? &&
      r.visited == st.visited + (if Field12(s, p + 3) == 0 then [] else [i.value]) &&
      (Field12(s, p + 3) == 0 ==>
        r.services[i.value] == S.Reset(r.services[i.value]).(mux := IndexOf(r.muxes, M.Uri, M.DvbUri(onid, tsid))))
  {
    var h := EntryHead(st.services, st.muxes, s, p, onid, tsid);
    HeadEffect(st.services, st.muxes, s, p, onid, tsid);
    TailEffect(h, st.visited, s, p);
    var r := Entry(st, s, p, onid, tsid).0;
    assert r == EntryTail(h, st.visited, s, p).0;
    assert IndexOf(r.services, S.Uri, S.DvbUri(onid, tsid, Field16(s, p))) == Some(h.2);
  }

  /** The descriptor loop changes only the service h.2, and none of its URI,
      version and multiplex. */
  lemma TailEffect(h: (seq<S.Service>, seq<M.Mux>, nat), visited: seq<nat>, s: Section, p: int)
    requires h.2 < |h.0|
    ensures var r := EntryTail(h, visited, s, p).0; var x := r.services[h.2];
      r.muxes == h.1 && |r.services| == |h.0| && r.services == h.0[h.2 := x] &&
      x.uri == h.0[h.2].uri && x.version == h.0[h.2].version && x.mux == h.0[h.2].mux &&
      r.visited == visited + (if Field12(s, p + 3) == 0 then [] else [h.2]) &&
      (Field12(s, p + 3) == 0 ==> x == h.0[h.2]) &&
      (forall k :: IndexOf(r.services, S.Uri, k) == IndexOf(h.0, S.Uri, k)) &&
      (Unique(h.0, S.Uri) ==> Unique(r.services, S.Uri)) &&
      (Linked(h.0, h.1) ==> Linked(r.services, r.muxes))
  {
    var r := EntryTail(h, visited, s, p).0;
    if Field12(s, p + 3) == 0 {
      assert h.0[h.2 := h.0[h.2]] == h.0;
    }
    ReplaceKeepsIndex(h.0, S.Uri, h.2, r.services[h.2]);
    if Linked(h.0, h.1) {
      forall j | 0 <= j < |r.services| && r.services[j].mux.Some?
        ensures r.services[j].mux.value < |r.muxes|
      {
        assert r.services[j].mux == h.0[j].mux;
      }
    }
  }

  /** What service_add_dvb, mux_locate_add_dvb and service_set_mux do. */
  lemma HeadEffect(services: seq<S.Service>, muxes: seq<M.Mux>, s: Section, p: int, onid: nat, tsid: nat)
    requires onid < 0x1_0000 && tsid < 0x1_0000
    ensures
      var h := EntryHead(services, muxes, s, p, onid, tsid);
      var uri := S.DvbUri(onid, tsid, Field16(s, p));
      var m := IndexOf(h.1, M.Uri, M.DvbUri(onid, tsid));
      IndexOf(h.0, S.Uri, uri) == Some(h.2) && m.Some? && m.value < |h.1| &&
      h.0[h.2].uri == uri &&
      h.0[h.2] == S.Reset(h.0[h.2]).(mux := m) &&
      |h.0| >= |services| && |h.1| >= |muxes| &&
      (forall j :: 0 <= j < |services| && j != h.2 ==> h.0[j] == services[j]) &&
      (Unique(services, S.Uri) ==> Unique(h.0, S.Uri)) &&
      (Unique(muxes, M.Uri) ==> Unique(h.1, M.Uri)) &&
      (Linked(services, muxes) ==> Linked(h.0, h.1))
  {
    var sid := Field16(s, p);
    var a := S.AddDvb(services, onid, tsid, sid);
    var b := M.LocateAddDvb(muxes, onid, tsid);
    var ss, i, ms, m := a.0, a.1, b.0, b.1;
    var h := EntryHead(services, muxes, s, p, onid, tsid);
    assert h == (ss[i := ss[i].(mux := Some(m))], ms, i);
    ReplaceKeepsIndex(ss, S.Uri, i, h.0[i]);
    if Linked(services, muxes) {
      forall j | 0 <= j < |h.0| && h.0[j].mux.Some?
        ensures h.0[j].mux.value < |h.1|
      {
        if j < |services| && j != i {
          assert h.0[j] == services[j];
        }
      }
    }
  }

  /** One entry keeps the registries well formed. */
  lemma EntryValid(st: State, s: Section, p: int, onid: nat, tsid: nat)
    requires onid < 0x1_0000 && tsid < 0x1_0000
    requires Valid(st)
    ensures Valid(Entry(st, s, p, onid, tsid).0)
  {
    var h := EntryHead(st.services, st.muxes, s, p, onid, tsid);
    HeadEffect(st.services, st.muxes, s, p, onid, tsid);
    TailEffect(h, st.visited, s, p);
    var r := Entry(st, s, p, onid, tsid).0;
    assert r == EntryTail(h, st.visited, s, p).0;
    forall k | 0 <= k < |r.visited|
      ensures r.visited[k] < |r.services|
    {
      if k < |st.visited| {
        assert r.visited[k] == st.visited[k];
      }
    }
  }

  /** The entries from p up to end. */
  function Entries(st: State, s: Section, p: int, end: int, onid: nat, tsid: nat): (r: State)
    requires onid < 0x1_0000 && tsid < 0x1_0000
    decreases end - p
  {
    if p < end then
      var e := Entry(st, s, p, onid, tsid);
      Entries(e.0, s, e.1, end, onid, tsid)
    else st
  }

  lemma {:induction false} EntriesValid(st: State, s: Section, p: int, end: int, onid: nat, tsid: nat)
    requires onid < 0x1_0000 && tsid < 0x1_0000
    requires Valid(st)
    ensures Valid(Entries(st, s, p, end, onid, tsid))
    decreases end - p
  {
    if p < end {
      EntryValid(st, s, p, onid, tsid);
      var e := Entry(st, s, p, onid, tsid);
      EntriesValid(e.0, s, e.1, end, onid, tsid);
    }
  }

  /** One section: its entries start after the header and stop before the CRC. */
  function ParseSection(st: State, s: Section): State
  {
    Entries(st, s, HeaderLen, EntriesEnd(s), Field16(s, 8), Field16(s, 3))
  }

  /** dvb_parse_sdt: the sections in order, up to the first that is not
      current. */
  function ParseTable(st: State, secs: seq<Section>): (r: State)
    decreases |secs|
  {
    if secs == [] || !CurrentNext(secs[0]) then st
    else ParseTable(ParseSection(st, secs[0]), secs[1..])
  }

  /** Decoding keeps the registries well formed. */
  lemma {:induction false} ParseTableValid(st: State, secs: seq<Section>)
    requires Valid(st)
    ensures Valid(ParseTable(st, secs))
    decreases |secs|
  {
    if secs != [] && CurrentNext(secs[0]) {
      EntriesValid(st, secs[0], HeaderLen, EntriesEnd(secs[0]), Field16(secs[0], 8), Field16(secs[0], 3));
      ParseTableValid(ParseSection(st, secs[0]), secs[1..]);
    }
  }

  /** A section that is not current ends the table: it and every later
      section are ignored. */
  lemma {:induction false} StopsAtNotCurrent(st: State, secs: seq<Section>, k: nat)
    requires k < |secs| && !CurrentNext(secs[k])
    ensures ParseTable(st, secs) == ParseTable(st, secs[..k])
    decreases k
  {
    if k > 0 && CurrentNext(secs[0]) {
      var next, init := ParseSection(st, secs[0]), secs[..k];
      assert secs[1..][k - 1] == secs[k];
      StopsAtNotCurrent(next, secs[1..], k - 1);
      assert init[0] == secs[0] && secs[1..][..k - 1] == init[1..];
      assert ParseTable(st, init) == ParseTable(next, init[1..]);
    } else if k > 0 {
      assert secs[..k][0] == secs[0];
    }
  }

  /** Decoding only adds: no service is removed, the multiplexes already
      there stay as they were, and the new ones have no platform. */
  predicate Grows(a: State, b: State)
  {
    |a.services| <= |b.services| && a.muxes <= b.muxes &&
    forall j :: |a.muxes| <= j < |b.muxes| ==> b.muxes[j].platform.None?
  }

  lemma GrowsTransitive(a: State, b: State, c: State)
    requires Grows(a, b) && Grows(b, c)
    ensures Grows(a, c)
  {
    forall j | |a.muxes| <= j < |c.muxes|
      ensures c.muxes[j].platform.None?
    {
      if j < |b.muxes| {
        assert c.muxes[j] == b.muxes[j];
      }
    }
  }

  lemma EntryGrows(st: State, s: Section, p: int, onid: nat, tsid: nat)
    requires onid < 0x1_0000 && tsid < 0x1_0000
    ensures Grows(st, Entry(st, s, p, onid, tsid).0)
  {
    var h := EntryHead(st.services, st.muxes, s, p, onid, tsid);
    var a := S.AddDvb(st.services, onid, tsid, Field16(s, p));
    var b := M.LocateAddDvb(st.muxes, onid, tsid);
    assert h.0 == a.0[a.1 := a.0[a.1].(mux := Some(b.1))] && h.1 == b.0;
    MuxesGrow(st.muxes, onid, tsid);
    TailEffect(h, st.visited, s, p);
  }

  /** mux_locate_add_dvb keeps the multiplexes there and adds at most one
      without a platform. */
  lemma MuxesGrow(ms: seq<M.Mux>, onid: nat, tsid: nat)
    requires onid < 0x1_0000 && tsid < 0x1_0000
    ensures var r := M.LocateAddDvb(ms, onid, tsid).0;
      ms <= r && forall j :: |ms| <= j < |r| ==> r[j].platform.None?
  {
    M.DvbUriInjective(onid, tsid, onid, tsid);
  }

  lemma {:induction false} EntriesGrows(st: State, s: Section, p: int, end: int, onid: nat, tsid: nat)
    requires onid < 0x1_0000 && tsid < 0x1_0000
    ensures Grows(st, Entries(st, s, p, end, onid, tsid))
    decreases end - p
  {
    if p < end {
      var e := Entry(st, s, p, onid, tsid);
      EntryGrows(st, s, p, onid, tsid);
      EntriesGrows(e.0, s, e.1, end, onid, tsid);
      GrowsTransitive(st, e.0, Entries(st, s, p, end, onid, tsid));
    } else {
      assert Entries(st, s, p, end, onid, tsid) == st;
    }
  }

  /** Decoding a table only adds services and multiplexes. */
  lemma {:induction false} ParseTableGrows(st: State, secs: seq<Section>)
    ensures Grows(st, ParseTable(st, secs))
    decreases |secs|
  {
    if secs != [] && CurrentNext(secs[0]) {
      var s := secs[0];
      EntriesGrows(st, s, HeaderLen, EntriesEnd(s), Field16(s, 8), Field16(s, 3));
      ParseTableGrows(ParseSection(st, s), secs[1..]);
      GrowsTransitive(st, ParseSection(st, s), ParseTable(st, secs));
    } else {
      assert ParseTable(st, secs) == st;
    }
  }

  /** A service descriptor as a broadcaster writes it. */
  function EncodeServiceDescriptor(serviceType: Byte, provider: seq<Byte>, name: seq<Byte>): (r: seq<Byte>)
    requires |provider| < 128 && |name| < 124
    ensures |r| == 2 + At(r, 1)
  {
    [0x48, 3 + |provider| + |name|, serviceType, |provider|] + provider + [|name|] + name
  }

  /** Decoding a service descriptor gives back its type, provider and name. */
  lemma ServiceDescriptorRoundTrip(svc: S.Service, serviceType: Byte, provider: seq<Byte>, name: seq<Byte>)
    requires |provider| < 128 && |name| < 124
    requires forall k :: 0 <= k < |provider| ==> provider[k] != 0
    requires forall k :: 0 <= k < |name| ==> name[k] != 0
    ensures Describe(svc, EncodeServiceDescriptor(serviceType, provider, name), 0) ==
      svc.(serviceType := serviceType, provider := Chars(provider), name := Chars(name))
  {
    var e := EncodeServiceDescriptor(serviceType, provider, name);
    var pl := |provider|;
    ServiceDescriptorLayout(serviceType, provider, name);
    AtSlice(e, 0, e, 0);
    AtSlice(e, 0, e, 2);
    AtSlice(e, 0, e, 3);
    AtSlice(e, 0, e, 4 + pl);
    StringFieldSlice(e, 0, e, 4, pl);
    StringFieldSlice(e, 0, e, 5 + pl, |name|);
    ServiceDescriptorFields(svc, e, 0, serviceType, pl, |name|, Chars(provider), Chars(name));
  }

  /** Where each field of an encoded service descriptor lies. */
  lemma ServiceDescriptorLayout(serviceType: Byte, provider: seq<Byte>, name: seq<Byte>)
    requires |provider| < 128 && |name| < 124
    requires forall k :: 0 <= k < |provider| ==> provider[k] != 0
    requires forall k :: 0 <= k < |name| ==> name[k] != 0
    ensures var b := EncodeServiceDescriptor(serviceType, provider, name); var pl := |provider|;
      |b| == 5 + pl + |name| && b[0] == 0x48 && b[2] == serviceType && b[3] == pl && b[4 + pl] == |name| &&
      b[0..|b|] == b && b[4..4 + pl] == provider && b[5 + pl..5 + pl + |name|] == name &&
      (forall j :: 4 <= j < 4 + pl ==> b[j] != 0) &&
      (forall j :: 5 + pl <= j < 5 + pl + |name| ==> b[j] != 0)
  {
    var b := EncodeServiceDescriptor(serviceType, provider, name);
    var pl := |provider|;
    assert b == [0x48, 3 + pl + |name|, serviceType, pl] + provider + [|name|] + name;
    assert forall j :: 4 <= j < 4 + pl ==> b[j] == provider[j - 4];
    assert forall j :: 5 + pl <= j < 5 + pl + |name| ==> b[j] == name[j - 5 - pl];
  }

  /** A service descriptor at d whose fields read as the given type, provider
      and name. */
  lemma ServiceDescriptorFields(svc: S.Service, s: Section, d: int, serviceType: Byte, plen: nat, nlen: nat,
                                provider: string, name: string)
    requires At(s, d) == 0x48 && At(s, d + 2) == serviceType && |provider| < 128 && |name| < 128
    requires At(s, d + 3) == plen && StringField(s, d + 4, plen) == provider
    requires At(s, d + 4 + plen) == nlen && StringField(s, d + 5 + plen, nlen) == name
    ensures Describe(svc, s, d) == svc.(serviceType := serviceType, provider := provider, name := name)
  { }

  /** A default authority descriptor as a broadcaster writes it. */
  function EncodeAuthority(authority: seq<Byte>): (r: seq<Byte>)
    requires |authority| < 128
    ensures |r| == 2 + At(r, 1)
  {
    [0x73, |authority|] + authority
  }

  /** Decoding a default authority descriptor gives back the authority. */
  lemma AuthorityRoundTrip(svc: S.Service, authority: seq<Byte>)
    requires |authority| < 128
    requires forall k :: 0 <= k < |authority| ==> authority[k] != 0
    ensures Describe(svc, EncodeAuthority(authority), 0) == svc.(authority := Chars(authority))
  {
    var e := EncodeAuthority(authority);
    assert e[0..|e|] == e && e[2..2 + |authority|] == authority;
    assert forall j :: 2 <= j < 2 + |authority| ==> e[j] == authority[j - 2];
    StringFieldSlice(e, 0, e, 2, |authority|);
  }

  /** parse_sdt_service_descriptor and parse_sdt_default_authority_descriptor,
      through the service setters. */
  method DescribeAt(s: Section, d: int, svc: nat, services: S.ServiceList)
    requires svc < |services.services|
    modifies services
    ensures services.services == old(services.services)[svc := Describe(old(services.services)[svc], s, d)]
  {
    var tag := At(s, d);
    if tag == 0x48 {
      services.SetType(svc, At(s, d + 2));
      var plen := At(s, d + 3);
      services.SetProvider(svc, StringField(s, d + 4, plen));
      var l := At(s, d + 4 + plen);
      services.SetName(svc, StringField(s, d + 5 + plen, l));
    } else if tag == 0x73 {
      services.SetAuthority(svc, StringField(s, d + 2, At(s, d + 1)));
    }
  }

  /** The body of the entry loop of dvb_parse_sdt. */
  method ParseEntry(s: Section, p: int, onid: nat, tsid: nat, services: S.ServiceList, muxes: M.MuxList,
                    visited0: seq<nat>) returns (next: int, visited: seq<nat>)
    requires onid < 0x1_0000 && tsid < 0x1_0000
    modifies services, muxes
    ensures (State(services.services, muxes.muxes, visited), next) ==
      Entry(State(old(services.services), old(muxes.muxes), visited0), s, p, onid, tsid)
  {
    var i := ParseEntryHead(s, p, onid, tsid, services, muxes);
    next, visited := ParseEntryTail(s, p, i, services, muxes, visited0);
  }

  method ParseEntryTail(s: Section, p: int, i: nat, services: S.ServiceList, muxes: M.MuxList,
                        visited0: seq<nat>) returns (next: int, visited: seq<nat>)
    requires i < |services.services|
    modifies services
    ensures (State(services.services, muxes.muxes, visited), next) ==
      EntryTail((old(services.services), muxes.muxes, i), visited0, s, p)
  {
    var ndescr := Field12(s, p + 3);
    next := p + EntryLen;
    visited := visited0;
    if ndescr == 0 {
      return;
    }
    var d := next;
    next := next + ndescr;
    DescribeAll(s, d, next, i, services);
    visited := visited + [i];
  }

  method ParseEntryHead(s: Section, p: int, onid: nat, tsid: nat, services: S.ServiceList, muxes: M.MuxList)
    returns (i: nat)
    requires onid < 0x1_0000 && tsid < 0x1_0000
    modifies services, muxes
    ensures (services.services, muxes.muxes, i) == EntryHead(old(services.services), old(muxes.muxes), s, p, onid, tsid)
  {
    var sid := Field16(s, p);
    i := services.RegisterDvb(onid, tsid, sid);
    var mux := muxes.LocateRegisterDvb(onid, tsid);
    services.SetMux(i, Some(mux));
  }

  /** The descriptor loop of dvb_parse_sdt. */
  method DescribeAll(s: Section, d0: int, p: int, i: nat, services: S.ServiceList)
    requires i < |services.services|
    modifies services
    ensures services.services == old(services.services)[i := Descriptors(old(services.services)[i], s, d0, p)]
  {
    var d := d0;
    ghost var before := services.services;
    while d < p
      invariant |services.services| == |before|
      invariant services.services == before[i := services.services[i]]
      invariant Descriptors(services.services[i], s, d, p) == Descriptors(before[i], s, d0, p)
      decreases p - d
    {
      d := DescribeStep(s, d, p, i, services);
    }
  }

  /** One turn of the descriptor loop: the next descriptor starts at next. */
  method DescribeStep(s: Section, d: int, p: int, i: nat, services: S.ServiceList) returns (next: int)
    requires d < p && i < |services.services|
    modifies services
    ensures d < next && |services.services| == |old(services.services)|
    ensures services.services == old(services.services)[i := services.services[i]]
    ensures Descriptors(services.services[i], s, next, p) == Descriptors(old(services.services)[i], s, d, p)
  {
    next := d + 2 + At(s, d + 1);
    ghost var x := services.services[i];
    DescribeAt(s, d, i, services);
    assert services.services[i] == Describe(x, s, d);
    DescriptorsUnfold(x, s, d, p);
  }

  lemma DescriptorsUnfold(svc: S.Service, s: Section, d: int, p: int)
    requires d < p
    ensures Descriptors(svc, s, d, p) == Descriptors(Describe(svc, s, d), s, d + 2 + At(s, d + 1), p)
  {
  }

  /** The section loop of dvb_parse_sdt. */
  method ParseSectionInto(s: Section, services: S.ServiceList, muxes: M.MuxList, visited0: seq<nat>)
    returns (visited: seq<nat>)
    modifies services, muxes
    ensures State(services.services, muxes.muxes, visited) ==
      ParseSection(State(old(services.services), old(muxes.muxes), visited0), s)
  {
    var onid, tsid := Field16(s, 8), Field16(s, 3);
    var end := EntriesEnd(s);
    var p: int := HeaderLen;
    visited := visited0;
    while p < end
      invariant Entries(State(services.services, muxes.muxes, visited), s, p, end, onid, tsid) ==
        ParseSection(State(old(services.services), old(muxes.muxes), visited0), s)
      decreases end - p
    {
      p, visited := ParseEntry(s, p, onid, tsid, services, muxes, visited);
    }
  }

  /** dvb_parse_sdt: returns the services passed to the callback. */
  method ParseSdt(t: Table, services: S.ServiceList, muxes: M.MuxList) returns (visited: seq<nat>)
    requires Complete(t)
    modifies services, muxes
    ensures State(services.services, muxes.muxes, visited) ==
      ParseTable(State(old(services.services), old(muxes.muxes), []), Payloads(t))
  {
    var secs := Payloads(t);
    visited := [];
    var i := 0;
    while i < |secs|
      invariant 0 <= i <= |secs|
      invariant ParseTable(State(services.services, muxes.muxes, visited), secs[i..]) ==
        ParseTable(State(old(services.services), old(muxes.muxes), []), secs)
    {
      assert secs[i..][0] == secs[i] && secs[i..][1..] == secs[i + 1..];
      if !CurrentNext(secs[i]) {
        return;
      }
      visited := ParseSectionInto(secs[i], services, muxes, visited);
      i := i + 1;
    }
  }
}
