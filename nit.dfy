// dvb/nit.c: decoding a Network Information Table (ETSI EN 300 468 section
// 5.2.1) into the network, platform, multiplex and service registries. The
// first section names the network; each section then carries the network
// descriptors (tag 0x40 gives the network name) and a loop of transport
// streams, each with its own descriptor loop, where the logical channel
// descriptor (tag 0x83) numbers the services of that stream.
module Nit {
  import opened Wrappers
  import opened Wire
  import opened Registry
  import opened Demux
  import S = Services
  import M = Multiplexes
  import P = Platforms
  import N = Networks

  /** NIT_LEN: the section header before the network descriptors. */
  const HeaderLen: nat := 10
  /** SIZE_NIT_MID: the transport_stream_loop_length field. */
  const MidLen: nat := 2
  /** NIT_TS_LEN: transport_stream_id, original_network_id and
      transport_descriptors_length. */
  const TsLen: nat := 6
  /** DESCR_LCSVC_LEN: one entry of the logical channel descriptor. */
  const LcnLen: nat := 4

  /** The four registries the decoder fills in. */
  datatype State = State(networks: seq<N.Network>, platforms: seq<P.Platform>,
                         muxes: seq<M.Mux>, services: seq<S.Service>)

  /** Whether the network callback is made, and with which network. */
  datatype Report = NoCallback | Callback(network: Option<nat>)

  /** Two network lists hold the same records, up to the names, multiplexes
      and service slots: what decoding the body of a section may change. */
  predicate Keeps(a: seq<N.Network>, b: seq<N.Network>)
  {
    |a| == |b| &&
    forall j :: 0 <= j < |a| ==> a[j].ident == b[j].ident && a[j].version == b[j].version && a[j].data == b[j].data
  }

  // ---------------------------------------------------------------------
  // The network descriptor loop

  /** One network descriptor at offset d: the network name descriptor sets
      the name from its descriptor_length bytes; the linkage descriptor and
      the others are only logged. */
  function NameDescriptor(net: N.Network, s: Section, d: int): (r: N.Network)
    ensures At(s, d) == 0x40 ==> r == net.(name := Clip(StringField(s, d + 2, At(s, d + 1))))
    ensures At(s, d) != 0x40 ==> r == net
  {
    if At(s, d) == 0x40 then net.(name := Clip(StringField(s, d + 2, At(s, d + 1)))) else net
  }

  /** The network descriptors from d up to p, each 2 + descriptor_length
      bytes long. Only the name changes. */
  function NameDescriptors(net: N.Network, s: Section, d: int, p: int): (r: N.Network)
    ensures r == net.(name := r.name)
    decreases p - d
  {
    if d < p then NameDescriptors(NameDescriptor(net, s, d), s, d + 2 + At(s, d + 1), p) else net
  }

  /** A network name descriptor as a broadcaster writes it. */
  function EncodeNetworkName(name: seq<Byte>): (r: seq<Byte>)
    requires |name| < 256
    ensures |r| == 2 + At(r, 1)
  {
    [0x40, |name|] + name
  }

  /** Decoding a network name descriptor gives back the name, clipped to
      the 127 characters the record holds. */
  lemma NetworkNameRoundTrip(net: N.Network, name: seq<Byte>)
    requires |name| < 256
    requires forall k :: 0 <= k < |name| ==> name[k] != 0
    ensures var e := EncodeNetworkName(name);
      NameDescriptors(net, e, 0, |e|) == net.(name := Clip(Chars(name)))
  {
    var e := EncodeNetworkName(name);
    assert e[0..|e|] == e && e[2..2 + |name|] == name;
    assert forall j :: 2 <= j < 2 + |name| ==> e[j] == name[j - 2];
    StringFieldSlice(e, 0, e, 2, |name|);
    assert NameDescriptor(net, e, 0) == net.(name := Clip(Chars(name)));
  }

  // ---------------------------------------------------------------------
  // The logical channel descriptor

  /** The 4-byte entry at p. */
  function LcnAt(s: Section, p: int): (e: LcnEntry)
    ensures e.serviceId < 0x1_0000 && e.lcn < 1024
  {
    DecodeLcn(At(s, p), At(s, p + 1), At(s, p + 2), At(s, p + 3))
  }

  /** What one entry does: service_locate_add_dvb, service_set_mux and
      network_set_service(visible_service_flag, logical_channel_number, -1). */
  function LcnEntryAt(st: State, e: LcnEntry, n: nat, onid: nat, tsid: nat, mux: nat): (r: State)
    requires n < |st.networks| && onid < 0x1_0000 && tsid < 0x1_0000 && e.serviceId < 0x1_0000
    ensures r.platforms == st.platforms && r.muxes == st.muxes && Keeps(st.networks, r.networks)
  {
    var sv := S.LocateAddDvb(st.services, onid, tsid, e.serviceId);
    var ss := sv.0[sv.1 := sv.0[sv.1].(mux := Some(mux))];
    var net := st.networks[n];
    var slots := N.SetService(net.services, Some(sv.1), if e.visible then 1 else 0, e.lcn, -1).0;
    State(st.networks[n := net.(services := slots)], st.platforms, st.muxes, ss)
  }

  /** The entries from p up to d, 4 bytes each. */
  function Lcns(st: State, s: Section, p: int, d: int, n: nat, onid: nat, tsid: nat, mux: nat): (r: State)
    requires n < |st.networks| && onid < 0x1_0000 && tsid < 0x1_0000
    ensures r.platforms == st.platforms && r.muxes == st.muxes && Keeps(st.networks, r.networks)
    decreases d - p
  {
    if p < d then Lcns(LcnEntryAt(st, LcnAt(s, p), n, onid, tsid, mux), s, p + LcnLen, d, n, onid, tsid, mux)
    else st
  }

  // ---------------------------------------------------------------------
  // The transport stream loop

  /** The transport stream descriptors from dd up to d: only the logical
      channel descriptor does anything. */
  function TsDescriptors(st: State, s: Section, dd: int, d: int, n: nat, onid: nat, tsid: nat, mux: nat): (r: State)
    requires n < |st.networks| && onid < 0x1_0000 && tsid < 0x1_0000
    ensures r.platforms == st.platforms && r.muxes == st.muxes && Keeps(st.networks, r.networks)
    decreases d - dd
  {
    if dd < d then TsDescriptors(TsDescriptor(st, s, dd, n, onid, tsid, mux), s, DescriptorEnd(s, dd), d, n, onid, tsid, mux)
    else st
  }

  /** One transport stream descriptor at dd: only the logical channel
      descriptor (tag 0x83) does anything. */
  function TsDescriptor(st: State, s: Section, dd: int, n: nat, onid: nat, tsid: nat, mux: nat): (r: State)
    requires n < |st.networks| && onid < 0x1_0000 && tsid < 0x1_0000
    ensures r.platforms == st.platforms && r.muxes == st.muxes && Keeps(st.networks, r.networks)
    ensures At(s, dd) != 0x83 ==> r == st
  {
    if At(s, dd) == 0x83 then Lcns(st, s, dd + 2, DescriptorEnd(s, dd), n, onid, tsid, mux) else st
  }

  lemma TsDescriptorIsLcns(st: State, after: State, s: Section, dd: int, d: int, n: nat, onid: nat, tsid: nat, mux: nat)
    requires At(s, dd) == 0x83 && n < |st.networks| && onid < 0x1_0000 && tsid < 0x1_0000
    requires d == DescriptorEnd(s, dd) && after == Lcns(st, s, dd + 2, d, n, onid, tsid, mux)
    ensures after == TsDescriptor(st, s, dd, n, onid, tsid, mux)
  {
  }

  lemma LcnsUnfold(st: State, s: Section, p: int, d: int, n: nat, onid: nat, tsid: nat, mux: nat)
    requires p < d && n < |st.networks| && onid < 0x1_0000 && tsid < 0x1_0000
    ensures Lcns(st, s, p, d, n, onid, tsid, mux) ==
      Lcns(LcnEntryAt(st, LcnAt(s, p), n, onid, tsid, mux), s, p + LcnLen, d, n, onid, tsid, mux)
  {
  }

  lemma TsDescriptorsUnfold(st: State, s: Section, dd: int, d: int, n: nat, onid: nat, tsid: nat, mux: nat)
    requires dd < d && n < |st.networks| && onid < 0x1_0000 && tsid < 0x1_0000
    ensures TsDescriptors(st, s, dd, d, n, onid, tsid, mux) ==
      TsDescriptors(TsDescriptor(st, s, dd, n, onid, tsid, mux), s, DescriptorEnd(s, dd), d, n, onid, tsid, mux)
  {
  }

  /** The start of a transport stream entry at d: platform_locate_add_dvb,
      mux_locate_add_dvb, mux_set_platform and network_add_mux. Gives the
      multiplex too. */
  function TsHead(st: State, s: Section, d: int, n: nat): (r: (State, nat))
    requires n < |st.networks|
    ensures Keeps(st.networks, r.0.networks) && r.0.services == st.services && r.1 < |r.0.muxes|
  {
    var onid, tsid := Field16(s, d + 2), Field16(s, d);
    var pl := P.LocateAddDvb(st.platforms, onid);
    var mx := M.LocateAddDvb(st.muxes, onid, tsid);
    var ms := mx.0[mx.1 := mx.0[mx.1].(platform := Some(pl.1))];
    var ns := st.networks[n := N.AddMux(st.networks[n], mx.1)];
    (State(ns, pl.0, ms, st.services), mx.1)
  }

  /** The transport stream entries from d up to end, each TsLen bytes plus
      transport_descriptors_length. */
  function TsEntries(st: State, s: Section, d: int, end: int, n: nat): (r: State)
    requires n < |st.networks|
    ensures Keeps(st.networks, r.networks)
    decreases end - d
  {
    if d < end then TsEntries(TsEntry(st, s, d, n), s, TsNext(s, d), end, n) else st
  }

  /** Where the entry after the one at d starts. */
  function TsNext(s: Section, d: int): int { d + TsLen + Field12(s, d + 4) }

  /** One transport stream entry at d: its head, then its descriptors. */
  function TsEntry(st: State, s: Section, d: int, n: nat): (r: State)
    requires n < |st.networks|
    ensures Keeps(st.networks, r.networks)
  {
    var h := TsHead(st, s, d, n);
    TsDescriptors(h.0, s, d + TsLen, TsNext(s, d), n, Field16(s, d + 2), Field16(s, d), h.1)
  }

  /** Where the transport stream loop of a section starts and ends: after
      the network descriptors and the 2-byte loop length. */
  function TsStart(s: Section): int { HeaderLen + Field12(s, 8) + MidLen }
  function TsEnd(s: Section): int { TsStart(s) + Field12(s, HeaderLen + Field12(s, 8)) }

  /** One section of the table for the network n. */
  function Body(st: State, s: Section, n: nat): (r: State)
    requires n < |st.networks|
    ensures Keeps(st.networks, r.networks)
  {
    var net := NameDescriptors(st.networks[n], s, HeaderLen, HeaderLen + Field12(s, 8));
    TsEntries(st.(networks := st.networks[n := net]), s, TsStart(s), TsEnd(s), n)
  }

  // ---------------------------------------------------------------------
  // The section loop

  /** The network of the first section: one found by network_locate_dvb with
      a version at least the incoming one ends the call (None); one found
      with an older version is reset; otherwise network_add_dvb makes it,
      under the "dvb:nid:" identifier as written or the "dvb:nit:" one
      network_locate_dvb looks for when corrected. Either way it then takes
      the incoming version. */
  function Resolve(rd: Reading, ns: seq<N.Network>, s: Section): (r: Option<(seq<N.Network>, nat)>)
    ensures r.Some? ==> r.value.1 < |r.value.0| && |r.value.0| >= |ns|
  {
    var nid := Field16(s, 3);
    match N.LocateDvb(ns, nid)
    case Some(i) =>
      if ns[i].version >= VersionNumber(s) then None
      else Some((ns[i := N.Reset(ns[i]).(version := VersionNumber(s))], i))
    case None =>
      N.AddDvbInAdds(rd, ns, nid);
      var a := N.AddDvbIn(rd, ns, nid);
      Some((a.0[a.1.value := a.0[a.1.value].(version := VersionNumber(s))], a.1.value))
  }

  /** The loop of dvb_parse_nit over the sections, with the network resolved
      so far: a section that is not current ends the call without the
      callback, and so does a stale network; after the last section the
      callback gets the network (NULL for a table without sections). */
  function Sections(rd: Reading, st: State, secs: seq<Section>, network: Option<nat>): (r: (State, Report))
    requires network.Some? ==> network.value < |st.networks|
    decreases |secs|
  {
    if secs == [] then (st, Callback(network))
    else if !CurrentNext(secs[0]) then (st, NoCallback)
    else if network.Some? then Sections(rd, Body(st, secs[0], network.value), secs[1..], network)
    else match Resolve(rd, st.networks, secs[0])
      case None => (st, NoCallback)
      case Some(a) => Sections(rd, Body(st.(networks := a.0), secs[0], a.1), secs[1..], Some(a.1))
  }

  /** dvb_parse_nit. */
  function ParseTable(rd: Reading, st: State, secs: seq<Section>): (State, Report)
  {
    Sections(rd, st, secs, None)
  }

  // ---------------------------------------------------------------------
  // Well-formed registries

  /** Every service's multiplex is a multiplex record. */
  predicate ServicesLinked(ss: seq<S.Service>, nm: nat)
  {
    forall i :: 0 <= i < |ss| && ss[i].mux.Some? ==> ss[i].mux.value < nm
  }

  /** Every multiplex's platform is a platform record. */
  predicate MuxesLinked(ms: seq<M.Mux>, np: nat)
  {
    forall i :: 0 <= i < |ms| && ms[i].platform.Some? ==> ms[i].platform.value < np
  }

  /** A network lists each multiplex once and numbers each live slot once,
      and refers only to existing multiplexes and services. */
  predicate NetworkLinked(net: N.Network, nm: nat, ns: nat)
  {
    N.Distinct(net.muxes) && N.LiveUnique(net.services) &&
    (forall k :: 0 <= k < |net.muxes| ==> net.muxes[k] < nm) &&
    (forall k :: 0 <= k < |net.services| && net.services[k].Some? && net.services[k].value.service.Some? ==>
       net.services[k].value.service.value < ns)
  }

  /** No identifier or URI twice in a registry, and every index a record
      holds names a record. */
  predicate Valid(st: State)
  {
    Unique(st.networks, N.Ident) && Unique(st.platforms, P.Uri) &&
    Unique(st.muxes, M.Uri) && Unique(st.services, S.Uri) &&
    ServicesLinked(st.services, |st.muxes|) && MuxesLinked(st.muxes, |st.platforms|) &&
    forall n :: 0 <= n < |st.networks| ==> NetworkLinked(st.networks[n], |st.muxes|, |st.services|)
  }

  /** Networks that Keeps relates are found by the same identifiers. */
  lemma KeepsIndex(a: seq<N.Network>, b: seq<N.Network>, k: string)
    requires Keeps(a, b)
    ensures IndexOf(b, N.Ident, k) == IndexOf(a, N.Ident, k)
    ensures Unique(a, N.Ident) ==> Unique(b, N.Ident)
  {
    var x, y := IndexOf(a, N.Ident, k), IndexOf(b, N.Ident, k);
    assert forall j :: 0 <= j < |b| ==> N.Ident(b[j]) == N.Ident(a[j]);
    if x.Some? {
      assert N.Ident(b[x.value]) == k;
      assert y.Some? && !(y.value < x.value) && !(x.value < y.value);
    }
    if Unique(a, N.Ident) {
      forall i, j | 0 <= i < j < |b| ensures N.Ident(b[i]) != N.Ident(b[j]) {
        assert N.Ident(a[i]) != N.Ident(a[j]);
      }
    }
  }

  // ---------------------------------------------------------------------
  // What one logical channel entry does

  /** After one entry the service dvb://onid.tsid.sid exists with the
      multiplex set, and the network numbers it (lcn, -1) with the visible
      flag as 0 or 1; no other network and no other service changes. */
  lemma LcnEntryEffect(st: State, e: LcnEntry, n: nat, onid: nat, tsid: nat, mux: nat)
    requires n < |st.networks| && onid < 0x1_0000 && tsid < 0x1_0000 && e.serviceId < 0x1_0000
    requires N.LiveUnique(st.networks[n].services)
    ensures
      var r := LcnEntryAt(st, e, n, onid, tsid, mux);
      var i := IndexOf(r.services, S.Uri, S.DvbUri(onid, tsid, e.serviceId));
      var slot := N.FindService(r.networks[n].services, e.lcn, -1);
      i.Some? && r.services[i.value].mux == Some(mux) &&
      (forall j :: 0 <= j < |st.services| && j != i.value ==> r.services[j] == st.services[j]) &&
      slot.Some? &&
      r.networks[n].services[slot.value] == Some(N.NetworkService(i, if e.visible then 1 else 0, e.lcn, -1)) &&
      (forall l, u :: (l, u) != (e.lcn, -1) ==>
         N.FindService(r.networks[n].services, l, u) == N.FindService(st.networks[n].services, l, u)) &&
      r.networks == st.networks[n := st.networks[n].(services := r.networks[n].services)]
  {
    var sv := S.LocateAddDvb(st.services, onid, tsid, e.serviceId);
    var ss := sv.0[sv.1 := sv.0[sv.1].(mux := Some(mux))];
    var net := st.networks[n];
    var vis := if e.visible then 1 else 0;
    var upd := N.SetService(net.services, Some(sv.1), vis, e.lcn, -1);
    var r := LcnEntryAt(st, e, n, onid, tsid, mux);
    assert r == State(st.networks[n := net.(services := upd.0)], st.platforms, st.muxes, ss);
    ReplaceKeepsIndex(sv.0, S.Uri, sv.1, ss[sv.1]);
    N.SetServiceSound(net.services, Some(sv.1), vis, e.lcn, -1);
  }

  /** One entry keeps the registries well formed. */
  lemma LcnEntryValid(st: State, e: LcnEntry, n: nat, onid: nat, tsid: nat, mux: nat)
    requires n < |st.networks| && onid < 0x1_0000 && tsid < 0x1_0000 && e.serviceId < 0x1_0000
    requires Valid(st) && mux < |st.muxes|
    ensures Valid(LcnEntryAt(st, e, n, onid, tsid, mux))
  {
    var sv := S.LocateAddDvb(st.services, onid, tsid, e.serviceId);
    var ss := sv.0[sv.1 := sv.0[sv.1].(mux := Some(mux))];
    var net := st.networks[n];
    var vis := if e.visible then 1 else 0;
    var upd := N.SetService(net.services, Some(sv.1), vis, e.lcn, -1);
    var r := LcnEntryAt(st, e, n, onid, tsid, mux);
    assert r == State(st.networks[n := net.(services := upd.0)], st.platforms, st.muxes, ss);
    RelinkValid(st.services, onid, tsid, e.serviceId, mux, |st.muxes|);
    SlotsValid(net, sv.1, vis, e.lcn, |st.muxes|, |st.services|, |ss|);
    ReplaceKeepsIndex(st.networks, N.Ident, n, r.networks[n]);
    forall m | 0 <= m < |r.networks|
      ensures NetworkLinked(r.networks[m], |r.muxes|, |r.services|)
    {
      if m != n {
        assert r.networks[m] == st.networks[m];
      }
    }
  }

  /** Locating or adding the entry's service and linking it to the
      multiplex keeps the service registry well formed. */
  lemma RelinkValid(services: seq<S.Service>, onid: nat, tsid: nat, sid: nat, mux: nat, nm: nat)
    requires Unique(services, S.Uri) && ServicesLinked(services, nm) && mux < nm
    requires onid < 0x1_0000 && tsid < 0x1_0000 && sid < 0x1_0000
    ensures var sv := S.LocateAddDvb(services, onid, tsid, sid);
      var ss := sv.0[sv.1 := sv.0[sv.1].(mux := Some(mux))];
      Unique(ss, S.Uri) && ServicesLinked(ss, nm) && |services| <= |ss|
  {
    var sv := S.LocateAddDvb(services, onid, tsid, sid);
    var ss := sv.0[sv.1 := sv.0[sv.1].(mux := Some(mux))];
    ReplaceKeepsIndex(sv.0, S.Uri, sv.1, ss[sv.1]);
    forall j | 0 <= j < |ss| && ss[j].mux.Some?
      ensures ss[j].mux.value < nm
    {
      if j != sv.1 {
        assert ss[j] == services[j];
      }
    }
  }

  /** Setting a slot to a service that exists keeps a network well formed. */
  lemma SlotsValid(net: N.Network, service: nat, vis: int, lcn: int, nm: nat, ns: nat, ns': nat)
    requires NetworkLinked(net, nm, ns) && ns <= ns' && service < ns'
    ensures NetworkLinked(net.(services := N.SetService(net.services, Some(service), vis, lcn, -1).0), nm, ns')
  {
    var x := Some(N.NetworkService(Some(service), vis, lcn, -1));
    var upd := N.SetService(net.services, Some(service), vis, lcn, -1);
    N.SetServiceSound(net.services, Some(service), vis, lcn, -1);
    forall k | 0 <= k < |upd.0| && upd.0[k].Some? && upd.0[k].value.service.Some?
      ensures upd.0[k].value.service.value < ns'
    {
      if upd.0[k] != x {
        assert k < |net.services| && upd.0[k] == net.services[k];
      }
    }
  }

  lemma {:induction false} LcnsValid(st: State, s: Section, p: int, d: int, n: nat, onid: nat, tsid: nat, mux: nat)
    requires n < |st.networks| && onid < 0x1_0000 && tsid < 0x1_0000
    requires Valid(st) && mux < |st.muxes|
    ensures Valid(Lcns(st, s, p, d, n, onid, tsid, mux))
    decreases d - p
  {
    if p < d {
      LcnEntryValid(st, LcnAt(s, p), n, onid, tsid, mux);
      LcnsValid(LcnEntryAt(st, LcnAt(s, p), n, onid, tsid, mux), s, p + LcnLen, d, n, onid, tsid, mux);
    }
  }

  lemma {:induction false} TsDescriptorsValid(st: State, s: Section, dd: int, d: int, n: nat, onid: nat, tsid: nat, mux: nat)
    requires n < |st.networks| && onid < 0x1_0000 && tsid < 0x1_0000
    requires Valid(st) && mux < |st.muxes|
    ensures Valid(TsDescriptors(st, s, dd, d, n, onid, tsid, mux))
    decreases d - dd
  {
    if dd < d {
      var next := DescriptorEnd(s, dd);
      TsDescriptorValid(st, s, dd, n, onid, tsid, mux);
      TsDescriptorsValid(TsDescriptor(st, s, dd, n, onid, tsid, mux), s, next, d, n, onid, tsid, mux);
      TsDescriptorsUnfold(st, s, dd, d, n, onid, tsid, mux);
    }
  }

  /** One transport stream descriptor keeps the registries well formed. */
  lemma TsDescriptorValid(st: State, s: Section, dd: int, n: nat, onid: nat, tsid: nat, mux: nat)
    requires n < |st.networks| && onid < 0x1_0000 && tsid < 0x1_0000
    requires Valid(st) && mux < |st.muxes|
    ensures Valid(TsDescriptor(st, s, dd, n, onid, tsid, mux))
  {
    if At(s, dd) == 0x83 {
      var d := DescriptorEnd(s, dd);
      LcnsValid(st, s, dd + 2, d, n, onid, tsid, mux);
      TsDescriptorIsLcns(st, Lcns(st, s, dd + 2, d, n, onid, tsid, mux), s, dd, d, n, onid, tsid, mux);
    }
  }

  // ---------------------------------------------------------------------
  // What the start of a transport stream entry does

  /** After the head of an entry the platform dvb://onid and the multiplex
      dvb://onid.tsid exist, the multiplex's platform is that platform, and
      the network lists the multiplex; services do not change. */
  lemma TsHeadEffect(st: State, s: Section, d: int, n: nat)
    requires n < |st.networks|
    ensures
      var onid, tsid := Field16(s, d + 2), Field16(s, d);
      var h := TsHead(st, s, d, n);
      var pi := IndexOf(h.0.platforms, P.Uri, P.DvbUri(onid));
      pi.Some? && IndexOf(h.0.muxes, M.Uri, M.DvbUri(onid, tsid)) == Some(h.1) &&
      h.0.muxes[h.1].platform == pi && st.platforms <= h.0.platforms &&
      (forall j :: 0 <= j < |st.muxes| && j != h.1 ==> h.0.muxes[j] == st.muxes[j]) &&
      h.0.networks == st.networks[n := N.AddMux(st.networks[n], h.1)] &&
      h.1 in h.0.networks[n].muxes && h.0.services == st.services
  {
    var onid, tsid := Field16(s, d + 2), Field16(s, d);
    var pl := P.LocateAddDvb(st.platforms, onid);
    var mx := M.LocateAddDvb(st.muxes, onid, tsid);
    var ms := mx.0[mx.1 := mx.0[mx.1].(platform := Some(pl.1))];
    var h := TsHead(st, s, d, n);
    assert h.0 == State(st.networks[n := N.AddMux(st.networks[n], mx.1)], pl.0, ms, st.services) && h.1 == mx.1;
    ReplaceKeepsIndex(mx.0, M.Uri, mx.1, ms[mx.1]);
  }

  /** The head of an entry keeps the registries well formed. */
  lemma TsHeadValid(st: State, s: Section, d: int, n: nat)
    requires n < |st.networks| && Valid(st)
    ensures Valid(TsHead(st, s, d, n).0)
  {
    var onid, tsid := Field16(s, d + 2), Field16(s, d);
    var pl := P.LocateAddDvb(st.platforms, onid);
    var mx := M.LocateAddDvb(st.muxes, onid, tsid);
    var ms := mx.0[mx.1 := mx.0[mx.1].(platform := Some(pl.1))];
    var h := TsHead(st, s, d, n);
    var x := N.AddMux(st.networks[n], mx.1);
    assert h.0 == State(st.networks[n := x], pl.0, ms, st.services);
    ReplaceKeepsIndex(mx.0, M.Uri, mx.1, ms[mx.1]);
    ReplaceKeepsIndex(st.networks, N.Ident, n, x);
    N.AddMuxIdempotent(st.networks[n], mx.1);
    assert MuxesLinked(ms, |pl.0|) by {
      forall j | 0 <= j < |ms| && ms[j].platform.Some?
        ensures ms[j].platform.value < |pl.0|
      {
        if j != mx.1 {
          assert ms[j] == st.muxes[j];
        }
      }
    }
    forall k | 0 <= k < |x.muxes|
      ensures x.muxes[k] < |ms|
    {
      if k < |st.networks[n].muxes| {
        assert x.muxes[k] == st.networks[n].muxes[k];
      }
    }
    forall m | 0 <= m < |h.0.networks|
      ensures NetworkLinked(h.0.networks[m], |ms|, |st.services|)
    {
      if m != n {
        assert h.0.networks[m] == st.networks[m];
      }
    }
  }

  /** One transport stream entry keeps the registries well formed. */
  lemma TsEntryValid(st: State, s: Section, d: int, n: nat)
    requires n < |st.networks| && Valid(st)
    ensures Valid(TsEntry(st, s, d, n))
  {
    var h := TsHead(st, s, d, n);
    TsHeadValid(st, s, d, n);
    TsDescriptorsValid(h.0, s, d + TsLen, TsNext(s, d), n, Field16(s, d + 2), Field16(s, d), h.1);
  }

  lemma {:induction false} TsEntriesValid(st: State, s: Section, d: int, end: int, n: nat)
    requires n < |st.networks| && Valid(st)
    ensures Valid(TsEntries(st, s, d, end, n))
    decreases end - d
  {
    if d < end {
      TsEntryValid(st, s, d, n);
      TsEntriesValid(TsEntry(st, s, d, n), s, TsNext(s, d), end, n);
    }
  }

  /** One section keeps the registries well formed. */
  lemma BodyValid(st: State, s: Section, n: nat)
    requires n < |st.networks| && Valid(st)
    ensures Valid(Body(st, s, n))
  {
    var net := NameDescriptors(st.networks[n], s, HeaderLen, HeaderLen + Field12(s, 8));
    var st' := st.(networks := st.networks[n := net]);
    ReplaceKeepsIndex(st.networks, N.Ident, n, net);
    assert Valid(st') by {
      forall m | 0 <= m < |st'.networks|
        ensures NetworkLinked(st'.networks[m], |st.muxes|, |st.services|)
      {
        if m != n {
          assert st'.networks[m] == st.networks[m];
        }
      }
    }
    TsEntriesValid(st', s, TsStart(s), TsEnd(s), n);
  }

  // ---------------------------------------------------------------------
  // Resolving the network and the loop over the sections

  /** The first section ends the call exactly when its network is known
      with at least its version; otherwise the network is emptied and takes
      the incoming version, and no other network changes. A network that
      was found stays found; a new one is found by network_locate_dvb when
      corrected, and as written it is not. */
  lemma ResolveEffect(rd: Reading, ns: seq<N.Network>, s: Section)
    requires Field16(s, 3) < 0x1_0000
    ensures
      var nid := Field16(s, 3);
      var found := N.LocateDvb(ns, nid);
      var r := Resolve(rd, ns, s);
      (r.None? <==> found.Some? && ns[found.value].version >= VersionNumber(s)) &&
      (r.Some? ==>
         ((found.Some? || rd.Corrected?) ==> N.LocateDvb(r.value.0, nid) == Some(r.value.1)) &&
         (found.None? && rd.AsWritten? ==> N.LocateDvb(r.value.0, nid).None?) &&
         (found.None? ==> IndexOf(r.value.0, N.Ident, N.AddDvbIdent(rd, nid)) == Some(r.value.1)) &&
         (found.Some? ==> r.value.1 == found.value && r.value.0[r.value.1].data == ns[found.value].data) &&
         r.value.0[r.value.1].version == VersionNumber(s) &&
         r.value.0[r.value.1].name == [] && r.value.0[r.value.1].muxes == [] &&
         r.value.0[r.value.1].services == [] &&
         (forall j :: 0 <= j < |ns| && j != r.value.1 ==> r.value.0[j] == ns[j]) &&
         (Unique(ns, N.Ident) ==> Unique(r.value.0, N.Ident)))
  {
    var nid := Field16(s, 3);
    match N.LocateDvb(ns, nid)
    case Some(i) =>
      if ns[i].version < VersionNumber(s) {
        ReplaceKeepsIndex(ns, N.Ident, i, N.Reset(ns[i]).(version := VersionNumber(s)));
      }
    case None =>
      N.AddDvbInAdds(rd, ns, nid);
      var a := N.AddDvbIn(rd, ns, nid);
      ReplaceKeepsIndex(a.0, N.Ident, a.1.value, a.0[a.1.value].(version := VersionNumber(s)));
  }

  /** Resolving keeps the registries well formed. */
  lemma ResolveValid(rd: Reading, st: State, s: Section)
    requires Valid(st) && Resolve(rd, st.networks, s).Some?
    ensures Valid(st.(networks := Resolve(rd, st.networks, s).value.0))
  {
    var r := Resolve(rd, st.networks, s).value;
    ResolveEffect(rd, st.networks, s);
    forall m | 0 <= m < |r.0|
      ensures NetworkLinked(r.0[m], |st.muxes|, |st.services|)
    {
      if m != r.1 {
        assert m < |st.networks| && r.0[m] == st.networks[m];
      }
    }
  }

  /** Once the network is resolved, the sections keep every network's
      identifier and version, and the callback is made, with that network,
      exactly when every section is current. */
  lemma {:induction false} ResolvedSections(rd: Reading, st: State, secs: seq<Section>, n: nat)
    requires n < |st.networks|
    ensures var r := Sections(rd, st, secs, Some(n));
      Keeps(st.networks, r.0.networks) &&
      r.1 == (if forall k :: 0 <= k < |secs| ==> CurrentNext(secs[k]) then Callback(Some(n)) else NoCallback)
    decreases |secs|
  {
    if secs != [] && CurrentNext(secs[0]) {
      var b := Body(st, secs[0], n);
      ResolvedSections(rd, b, secs[1..], n);
      assert forall k :: 1 <= k < |secs| ==> secs[k] == secs[1..][k - 1];
      assert Sections(rd, st, secs, Some(n)) == Sections(rd, b, secs[1..], Some(n));
    }
  }

  /** dvb_parse_nit makes the callback exactly when every section is
      current and the first one's network is not already known with at
      least its version; the network is NULL only for a table without
      sections, and otherwise has the first section's version and is the
      one network_locate_dvb finds for its network_id, unless, as written, a
      new network was made that it cannot find. A stale network leaves
      everything as it was. */
  lemma ParseTableReport(rd: Reading, st: State, secs: seq<Section>)
    ensures var r := ParseTable(rd, st, secs);
      (r.1 == Callback(None) <==> secs == []) &&
      (r.1.Callback? <==>
         (forall k :: 0 <= k < |secs| ==> CurrentNext(secs[k])) &&
         (secs != [] ==> Resolve(rd, st.networks, secs[0]).Some?)) &&
      (secs != [] && r.1.Callback? ==>
         r.1.network.Some? && r.1.network.value < |r.0.networks| &&
         ((N.LocateDvb(st.networks, Field16(secs[0], 3)).Some? || rd.Corrected?) ==>
            N.LocateDvb(r.0.networks, Field16(secs[0], 3)) == r.1.network) &&
         (N.LocateDvb(st.networks, Field16(secs[0], 3)).None? && rd.AsWritten? ==>
            N.LocateDvb(r.0.networks, Field16(secs[0], 3)).None?) &&
         r.0.networks[r.1.network.value].version == VersionNumber(secs[0])) &&
      (secs != [] && CurrentNext(secs[0]) && Resolve(rd, st.networks, secs[0]).None? ==> r == (st, NoCallback))
  {
    if secs != [] && CurrentNext(secs[0]) && Resolve(rd, st.networks, secs[0]).Some? {
      FirstResolved(rd, st, secs);
      assert (forall k :: 0 <= k < |secs| ==> CurrentNext(secs[k])) <==>
        (forall k :: 1 <= k < |secs| ==> CurrentNext(secs[k]));
    }
  }

  /** When the first section resolves the network, the callback, if made,
      gets that network, with the version of the first section, and
      network_locate_dvb finds afterwards what Resolve left it to find. */
  lemma FirstResolved(rd: Reading, st: State, secs: seq<Section>)
    requires secs != [] && CurrentNext(secs[0]) && Resolve(rd, st.networks, secs[0]).Some?
    ensures var a := Resolve(rd, st.networks, secs[0]).value; var r := ParseTable(rd, st, secs);
      r.1 == (if forall k :: 1 <= k < |secs| ==> CurrentNext(secs[k]) then Callback(Some(a.1)) else NoCallback) &&
      a.1 < |r.0.networks| && r.0.networks[a.1].version == VersionNumber(secs[0]) &&
      ((N.LocateDvb(st.networks, Field16(secs[0], 3)).Some? || rd.Corrected?) ==>
         N.LocateDvb(r.0.networks, Field16(secs[0], 3)) == Some(a.1)) &&
      (N.LocateDvb(st.networks, Field16(secs[0], 3)).None? && rd.AsWritten? ==>
         N.LocateDvb(r.0.networks, Field16(secs[0], 3)).None?)
  {
    var a := Resolve(rd, st.networks, secs[0]).value;
    ResolveEffect(rd, st.networks, secs[0]);
    var b := Body(st.(networks := a.0), secs[0], a.1);
    ResolvedSections(rd, b, secs[1..], a.1);
    var r := Sections(rd, b, secs[1..], Some(a.1));
    assert ParseTable(rd, st, secs) == r;
    KeepsIndex(a.0, b.networks, N.NitIdent(Field16(secs[0], 3)));
    KeepsIndex(b.networks, r.0.networks, N.NitIdent(Field16(secs[0], 3)));
    CurrentTail(secs);
  }

  /** As written, a table whose network_id network_locate_dvb cannot find
      always resolves its network, so a table with every section current
      makes the callback, and afterwards the network is still not found. */
  lemma AsWrittenAlwaysCallsBack(st: State, secs: seq<Section>)
    requires secs != [] && forall k :: 0 <= k < |secs| ==> CurrentNext(secs[k])
    requires N.LocateDvb(st.networks, Field16(secs[0], 3)).None?
    ensures var r := ParseTable(AsWritten, st, secs);
      r.1.Callback? && r.1.network.Some? && N.LocateDvb(r.0.networks, Field16(secs[0], 3)).None?
  {
    ParseTableReport(AsWritten, st, secs);
  }

  /** As written, the same table decoded twice makes the callback twice:
      the version check of the second decoding never sees the network the
      first one made. */
  lemma RepeatedTableAsWritten(st: State, secs: seq<Section>)
    requires secs != [] && forall k :: 0 <= k < |secs| ==> CurrentNext(secs[k])
    requires N.LocateDvb(st.networks, Field16(secs[0], 3)).None?
    ensures ParseTable(AsWritten, st, secs).1.Callback?
    ensures ParseTable(AsWritten, ParseTable(AsWritten, st, secs).0, secs).1.Callback?
  {
    AsWrittenAlwaysCallsBack(st, secs);
    AsWrittenAlwaysCallsBack(ParseTable(AsWritten, st, secs).0, secs);
  }

  /** Corrected, a table that made the callback is stale when decoded
      again: no callback, and nothing changes. */
  lemma RepeatedTableCorrected(st: State, secs: seq<Section>)
    requires secs != [] && ParseTable(Corrected, st, secs).1.Callback?
    ensures var r := ParseTable(Corrected, st, secs);
      ParseTable(Corrected, r.0, secs) == (r.0, NoCallback)
  {
    var r := ParseTable(Corrected, st, secs);
    ParseTableReport(Corrected, st, secs);
    assert CurrentNext(secs[0]);
    assert Resolve(Corrected, r.0.networks, secs[0]).None?;
    ParseTableReport(Corrected, r.0, secs);
  }

  /** The sections after the first are all current iff every section but
      the first is. */
  lemma CurrentTail(secs: seq<Section>)
    requires secs != []
    ensures (forall k :: 0 <= k < |secs[1..]| ==> CurrentNext(secs[1..][k])) <==>
      (forall k :: 1 <= k < |secs| ==> CurrentNext(secs[k]))
  {
    assert forall k :: 0 <= k < |secs[1..]| ==> secs[1..][k] == secs[k + 1];
  }

  /** A section that is not current ends the call without the callback;
      what the sections before it did stays done. */
  lemma {:induction false} NotCurrentKeepsEarlier(rd: Reading, st: State, secs: seq<Section>, network: Option<nat>, k: nat)
    requires network.Some? ==> network.value < |st.networks|
    requires k < |secs| && !CurrentNext(secs[k])
    ensures Sections(rd, st, secs, network) == (Sections(rd, st, secs[..k], network).0, NoCallback)
    decreases k
  {
    if k > 0 && CurrentNext(secs[0]) {
      assert secs[1..][k - 1] == secs[k];
      assert secs[..k][0] == secs[0] && secs[..k][1..] == secs[1..][..k - 1];
      if network.Some? {
        NotCurrentKeepsEarlier(rd, Body(st, secs[0], network.value), secs[1..], network, k - 1);
      } else if Resolve(rd, st.networks, secs[0]).Some? {
        var a := Resolve(rd, st.networks, secs[0]).value;
        NotCurrentKeepsEarlier(rd, Body(st.(networks := a.0), secs[0], a.1), secs[1..], Some(a.1), k - 1);
      }
    }
  }

  /** Decoding keeps the registries well formed. */
  lemma {:induction false} SectionsValid(rd: Reading, st: State, secs: seq<Section>, network: Option<nat>)
    requires network.Some? ==> network.value < |st.networks|
    requires Valid(st)
    ensures Valid(Sections(rd, st, secs, network).0)
    decreases |secs|
  {
    if secs != [] && CurrentNext(secs[0]) {
      if network.Some? {
        BodyValid(st, secs[0], network.value);
        SectionsValid(rd, Body(st, secs[0], network.value), secs[1..], network);
      } else if Resolve(rd, st.networks, secs[0]).Some? {
        var a := Resolve(rd, st.networks, secs[0]).value;
        ResolveValid(rd, st, secs[0]);
        BodyValid(st.(networks := a.0), secs[0], a.1);
        SectionsValid(rd, Body(st.(networks := a.0), secs[0], a.1), secs[1..], Some(a.1));
      }
    }
  }

  lemma ParseTableValid(rd: Reading, st: State, secs: seq<Section>)
    requires Valid(st)
    ensures Valid(ParseTable(rd, st, secs).0)
  {
    SectionsValid(rd, st, secs, None);
  }

  // ---------------------------------------------------------------------
  // The decoder over the registries

  /** The registries as the specification functions see them. */
  ghost function Now(nl: N.NetworkList, pl: P.PlatformList, ml: M.MuxList, sl: S.ServiceList): State
    reads nl, pl, ml, sl
  {
    State(nl.networks, pl.platforms, ml.muxes, sl.services)
  }

  /** The network descriptor loop, with parse_nit_network_name_descriptor. */
  method NameDescriptorsInto(s: Section, d0: int, p: int, n: nat, nl: N.NetworkList)
    requires n < |nl.networks|
    modifies nl
    ensures nl.networks == old(nl.networks)[n := NameDescriptors(old(nl.networks)[n], s, d0, p)]
  {
    var d := d0;
    ghost var before := nl.networks;
    ghost var goal := NameDescriptors(before[n], s, d, p);
    while d < p
      invariant |nl.networks| == |before|
      invariant nl.networks == before[n := nl.networks[n]]
      invariant NameDescriptors(nl.networks[n], s, d, p) == goal
      decreases p - d
    {
      var descr := d;
      d := d + 2 + At(s, d + 1);
      if At(s, descr) == 0x40 {
        nl.SetName(n, StringField(s, descr + 2, At(s, descr + 1)));
      }
    }
  }

  /** One entry of parse_nit_ts_logical_channel_descriptor. */
  method LcnEntryInto(s: Section, p: int, n: nat, onid: nat, tsid: nat, mux: nat,
                      nl: N.NetworkList, pl: P.PlatformList, ml: M.MuxList, sl: S.ServiceList)
    requires n < |nl.networks| && onid < 0x1_0000 && tsid < 0x1_0000
    modifies nl, sl
    ensures Now(nl, pl, ml, sl) == LcnEntryAt(old(Now(nl, pl, ml, sl)), LcnAt(s, p), n, onid, tsid, mux)
  {
    var e := LcnAt(s, p);
    var svc := sl.LocateRegisterDvb(onid, tsid, e.serviceId);
    sl.SetMux(svc, Some(mux));
    var slot := nl.SetServiceOf(n, Some(svc), if e.visible then 1 else 0, e.lcn, -1);
  }

  /** parse_nit_ts_logical_channel_descriptor: the entries from p0 up to d. */
  method LcnsInto(s: Section, p0: int, d: int, n: nat, onid: nat, tsid: nat, mux: nat,
                  nl: N.NetworkList, pl: P.PlatformList, ml: M.MuxList, sl: S.ServiceList)
    requires n < |nl.networks| && onid < 0x1_0000 && tsid < 0x1_0000
    modifies nl, sl
    ensures n < |nl.networks|
    ensures Now(nl, pl, ml, sl) == Lcns(old(Now(nl, pl, ml, sl)), s, p0, d, n, onid, tsid, mux)
  {
    var p := p0;
    while p < d
      invariant n < |nl.networks|
      invariant Lcns(Now(nl, pl, ml, sl), s, p, d, n, onid, tsid, mux) ==
        Lcns(old(Now(nl, pl, ml, sl)), s, p0, d, n, onid, tsid, mux)
      decreases d - p
    {
      p := LcnStep(s, p, d, n, onid, tsid, mux, nl, pl, ml, sl);
    }
  }

  /** One turn of the loop of parse_nit_ts_logical_channel_descriptor:
      the next entry starts at next. */
  method LcnStep(s: Section, p: int, d: int, n: nat, onid: nat, tsid: nat, mux: nat,
                 nl: N.NetworkList, pl: P.PlatformList, ml: M.MuxList, sl: S.ServiceList)
    returns (next: int)
    requires p < d && n < |nl.networks| && onid < 0x1_0000 && tsid < 0x1_0000
    modifies nl, sl
    ensures p < next && n < |nl.networks|
    ensures Lcns(Now(nl, pl, ml, sl), s, next, d, n, onid, tsid, mux) ==
      Lcns(old(Now(nl, pl, ml, sl)), s, p, d, n, onid, tsid, mux)
  {
    ghost var before := Now(nl, pl, ml, sl);
    LcnEntryInto(s, p, n, onid, tsid, mux, nl, pl, ml, sl);
    next := p + LcnLen;
    LcnsUnfold(before, s, p, d, n, onid, tsid, mux);
  }

  /** The transport stream descriptor loop. */
  method TsDescriptorsInto(s: Section, dd0: int, d: int, n: nat, onid: nat, tsid: nat, mux: nat,
                           nl: N.NetworkList, pl: P.PlatformList, ml: M.MuxList, sl: S.ServiceList)
    requires n < |nl.networks| && onid < 0x1_0000 && tsid < 0x1_0000
    modifies nl, sl
    ensures Now(nl, pl, ml, sl) == TsDescriptors(old(Now(nl, pl, ml, sl)), s, dd0, d, n, onid, tsid, mux)
  {
    var dd := dd0;
    while dd < d
      invariant n < |nl.networks|
      invariant TsDescriptors(Now(nl, pl, ml, sl), s, dd, d, n, onid, tsid, mux) ==
        TsDescriptors(old(Now(nl, pl, ml, sl)), s, dd0, d, n, onid, tsid, mux)
      decreases d - dd
    {
      dd := TsDescriptorStep(s, dd, d, n, onid, tsid, mux, nl, pl, ml, sl);
    }
  }

  /** One turn of the descriptor loop: the next descriptor starts at next. */
  method TsDescriptorStep(s: Section, dd: int, d: int, n: nat, onid: nat, tsid: nat, mux: nat,
                          nl: N.NetworkList, pl: P.PlatformList, ml: M.MuxList, sl: S.ServiceList)
    returns (next: int)
    requires dd < d && n < |nl.networks| && onid < 0x1_0000 && tsid < 0x1_0000
    modifies nl, sl
    ensures dd < next && n < |nl.networks|
    ensures TsDescriptors(Now(nl, pl, ml, sl), s, next, d, n, onid, tsid, mux) ==
      TsDescriptors(old(Now(nl, pl, ml, sl)), s, dd, d, n, onid, tsid, mux)
  {
    ghost var before := Now(nl, pl, ml, sl);
    next := DescriptorEnd(s, dd);
    TsDescriptorInto(s, dd, n, onid, tsid, mux, nl, pl, ml, sl);
    TsDescriptorsUnfold(before, s, dd, d, n, onid, tsid, mux);
  }

  /** The logical channel descriptor, or nothing for any other tag. */
  method TsDescriptorInto(s: Section, dd: int, n: nat, onid: nat, tsid: nat, mux: nat,
                          nl: N.NetworkList, pl: P.PlatformList, ml: M.MuxList, sl: S.ServiceList)
    requires n < |nl.networks| && onid < 0x1_0000 && tsid < 0x1_0000
    modifies nl, sl
    ensures n < |nl.networks|
    ensures Now(nl, pl, ml, sl) == TsDescriptor(old(Now(nl, pl, ml, sl)), s, dd, n, onid, tsid, mux)
  {
    if At(s, dd) == 0x83 {
      LcnDescriptorInto(s, dd, n, onid, tsid, mux, nl, pl, ml, sl);
    }
  }

  /** parse_nit_ts_logical_channel_descriptor for the descriptor at dd. */
  method LcnDescriptorInto(s: Section, dd: int, n: nat, onid: nat, tsid: nat, mux: nat,
                           nl: N.NetworkList, pl: P.PlatformList, ml: M.MuxList, sl: S.ServiceList)
    requires At(s, dd) == 0x83 && n < |nl.networks| && onid < 0x1_0000 && tsid < 0x1_0000
    modifies nl, sl
    ensures n < |nl.networks|
    ensures Now(nl, pl, ml, sl) == TsDescriptor(old(Now(nl, pl, ml, sl)), s, dd, n, onid, tsid, mux)
  {
    ghost var before := Now(nl, pl, ml, sl);
    var d := DescriptorEnd(s, dd);
    LcnsInto(s, dd + 2, d, n, onid, tsid, mux, nl, pl, ml, sl);
    TsDescriptorIsLcns(before, Now(nl, pl, ml, sl), s, dd, d, n, onid, tsid, mux);
  }

  /** platform_locate_add_dvb, mux_locate_add_dvb, mux_set_platform and
      network_add_mux for the entry at d; returns the multiplex. */
  method TsHeadInto(s: Section, d: int, n: nat,
                    nl: N.NetworkList, pl: P.PlatformList, ml: M.MuxList, sl: S.ServiceList)
    returns (mux: nat)
    requires n < |nl.networks|
    modifies nl, pl, ml
    ensures (Now(nl, pl, ml, sl), mux) == TsHead(old(Now(nl, pl, ml, sl)), s, d, n)
  {
    var onid, tsid := Field16(s, d + 2), Field16(s, d);
    var platform := pl.LocateRegisterDvb(onid);
    mux := ml.LocateRegisterDvb(onid, tsid);
    ml.SetPlatform(mux, Some(platform));
    nl.AddMuxTo(n, mux);
  }

  /** The transport stream loop of dvb_parse_nit. */
  method TsEntriesInto(s: Section, d0: int, end: int, n: nat,
                       nl: N.NetworkList, pl: P.PlatformList, ml: M.MuxList, sl: S.ServiceList)
    requires n < |nl.networks|
    modifies nl, pl, ml, sl
    ensures Now(nl, pl, ml, sl) == TsEntries(old(Now(nl, pl, ml, sl)), s, d0, end, n)
  {
    var d := d0;
    ghost var goal := TsEntries(Now(nl, pl, ml, sl), s, d0, end, n);
    while d < end
      invariant n < |nl.networks|
      invariant TsEntries(State(nl.networks, pl.platforms, ml.muxes, sl.services), s, d, end, n) == goal
      decreases end - d
    {
      TsEntryInto(s, d, n, nl, pl, ml, sl);
      d := TsNext(s, d);
    }
  }

  /** One transport stream entry: its head, then its descriptors. */
  method TsEntryInto(s: Section, d: int, n: nat,
                     nl: N.NetworkList, pl: P.PlatformList, ml: M.MuxList, sl: S.ServiceList)
    requires n < |nl.networks|
    modifies nl, pl, ml, sl
    ensures Now(nl, pl, ml, sl) == TsEntry(old(Now(nl, pl, ml, sl)), s, d, n)
  {
    var mux := TsHeadInto(s, d, n, nl, pl, ml, sl);
    TsDescriptorsInto(s, d + TsLen, TsNext(s, d), n, Field16(s, d + 2), Field16(s, d), mux, nl, pl, ml, sl);
  }

  /** The body of the section loop of dvb_parse_nit, for the network n. */
  method BodyInto(s: Section, n: nat, nl: N.NetworkList, pl: P.PlatformList, ml: M.MuxList, sl: S.ServiceList)
    requires n < |nl.networks|
    modifies nl, pl, ml, sl
    ensures Now(nl, pl, ml, sl) == Body(old(Now(nl, pl, ml, sl)), s, n)
  {
    NameDescriptorsInto(s, HeaderLen, HeaderLen + Field12(s, 8), n, nl);
    TsEntriesInto(s, TsStart(s), TsEnd(s), n, nl, pl, ml, sl);
  }

  /** network_locate_dvb, then network_reset or network_add_dvb (as written
      or corrected), then network_set_version; None when the known network
      is not older. */
  method ResolveInto(rd: Reading, s: Section, nl: N.NetworkList) returns (r: Option<nat>)
    modifies nl
    ensures Resolve(rd, old(nl.networks), s).None? ==> r.None? && nl.networks == old(nl.networks)
    ensures Resolve(rd, old(nl.networks), s).Some? ==>
      r == Some(Resolve(rd, old(nl.networks), s).value.1) && nl.networks == Resolve(rd, old(nl.networks), s).value.0
  {
    var nid := Field16(s, 3);
    var found := nl.LocateDvbId(nid);
    if found.Some? {
      if nl.networks[found.value].version >= VersionNumber(s) {
        return None;
      }
      nl.ResetAt(found.value);
    } else if rd.AsWritten? {
      N.AddDvbInAdds(rd, nl.networks, nid);
      found := nl.RegisterDvbAsWritten(nid);
    } else {
      N.AddDvbInAdds(rd, nl.networks, nid);
      found := nl.RegisterDvb(nid);
    }
    nl.SetVersion(found.value, VersionNumber(s));
    r := found;
  }

  /** dvb_parse_nit over a complete table: the registries afterwards and
      whether the network callback is made, with which network. */
  method ParseNit(rd: Reading, t: Table, nl: N.NetworkList, pl: P.PlatformList, ml: M.MuxList, sl: S.ServiceList)
    returns (report: Report)
    requires Complete(t)
    modifies nl, pl, ml, sl
    ensures (Now(nl, pl, ml, sl), report) == ParseTable(rd, old(Now(nl, pl, ml, sl)), Payloads(t))
  {
    var secs := Payloads(t);
    var network: Option<nat> := None;
    var i := 0;
    while i < |secs|
      invariant 0 <= i <= |secs|
      invariant network.Some? ==> network.value < |nl.networks|
      invariant Sections(rd, Now(nl, pl, ml, sl), secs[i..], network) == ParseTable(rd, old(Now(nl, pl, ml, sl)), secs)
    {
      assert secs[i..][0] == secs[i] && secs[i..][1..] == secs[i + 1..];
      if !CurrentNext(secs[i]) {
        return NoCallback;
      }
      if network.None? {
        network := ResolveInto(rd, secs[i], nl);
        if network.None? {
          return NoCallback;
        }
      }
      BodyInto(secs[i], network.value, nl, pl, ml, sl);
      i := i + 1;
    }
    report := Callback(network);
  }
}
