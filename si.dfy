// dvb/si.c: dvb_parse_si hands a complete table to the decoder for its
// table_id. The program association table decoder of dvb/pat.c does
// nothing; the network information table (actual network) and both
// service description tables are decoded; every other table, the bouquet
// association table among them, is only logged.
module Si {
  import opened Wrappers
  import opened Wire
  import opened Registry
  import opened Demux
  import S = Services
  import M = Multiplexes
  import P = Platforms
  import N = Networks
  import Nit
  import Sdt

  /** The decoders dvb_parse_si can choose between. */
  datatype Decoder = PatDecoder | NitDecoder | SdtDecoder | NotHandled

  /** The switch on table_id. */
  function Route(tableId: Byte): (r: Decoder)
    ensures r == PatDecoder <==> tableId == 0x00
    ensures r == NitDecoder <==> tableId == 0x40
    ensures r == SdtDecoder <==> tableId == 0x42 || tableId == 0x46
  {
    if tableId == 0x00 then PatDecoder
    else if tableId == 0x40 then NitDecoder
    else if tableId == 0x42 || tableId == 0x46 then SdtDecoder
    else NotHandled
  }

  /** The callbacks a table gives rise to: the network callback of the NIT
      decoder, or the services passed to the service callback by the SDT
      decoder, in order. */
  datatype Calls = NoCalls | NetworkCall(report: Nit.Report) | ServiceCalls(visited: seq<nat>)

  /** dvb_parse_si on a complete table and the four registries, the NIT
      decoded under the reading rd of network_add_dvb. */
  function Decode(rd: Reading, st: Nit.State, t: Table): (r: (Nit.State, Calls))
    requires Complete(t)
    ensures Route(t.tableId) == PatDecoder || Route(t.tableId) == NotHandled ==> r == (st, NoCalls)
    ensures Route(t.tableId) == SdtDecoder ==>
      r.0.networks == st.networks && r.0.platforms == st.platforms && r.1.ServiceCalls?
    ensures Route(t.tableId) == NitDecoder ==> r.1.NetworkCall?
  {
    match Route(t.tableId)
    case NitDecoder =>
      var n := Nit.ParseTable(rd, st, Payloads(t));
      (n.0, NetworkCall(n.1))
    case SdtDecoder =>
      var d := Sdt.ParseTable(Sdt.State(st.services, st.muxes, []), Payloads(t));
      (st.(services := d.services, muxes := d.muxes), ServiceCalls(d.visited))
    case _ => (st, NoCalls)
  }

  /** What each decoder leaves in the registries is what that decoder's own
      model computes. */
  lemma DecodeIsDecoder(rd: Reading, st: Nit.State, t: Table)
    requires Complete(t)
    ensures Route(t.tableId) == NitDecoder ==>
      (Decode(rd, st, t).0, Decode(rd, st, t).1.report) == Nit.ParseTable(rd, st, Payloads(t))
    ensures Route(t.tableId) == SdtDecoder ==>
      var d := Sdt.ParseTable(Sdt.State(st.services, st.muxes, []), Payloads(t));
      Decode(rd, st, t).0.services == d.services && Decode(rd, st, t).0.muxes == d.muxes &&
      Decode(rd, st, t).1.visited == d.visited
  {
  }

  /** With more multiplexes and services, a network's links stay in range. */
  lemma NetworkLinkedWider(net: N.Network, nm: nat, ns: nat, nm': nat, ns': nat)
    requires Nit.NetworkLinked(net, nm, ns) && nm <= nm' && ns <= ns'
    ensures Nit.NetworkLinked(net, nm', ns')
  {
  }

  /** Decoding any table keeps the four registries well formed, and every
      service passed to the service callback is a service record. */
  lemma DecodeValid(rd: Reading, st: Nit.State, t: Table)
    requires Complete(t) && Nit.Valid(st)
    ensures Nit.Valid(Decode(rd, st, t).0)
    ensures Decode(rd, st, t).1.ServiceCalls? ==>
      forall k :: 0 <= k < |Decode(rd, st, t).1.visited| ==> Decode(rd, st, t).1.visited[k] < |Decode(rd, st, t).0.services|
  {
    match Route(t.tableId)
    case NitDecoder =>
      Nit.ParseTableValid(rd, st, Payloads(t));
    case SdtDecoder =>
      var a := Sdt.State(st.services, st.muxes, []);
      Sdt.ParseTableValid(a, Payloads(t));
      Sdt.ParseTableGrows(a, Payloads(t));
      var d := Sdt.ParseTable(a, Payloads(t));
      var r := Decode(rd, st, t).0;
      assert r == st.(services := d.services, muxes := d.muxes);
      assert Nit.MuxesLinked(r.muxes, |r.platforms|) by {
        forall j | 0 <= j < |r.muxes| && r.muxes[j].platform.Some?
          ensures r.muxes[j].platform.value < |r.platforms|
        {
          assert r.muxes[j] == st.muxes[j];
        }
      }
      forall n | 0 <= n < |r.networks|
        ensures Nit.NetworkLinked(r.networks[n], |r.muxes|, |r.services|)
      {
        NetworkLinkedWider(st.networks[n], |st.muxes|, |st.services|, |r.muxes|, |r.services|);
      }
    case _ =>
  }

  /** A table the program does not decode, such as the NIT of another
      network (0x41) or the bouquet association table (0x4A), changes
      nothing and makes no callback. */
  lemma OtherTablesIgnored(rd: Reading, st: Nit.State, t: Table)
    requires Complete(t) && t.tableId !in [0x00, 0x40, 0x42, 0x46]
    ensures Decode(rd, st, t) == (st, NoCalls)
    ensures Route(t.tableId) == NotHandled
  {
  }

  /** dvb_parse_si over the registries' objects. */
  method DecodeInto(rd: Reading, t: Table, nl: N.NetworkList, pl: P.PlatformList, ml: M.MuxList, sl: S.ServiceList)
    returns (calls: Calls)
    requires Complete(t)
    modifies nl, pl, ml, sl
    ensures (Nit.Now(nl, pl, ml, sl), calls) == Decode(rd, old(Nit.Now(nl, pl, ml, sl)), t)
  {
    match Route(t.tableId)
    case NitDecoder =>
      var report := Nit.ParseNit(rd, t, nl, pl, ml, sl);
      calls := NetworkCall(report);
    case SdtDecoder =>
      var visited := Sdt.ParseSdt(t, sl, ml);
      calls := ServiceCalls(visited);
    case _ =>
      calls := NoCalls;
  }
}
