// dvb/networks.c: the registry of delivery networks, keyed by identifier.
// Each network lists the multiplexes it carries and its logical channel
// numbering: slots of (service, visible, lcn, sublcn) that a slot may be
// freed from (a NULL pointer in the service array, None here).
module Networks {
  import opened Wrappers
  import opened Format
  import opened Registry

  /** NETWORK_IDENT_SIZE. */
  const IdentSize: nat := 32

  /** A network_service_t; `service` is the index of a service record. */
  datatype NetworkService = NetworkService(service: Option<nat>, visible: int, lcn: int, sublcn: int)

  /** A network_t. `data` is the caller's pointer (0 for NULL), `muxes` the
      indices of its multiplexes. */
  datatype Network = Network(ident: string, name: string, version: int, data: nat,
                             muxes: seq<nat>, services: seq<Option<NetworkService>>)

  function Ident(n: Network): string { n.ident }

  /** network_reset: the identifier and the data pointer are kept, the version
      becomes -1 and name, multiplexes and services are cleared. */
  function Reset(n: Network): (r: Network)
    ensures r.ident == n.ident && r.data == n.data && r.version == -1
    ensures r.name == [] && r.muxes == [] && r.services == []
  {
    Network(n.ident, [], -1, n.data, [], [])
  }

  /** The zeroed record network_alloc returns, with the identifier copied in. */
  function Blank(ident: string): Network
  {
    Network(ident, [], 0, 0, [], [])
  }

  /** network_add: NULL for an identifier that does not fit; otherwise the
      record with that identifier, or a new one appended, reset either way. */
  function Add(ns: seq<Network>, ident: string): (r: (seq<Network>, Option<nat>))
    ensures |ident| >= IdentSize ==> r == (ns, None)
    ensures |ident| < IdentSize ==>
      (r.1.Some? && r.1.value < |r.0| && IndexOf(r.0, Ident, ident) == r.1 &&
       r.0[r.1.value] == Reset(r.0[r.1.value]))
    ensures |ident| < IdentSize && IndexOf(ns, Ident, ident).Some? ==>
      (r.1 == IndexOf(ns, Ident, ident) && r.0 == ns[r.1.value := Reset(ns[r.1.value])])
    ensures |ident| < IdentSize && IndexOf(ns, Ident, ident).None? ==>
      (r.1 == Some(|ns|) && r.0 == ns + [Reset(Blank(ident))])
    ensures forall k :: k != ident ==> IndexOf(r.0, Ident, k) == IndexOf(ns, Ident, k)
    ensures Unique(ns, Ident) ==> Unique(r.0, Ident)
  {
    if |ident| >= IdentSize then (ns, None)
    else match IndexOf(ns, Ident, ident)
      case Some(i) =>
        ReplaceKeepsIndex(ns, Ident, i, Reset(ns[i]));
        (ns[i := Reset(ns[i])], Some(i))
      case None =>
        AppendKeepsIndex(ns, Ident, Reset(Blank(ident)));
        (ns + [Reset(Blank(ident))], Some(|ns|))
  }

  /** network_locate_add: an existing network is returned unchanged. */
  function LocateAdd(ns: seq<Network>, ident: string): (r: (seq<Network>, Option<nat>))
    ensures IndexOf(ns, Ident, ident).Some? ==> r == (ns, IndexOf(ns, Ident, ident))
    ensures IndexOf(ns, Ident, ident).None? ==> r == Add(ns, ident)
    ensures r.1.Some? ==> r.1.value < |r.0| && IndexOf(r.0, Ident, ident) == r.1
    ensures Unique(ns, Ident) ==> Unique(r.0, Ident)
    ensures |r.0| == |ns| || (r.1 == Some(|ns|) && |r.0| == |ns| + 1)
  {
    match IndexOf(ns, Ident, ident)
    case Some(i) => (ns, Some(i))
    case None => Add(ns, ident)
  }

  /** The identifier network_add_dvb builds: snprintf "dvb:nid:%04x" into 32 bytes. */
  function NidIdent(nid: nat): string
  {
    Take("dvb:nid:" + Hex04(nid), IdentSize - 1)
  }

  /** The identifier network_locate_dvb and network_locate_add_dvb build:
      "dvb:nit:%04x". */
  function NitIdent(nid: nat): string
  {
    Take("dvb:nit:" + Hex04(nid), IdentSize - 1)
  }

  /** network_add_dvb as written. */
  function AddDvbAsWritten(ns: seq<Network>, nid: nat): (seq<Network>, Option<nat>)
  {
    Add(ns, NidIdent(nid))
  }

  /** network_add_dvb with the identifier its locate partner uses. */
  function AddDvb(ns: seq<Network>, nid: nat): (seq<Network>, Option<nat>)
  {
    Add(ns, NitIdent(nid))
  }

  /** The identifier network_add_dvb builds under a reading. */
  function AddDvbIdent(rd: Reading, nid: nat): string
  {
    if rd.AsWritten? then NidIdent(nid) else NitIdent(nid)
  }

  /** network_add_dvb under a reading. */
  function AddDvbIn(rd: Reading, ns: seq<Network>, nid: nat): (seq<Network>, Option<nat>)
  {
    Add(ns, AddDvbIdent(rd, nid))
  }

  /** network_locate_dvb. */
  function LocateDvb(ns: seq<Network>, nid: nat): Option<nat>
  {
    IndexOf(ns, Ident, NitIdent(nid))
  }

  /** network_locate_add_dvb. */
  function LocateAddDvb(ns: seq<Network>, nid: nat): (seq<Network>, Option<nat>)
  {
    LocateAdd(ns, NitIdent(nid))
  }

  /** The two prefixes differ in their sixth character, t against d. */
  lemma NidIsNotNit(nid: nat, nid': nat)
    requires nid < 0x1_0000 && nid' < 0x1_0000
    ensures NidIdent(nid) != NitIdent(nid')
  {
    Hex04RoundTrip(nid);
    Hex04RoundTrip(nid');
    assert NidIdent(nid)[6] == 'd' && NitIdent(nid')[6] == 't';
  }

  /** As written, a network made by network_add_dvb is never found by
      network_locate_dvb: the search gives the same answer as before the add,
      so a table with no network yet never finds the one it made. */
  lemma AddDvbAsWrittenNotLocated(ns: seq<Network>, nid: nat)
    requires nid < 0x1_0000
    ensures LocateDvb(AddDvbAsWritten(ns, nid).0, nid) == LocateDvb(ns, nid)
    ensures LocateDvb([], nid).None? && LocateDvb(AddDvbAsWritten([], nid).0, nid).None?
  {
    NidIsNotNit(nid, nid);
    var ns0 := AddDvbAsWritten([], nid).0;
    assert LocateDvb(ns0, nid) == LocateDvb([], nid);
  }

  /** With the identifiers agreeing, the network just added is the one found. */
  lemma AddDvbLocated(ns: seq<Network>, nid: nat)
    requires nid < 0x1_0000
    ensures AddDvb(ns, nid).1.Some?
    ensures LocateDvb(AddDvb(ns, nid).0, nid) == AddDvb(ns, nid).1
  {
    Hex04RoundTrip(nid);
  }

  /** Under either reading network_add_dvb makes or resets a network with
      its identifier; corrected, network_locate_dvb then finds it, and as
      written it finds what it found before. */
  lemma AddDvbInAdds(rd: Reading, ns: seq<Network>, nid: nat)
    requires nid < 0x1_0000
    ensures var a := AddDvbIn(rd, ns, nid);
      a.1.Some? && a.1.value < |a.0| && IndexOf(a.0, Ident, AddDvbIdent(rd, nid)) == a.1 &&
      (rd.Corrected? ==> LocateDvb(a.0, nid) == a.1) &&
      (rd.AsWritten? ==> LocateDvb(a.0, nid) == LocateDvb(ns, nid))
  {
    Hex04RoundTrip(nid);
    if rd.AsWritten? {
      AddDvbAsWrittenNotLocated(ns, nid);
    }
  }

  /** Distinct 16-bit network ids give distinct identifiers, 12 characters long. */
  lemma NitIdentInjective(nid: nat, nid': nat)
    requires nid < 0x1_0000 && nid' < 0x1_0000
    ensures |NitIdent(nid)| == 12 < IdentSize
    ensures NitIdent(nid) == NitIdent(nid') <==> nid == nid'
  {
    Hex04RoundTrip(nid);
    Hex04RoundTrip(nid');
    var u, v := NitIdent(nid), NitIdent(nid');
    if u == v {
      assert u[8..12] == Hex04(nid) && v[8..12] == Hex04(nid');
      Hex04Injective(nid, nid');
    }
  }

  /** network_add_mux: a multiplex already listed is not added again; a new
      one goes at the end. */
  function AddMux(n: Network, mux: nat): (r: Network)
    ensures |r.muxes| >= |n.muxes| && r.muxes[..|n.muxes|] == n.muxes && mux in r.muxes
    ensures mux in n.muxes ==> r == n
    ensures mux !in n.muxes ==> r == n.(muxes := n.muxes + [mux])
    ensures forall m :: m in r.muxes <==> m in n.muxes || m == mux
  {
    if mux in n.muxes then n else n.(muxes := n.muxes + [mux])
  }

  /** No multiplex is listed twice. */
  predicate Distinct(s: seq<nat>)
  {
    forall i, j :: 0 <= i < j < |s| ==> s[i] != s[j]
  }

  /** Adding the same multiplex twice is adding it once, and no multiplex is
      ever listed twice. */
  lemma AddMuxIdempotent(n: Network, mux: nat)
    ensures AddMux(AddMux(n, mux), mux) == AddMux(n, mux)
    ensures Distinct(n.muxes) ==> Distinct(AddMux(n, mux).muxes)
  {
  }

  /** The key of a slot: its (lcn, sublcn) pair, none for a freed slot. */
  function SlotKey(e: Option<NetworkService>): Option<(int, int)>
  {
    if e.Some? then Some((e.value.lcn, e.value.sublcn)) else None
  }

  /** network_service: the first live slot numbered (lcn, sublcn). */
  function FindService(slots: seq<Option<NetworkService>>, lcn: int, sublcn: int): (r: Option<nat>)
    ensures r.Some? ==> (r.value < |slots| && slots[r.value].Some? &&
                         slots[r.value].value.lcn == lcn && slots[r.value].value.sublcn == sublcn)
    ensures r.None? <==> forall j :: 0 <= j < |slots| ==> SlotKey(slots[j]) != Some((lcn, sublcn))
  {
    IndexOf(slots, SlotKey, Some((lcn, sublcn)))
  }

  /** No two live slots share a number. */
  predicate LiveUnique(slots: seq<Option<NetworkService>>)
  {
    forall i, j :: 0 <= i < j < |slots| && slots[i].Some? && slots[j].Some? ==>
      SlotKey(slots[i]) != SlotKey(slots[j])
  }

  /** network_set_service: the new slot list and the slot returned. A live
      slot with the number is updated (non-NULL service) or freed (NULL, and
      nothing is returned); without one, a slot is appended, even for NULL. */
  function SetService(slots: seq<Option<NetworkService>>, service: Option<nat>, visible: int,
                      lcn: int, sublcn: int): (r: (seq<Option<NetworkService>>, Option<nat>))
    ensures |r.0| >= |slots|
    ensures r.1.Some? ==> (r.1.value < |r.0| &&
                           r.0[r.1.value] == Some(NetworkService(service, visible, lcn, sublcn)))
    ensures r.1.None? <==> FindService(slots, lcn, sublcn).Some? && service.None?
    ensures FindService(slots, lcn, sublcn).None? ==>
      (r.0 == slots + [Some(NetworkService(service, visible, lcn, sublcn))] && r.1 == Some(|slots|))
    ensures FindService(slots, lcn, sublcn).Some? ==>
      r.0 == slots[FindService(slots, lcn, sublcn).value :=
                   if service.Some? then Some(NetworkService(service, visible, lcn, sublcn)) else None]
  {
    var e := Some(NetworkService(service, visible, lcn, sublcn));
    match FindService(slots, lcn, sublcn)
    case Some(i) =>
      if service.Some? then (slots[i := e], Some(i)) else (slots[i := None], None)
    case None => (slots + [e], Some(|slots|))
  }

  /** network_set_service keeps one live slot per number: afterwards the
      number finds the slot returned (none once freed), and every other
      number finds what it found before. */
  lemma SetServiceSound(slots: seq<Option<NetworkService>>, service: Option<nat>, visible: int,
                        lcn: int, sublcn: int)
    requires LiveUnique(slots)
    ensures var r := SetService(slots, service, visible, lcn, sublcn);
      LiveUnique(r.0) &&
      FindService(r.0, lcn, sublcn) == r.1 &&
      forall l, s :: (l, s) != (lcn, sublcn) ==> FindService(r.0, l, s) == FindService(slots, l, s)
  {
    var e := NetworkService(service, visible, lcn, sublcn);
    match FindService(slots, lcn, sublcn)
    case Some(i) =>
      if service.Some? {
        SlotUpdated(slots, i, e);
      } else {
        SlotFreed(slots, i);
      }
    case None =>
      SlotAppended(slots, e);
  }

  /** Updating a live slot in place with the same number. */
  lemma SlotUpdated(slots: seq<Option<NetworkService>>, i: nat, e: NetworkService)
    requires LiveUnique(slots) && i < |slots| && SlotKey(slots[i]) == SlotKey(Some(e))
    ensures LiveUnique(slots[i := Some(e)])
    ensures forall k :: IndexOf(slots[i := Some(e)], SlotKey, k) == IndexOf(slots, SlotKey, k)
  {
    ReplaceKeepsIndex(slots, SlotKey, i, Some(e));
    var t := slots[i := Some(e)];
    forall a, b | 0 <= a < b < |t| && t[a].Some? && t[b].Some?
      ensures SlotKey(t[a]) != SlotKey(t[b])
    {
      assert SlotKey(t[a]) == SlotKey(slots[a]) && SlotKey(t[b]) == SlotKey(slots[b]);
    }
  }

  /** Freeing the only live slot with its number. */
  lemma SlotFreed(slots: seq<Option<NetworkService>>, i: nat)
    requires LiveUnique(slots) && i < |slots| && slots[i].Some?
    ensures LiveUnique(slots[i := None])
    ensures IndexOf(slots[i := None], SlotKey, SlotKey(slots[i])).None?
    ensures forall k: Option<(int, int)> :: k.Some? && k != SlotKey(slots[i]) ==>
      IndexOf(slots[i := None], SlotKey, k) == IndexOf(slots, SlotKey, k)
  {
    var t := slots[i := None];
    forall k: Option<(int, int)> | k.Some? && k != SlotKey(slots[i])
      ensures IndexOf(t, SlotKey, k) == IndexOf(slots, SlotKey, k)
    {
      ReplaceKeepsOthers(slots, SlotKey, i, None, k);
    }
    assert forall j :: 0 <= j < |t| ==> SlotKey(t[j]) != SlotKey(slots[i]);
  }

  /** Appending a slot with a number no live slot has. */
  lemma SlotAppended(slots: seq<Option<NetworkService>>, e: NetworkService)
    requires LiveUnique(slots) && IndexOf(slots, SlotKey, SlotKey(Some(e))).None?
    ensures LiveUnique(slots + [Some(e)])
    ensures IndexOf(slots + [Some(e)], SlotKey, SlotKey(Some(e))) == Some(|slots|)
    ensures forall k :: k != SlotKey(Some(e)) ==>
      IndexOf(slots + [Some(e)], SlotKey, k) == IndexOf(slots, SlotKey, k)
  {
    AppendKeepsIndex(slots, SlotKey, Some(e));
    var t := slots + [Some(e)];
    forall a, b | 0 <= a < b < |t| && t[a].Some? && t[b].Some?
      ensures SlotKey(t[a]) != SlotKey(t[b])
    {
      if b == |slots| {
        assert t[b] == Some(e) && t[a] == slots[a];
        assert SlotKey(slots[a]) != SlotKey(Some(e));
      } else {
        assert t[a] == slots[a] && t[b] == slots[b];
      }
    }
  }

  /** network_set_name / network_name: a set name reads back as its first
      127 characters, and an empty one as NULL. */
  lemma SetNameThenName(n: Network, name: string)
    ensures Text(n.(name := Clip(name)).name) == (if name == [] then None else Some(Clip(name)))
  {
    if name != [] {
      assert Clip(name)[0] == name[0];
    }
  }

  /** The global networks array of dvb/networks.c. */
  class NetworkList {
    var networks: seq<Network>

    constructor ()
      ensures networks == []
    {
      networks := [];
    }

    /** network_locate. */
    method Locate(ident: string) returns (r: Option<nat>)
      ensures r == IndexOf(networks, Ident, ident)
    {
      var i := 0;
      while i < |networks|
        invariant 0 <= i <= |networks|
        invariant forall j :: 0 <= j < i ==> networks[j].ident != ident
      {
        if networks[i].ident == ident {
          return Some(i);
        }
        i := i + 1;
      }
      return None;
    }

    /** network_add. */
    method Register(ident: string) returns (r: Option<nat>)
      modifies this
      ensures (networks, r) == Add(old(networks), ident)
    {
      if |ident| >= IdentSize {
        return None;
      }
      r := Locate(ident);
      if r.None? {
        networks := networks + [Blank(ident)];
        r := Some(|networks| - 1);
        ResetAt(r.value);
        assert networks == old(networks) + [Reset(Blank(ident))];
      } else {
        ResetAt(r.value);
      }
    }

    /** network_locate_add. */
    method LocateRegister(ident: string) returns (r: Option<nat>)
      modifies this
      ensures (networks, r) == LocateAdd(old(networks), ident)
    {
      r := Locate(ident);
      if r.Some? {
        return;
      }
      r := Register(ident);
    }

    /** network_add_dvb, with the identifier network_locate_dvb looks for. */
    method RegisterDvb(nid: nat) returns (r: Option<nat>)
      modifies this
      ensures (networks, r) == AddDvb(old(networks), nid)
    {
      r := Register(NitIdent(nid));
    }

    /** network_add_dvb as written, with the "dvb:nid:" identifier. */
    method RegisterDvbAsWritten(nid: nat) returns (r: Option<nat>)
      modifies this
      ensures (networks, r) == AddDvbAsWritten(old(networks), nid)
    {
      r := Register(NidIdent(nid));
    }

    /** network_locate_dvb. */
    method LocateDvbId(nid: nat) returns (r: Option<nat>)
      ensures r == LocateDvb(networks, nid)
    {
      r := Locate(NitIdent(nid));
    }

    /** network_reset. */
    method ResetAt(i: nat)
      requires i < |networks|
      modifies this
      ensures networks == old(networks)[i := Reset(old(networks)[i])]
    {
      networks := networks[i := Reset(networks[i])];
    }

    /** network_set_name. */
    method SetName(i: nat, name: string)
      requires i < |networks|
      modifies this
      ensures networks == old(networks)[i := old(networks)[i].(name := Clip(name))]
    {
      networks := networks[i := networks[i].(name := Clip(name))];
    }

    /** network_set_version. */
    method SetVersion(i: nat, version: int)
      requires i < |networks|
      modifies this
      ensures networks == old(networks)[i := old(networks)[i].(version := version)]
    {
      networks := networks[i := networks[i].(version := version)];
    }

    /** network_set_data. */
    method SetData(i: nat, data: nat)
      requires i < |networks|
      modifies this
      ensures networks == old(networks)[i := old(networks)[i].(data := data)]
    {
      networks := networks[i := networks[i].(data := data)];
    }

    /** network_add_mux. */
    method AddMuxTo(i: nat, mux: nat)
      requires i < |networks|
      modifies this
      ensures networks == old(networks)[i := AddMux(old(networks)[i], mux)]
    {
      var muxes := networks[i].muxes;
      var j := 0;
      while j < |muxes|
        invariant 0 <= j <= |muxes|
        invariant forall k :: 0 <= k < j ==> muxes[k] != mux
      {
        if muxes[j] == mux {
          return;
        }
        j := j + 1;
      }
      networks := networks[i := networks[i].(muxes := muxes + [mux])];
    }

    /** network_service. */
    method ServiceOf(i: nat, lcn: int, sublcn: int) returns (r: Option<nat>)
      requires i < |networks|
      ensures r == FindService(networks[i].services, lcn, sublcn)
    {
      var slots := networks[i].services;
      var j := 0;
      while j < |slots|
        invariant 0 <= j <= |slots|
        invariant forall k :: 0 <= k < j ==> SlotKey(slots[k]) != Some((lcn, sublcn))
      {
        if slots[j].Some? && slots[j].value.lcn == lcn && slots[j].value.sublcn == sublcn {
          return Some(j);
        }
        j := j + 1;
      }
      return None;
    }

    /** network_set_service. */
    method SetServiceOf(i: nat, service: Option<nat>, visible: int, lcn: int, sublcn: int)
      returns (r: Option<nat>)
      requires i < |networks|
      modifies this
      ensures var s := SetService(old(networks)[i].services, service, visible, lcn, sublcn);
        r == s.1 && networks == old(networks)[i := old(networks)[i].(services := s.0)]
    {
      var slots := networks[i].services;
      var e := Some(NetworkService(service, visible, lcn, sublcn));
      var found := ServiceOf(i, lcn, sublcn);
      if found.Some? {
        if service.Some? {
          slots := slots[found.value := e];
          r := found;
        } else {
          slots := slots[found.value := None];
          r := None;
        }
      } else {
        slots := slots + [e];
        r := Some(|slots| - 1);
      }
      networks := networks[i := networks[i].(services := slots)];
    }
  }
}
