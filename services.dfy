// dvb/services.c: the registry of services, keyed by URI, that the SDT and
// NIT decoders fill in. A record is referred to by its index in the
// registry, which plays the part of the service_t pointer: records are
// only ever appended, never moved or freed.
module Services {
  import opened Wrappers
  import opened Wire
  import opened Format
  import opened Registry

  /** SERVICE_URI_SIZE: a URI must fit with its NUL. */
  const UriSize: nat := 128
  /** ST_RESERVED_FF, the service type a reset leaves. */
  const ReservedType: Byte := 0xFF

  /** A service_t. `data` is the caller's opaque pointer (0 for NULL) and
      `mux` the index of its multiplex, if any. */
  datatype Service = Service(uri: string, name: string, provider: string, authority: string,
                             serviceType: Byte, data: nat, version: int, mux: Option<nat>)

  function Uri(s: Service): string { s.uri }

  /** service_reset: everything but the URI and the data pointer is cleared. */
  function Reset(s: Service): (r: Service)
    ensures r.uri == s.uri && r.data == s.data
    ensures r.version == -1 && r.serviceType == ReservedType && r.mux == None
    ensures r.name == [] && r.provider == [] && r.authority == []
  {
    Service(s.uri, [], [], [], ReservedType, s.data, -1, None)
  }

  /** The zeroed record service_alloc returns, with the URI copied in. */
  function Blank(uri: string): Service
  {
    Service(uri, [], [], [], 0, 0, 0, None)
  }

  /** service_add: NULL for a URI that does not fit; otherwise the record with
      that URI, or a new one appended, reset either way. */
  function Add(ss: seq<Service>, uri: string): (r: (seq<Service>, Option<nat>))
    ensures |uri| >= UriSize ==> r == (ss, None)
    ensures |uri| < UriSize ==>
      (r.1.Some? && r.1.value < |r.0| && IndexOf(r.0, Uri, uri) == r.1 &&
       r.0[r.1.value].uri == uri && r.0[r.1.value] == Reset(r.0[r.1.value]))
    ensures |uri| < UriSize && IndexOf(ss, Uri, uri).Some? ==>
      (r.1 == IndexOf(ss, Uri, uri) && r.0 == ss[r.1.value := Reset(ss[r.1.value])])
    ensures |uri| < UriSize && IndexOf(ss, Uri, uri).None? ==>
      (r.1 == Some(|ss|) && r.0 == ss + [Reset(Blank(uri))])
    ensures forall k :: k != uri ==> IndexOf(r.0, Uri, k) == IndexOf(ss, Uri, k)
    ensures Unique(ss, Uri) ==> Unique(r.0, Uri)
  {
    if |uri| >= UriSize then (ss, None)
    else match IndexOf(ss, Uri, uri)
      case Some(i) =>
        ReplaceKeepsIndex(ss, Uri, i, Reset(ss[i]));
        (ss[i := Reset(ss[i])], Some(i))
      case None =>
        AppendKeepsIndex(ss, Uri, Reset(Blank(uri)));
        (ss + [Reset(Blank(uri))], Some(|ss|))
  }

  /** service_locate_add: an existing service is returned as it is. */
  function LocateAdd(ss: seq<Service>, uri: string): (r: (seq<Service>, Option<nat>))
    ensures IndexOf(ss, Uri, uri).Some? ==> r == (ss, IndexOf(ss, Uri, uri))
    ensures IndexOf(ss, Uri, uri).None? ==> r == Add(ss, uri)
    ensures r.1.Some? ==> r.1.value < |r.0| && IndexOf(r.0, Uri, uri) == r.1
    ensures Unique(ss, Uri) ==> Unique(r.0, Uri)
    ensures ss <= r.0 && (|r.0| == |ss| || (r.1 == Some(|ss|) && |r.0| == |ss| + 1))
  {
    match IndexOf(ss, Uri, uri)
    case Some(i) => (ss, Some(i))
    case None => Add(ss, uri)
  }

  /** "dvb://%04x.%04x.%04x" of original_network_id, transport_stream_id and service_id. */
  function DvbUri(onid: nat, tsid: nat, sid: nat): string
  {
    "dvb://" + Hex04(onid) + "." + Hex04(tsid) + "." + Hex04(sid)
  }

  /** service_add_dvb: the URI always fits, so a record is always returned. */
  function AddDvb(ss: seq<Service>, onid: nat, tsid: nat, sid: nat): (r: (seq<Service>, nat))
    requires onid < 0x1_0000 && tsid < 0x1_0000 && sid < 0x1_0000
    ensures Add(ss, DvbUri(onid, tsid, sid)) == (r.0, Some(r.1))
  {
    DvbUriFields(onid, tsid, sid);
    var a := Add(ss, DvbUri(onid, tsid, sid));
    (a.0, a.1.value)
  }

  /** service_locate_add_dvb: likewise always a record. */
  function LocateAddDvb(ss: seq<Service>, onid: nat, tsid: nat, sid: nat): (r: (seq<Service>, nat))
    requires onid < 0x1_0000 && tsid < 0x1_0000 && sid < 0x1_0000
    ensures LocateAdd(ss, DvbUri(onid, tsid, sid)) == (r.0, Some(r.1))
  {
    DvbUriFields(onid, tsid, sid);
    var a := LocateAdd(ss, DvbUri(onid, tsid, sid));
    (a.0, a.1.value)
  }

  /** Distinct 16-bit triples give distinct URIs, 20 characters long, so
      service_add never rejects them. */
  lemma DvbUriInjective(onid: nat, tsid: nat, sid: nat, onid': nat, tsid': nat, sid': nat)
    requires onid < 0x1_0000 && tsid < 0x1_0000 && sid < 0x1_0000
    requires onid' < 0x1_0000 && tsid' < 0x1_0000 && sid' < 0x1_0000
    ensures |DvbUri(onid, tsid, sid)| == 20 < UriSize
    ensures DvbUri(onid, tsid, sid) == DvbUri(onid', tsid', sid') <==> (onid, tsid, sid) == (onid', tsid', sid')
  {
    DvbUriFields(onid, tsid, sid);
    DvbUriFields(onid', tsid', sid');
    var u, v := DvbUri(onid, tsid, sid), DvbUri(onid', tsid', sid');
    if u == v {
      Hex04Injective(onid, onid');
      Hex04Injective(tsid, tsid');
      Hex04Injective(sid, sid');
    }
  }

  /** Where the three numbers stand in the URI. */
  lemma DvbUriFields(onid: nat, tsid: nat, sid: nat)
    requires onid < 0x1_0000 && tsid < 0x1_0000 && sid < 0x1_0000
    ensures var u := DvbUri(onid, tsid, sid);
      |u| == 20 && u[6..10] == Hex04(onid) && u[11..15] == Hex04(tsid) && u[16..20] == Hex04(sid)
  {
    Hex04RoundTrip(onid); Hex04RoundTrip(tsid); Hex04RoundTrip(sid);
    var u := DvbUri(onid, tsid, sid);
    var a, b, c := Hex04(onid), Hex04(tsid), Hex04(sid);
    assert u == "dvb://" + a + "." + b + "." + c;
    assert u[6..10] == a;
    assert u[11..15] == b;
    assert u[16..20] == c;
  }

  /** A setter followed by its getter gives the first 127 characters back. */
  lemma SetThenGet(s: Service, text: string)
    ensures Text(s.(name := Clip(text)).name) == Text(s.(provider := Clip(text)).provider)
      == Text(s.(authority := Clip(text)).authority) == (if text == [] then None else Some(Clip(text)))
  {
    if text != [] {
      assert Clip(text)[0] == text[0];
    }
  }

  /** The global services array of dvb/services.c. */
  class ServiceList {
    var services: seq<Service>

    constructor ()
      ensures services == []
    {
      services := [];
    }

    /** service_locate. */
    method Locate(uri: string) returns (r: Option<nat>)
      ensures r == IndexOf(services, Uri, uri)
    {
      var i := 0;
      while i < |services|
        invariant 0 <= i <= |services|
        invariant forall j :: 0 <= j < i ==> services[j].uri != uri
      {
        if services[i].uri == uri {
          return Some(i);
        }
        i := i + 1;
      }
      return None;
    }

    /** service_add. */
    method Register(uri: string) returns (r: Option<nat>)
      modifies this
      ensures (services, r) == Add(old(services), uri)
    {
      if |uri| >= UriSize {
        return None;
      }
      r := Locate(uri);
      if r.None? {
        services := services + [Blank(uri)];
        r := Some(|services| - 1);
        ResetAt(r.value);
        assert services == old(services) + [Reset(Blank(uri))];
      } else {
        ResetAt(r.value);
      }
    }

    /** service_locate_add. */
    method LocateRegister(uri: string) returns (r: Option<nat>)
      modifies this
      ensures (services, r) == LocateAdd(old(services), uri)
    {
      r := Locate(uri);
      if r.Some? {
        return;
      }
      r := Register(uri);
    }

    /** service_add_dvb. */
    method RegisterDvb(onid: nat, tsid: nat, sid: nat) returns (r: nat)
      requires onid < 0x1_0000 && tsid < 0x1_0000 && sid < 0x1_0000
      modifies this
      ensures (services, r) == AddDvb(old(services), onid, tsid, sid)
    {
      ghost var a := AddDvb(services, onid, tsid, sid);
      var found := Register(DvbUri(onid, tsid, sid));
      r := found.value;
    }

    /** service_locate_add_dvb. */
    method LocateRegisterDvb(onid: nat, tsid: nat, sid: nat) returns (r: nat)
      requires onid < 0x1_0000 && tsid < 0x1_0000 && sid < 0x1_0000
      modifies this
      ensures (services, r) == LocateAddDvb(old(services), onid, tsid, sid)
    {
      ghost var a := LocateAddDvb(services, onid, tsid, sid);
      var found := LocateRegister(DvbUri(onid, tsid, sid));
      r := found.value;
    }

    /** service_reset. */
    method ResetAt(i: nat)
      requires i < |services|
      modifies this
      ensures services == old(services)[i := Reset(old(services)[i])]
    {
      services := services[i := Reset(services[i])];
    }

    /** service_set_name. */
    method SetName(i: nat, name: string)
      requires i < |services|
      modifies this
      ensures services == old(services)[i := old(services)[i].(name := Clip(name))]
    {
      services := services[i := services[i].(name := Clip(name))];
    }

    /** service_set_provider. */
    method SetProvider(i: nat, provider: string)
      requires i < |services|
      modifies this
      ensures services == old(services)[i := old(services)[i].(provider := Clip(provider))]
    {
      services := services[i := services[i].(provider := Clip(provider))];
    }

    /** service_set_authority. */
    method SetAuthority(i: nat, authority: string)
      requires i < |services|
      modifies this
      ensures services == old(services)[i := old(services)[i].(authority := Clip(authority))]
    {
      services := services[i := services[i].(authority := Clip(authority))];
    }

    /** service_set_type. */
    method SetType(i: nat, serviceType: Byte)
      requires i < |services|
      modifies this
      ensures services == old(services)[i := old(services)[i].(serviceType := serviceType)]
    {
      services := services[i := services[i].(serviceType := serviceType)];
    }

    /** service_set_mux. */
    method SetMux(i: nat, mux: Option<nat>)
      requires i < |services|
      modifies this
      ensures services == old(services)[i := old(services)[i].(mux := mux)]
    {
      services := services[i := services[i].(mux := mux)];
    }

    /** service_set_data. */
    method SetData(i: nat, data: nat)
      requires i < |services|
      modifies this
      ensures services == old(services)[i := old(services)[i].(data := data)]
    {
      services := services[i := services[i].(data := data)];
    }

    /** service_foreach. */
    method Foreach(fn: Service -> int) returns (r: int)
      ensures r == FirstNonZero(services, fn)
    {
      var n := 0;
      while n < |services|
        invariant 0 <= n <= |services|
        invariant forall j :: 0 <= j < n ==> fn(services[j]) == 0
      {
        r := fn(services[n]);
        if r != 0 {
          ForeachStopsAtFirst(services, fn, n);
          return;
        }
        n := n + 1;
      }
      return 0;
    }
  }
}
