// dvb/multiplexes.c: the registry of multiplexes (transport streams), keyed
// by URI. As for services, a record is referred to by its index.
module Multiplexes {
  import opened Wrappers
  import opened Format
  import opened Registry

  /** MUX_URI_SIZE. */
  const UriSize: nat := 128

  /** A mux_t: its URI, the caller's data pointer (0 for NULL) and the index
      of its platform, if any. */
  datatype Mux = Mux(uri: string, data: nat, platform: Option<nat>)

  function Uri(m: Mux): string { m.uri }

  /** mux_reset: the URI and the data pointer are kept, the platform cleared. */
  function Reset(m: Mux): (r: Mux)
    ensures r.uri == m.uri && r.data == m.data && r.platform.None?
  {
    Mux(m.uri, m.data, None)
  }

  /** The zeroed record mux_alloc returns, with the URI copied in. */
  function Blank(uri: string): Mux
  {
    Mux(uri, 0, None)
  }

  /** mux_add: NULL for a URI that does not fit; otherwise the record with
      that URI, or a new one appended, reset either way. */
  function Add(ms: seq<Mux>, uri: string): (r: (seq<Mux>, Option<nat>))
    ensures |uri| >= UriSize ==> r == (ms, None)
    ensures |uri| < UriSize ==>
      (r.1.Some? && r.1.value < |r.0| && IndexOf(r.0, Uri, uri) == r.1 &&
       r.0[r.1.value].uri == uri && r.0[r.1.value].platform.None?)
    ensures |uri| < UriSize && IndexOf(ms, Uri, uri).Some? ==>
      (r.1 == IndexOf(ms, Uri, uri) && r.0 == ms[r.1.value := Reset(ms[r.1.value])])
    ensures |uri| < UriSize && IndexOf(ms, Uri, uri).None? ==>
      (r.1 == Some(|ms|) && r.0 == ms + [Blank(uri)])
    ensures forall k :: k != uri ==> IndexOf(r.0, Uri, k) == IndexOf(ms, Uri, k)
    ensures Unique(ms, Uri) ==> Unique(r.0, Uri)
  {
    if |uri| >= UriSize then (ms, None)
    else match IndexOf(ms, Uri, uri)
      case Some(i) =>
        ReplaceKeepsIndex(ms, Uri, i, Reset(ms[i]));
        (ms[i := Reset(ms[i])], Some(i))
      case None =>
        AppendKeepsIndex(ms, Uri, Reset(Blank(uri)));
        (ms + [Reset(Blank(uri))], Some(|ms|))
  }

  /** mux_locate_add: an existing multiplex is returned as it is. */
  function LocateAdd(ms: seq<Mux>, uri: string): (r: (seq<Mux>, Option<nat>))
    ensures IndexOf(ms, Uri, uri).Some? ==> r == (ms, IndexOf(ms, Uri, uri))
    ensures IndexOf(ms, Uri, uri).None? ==> r == Add(ms, uri)
    ensures r.1.Some? ==> r.1.value < |r.0| && IndexOf(r.0, Uri, uri) == r.1
    ensures Unique(ms, Uri) ==> Unique(r.0, Uri)
    ensures ms <= r.0 && (|r.0| == |ms| || (r.1 == Some(|ms|) && |r.0| == |ms| + 1))
  {
    match IndexOf(ms, Uri, uri)
    case Some(i) => (ms, Some(i))
    case None => Add(ms, uri)
  }

  /** "dvb://%04x.%04x" of original_network_id and transport_stream_id. */
  function DvbUri(onid: nat, tsid: nat): string
  {
    "dvb://" + Hex04(onid) + "." + Hex04(tsid)
  }

  /** mux_locate_add_dvb: the URI always fits, so a record is always returned. */
  function LocateAddDvb(ms: seq<Mux>, onid: nat, tsid: nat): (r: (seq<Mux>, nat))
    requires onid < 0x1_0000 && tsid < 0x1_0000
    ensures LocateAdd(ms, DvbUri(onid, tsid)) == (r.0, Some(r.1))
  {
    DvbUriInjective(onid, tsid, onid, tsid);
    var a := LocateAdd(ms, DvbUri(onid, tsid));
    (a.0, a.1.value)
  }

  /** Distinct 16-bit pairs give distinct URIs, 15 characters long. */
  lemma DvbUriInjective(onid: nat, tsid: nat, onid': nat, tsid': nat)
    requires onid < 0x1_0000 && tsid < 0x1_0000 && onid' < 0x1_0000 && tsid' < 0x1_0000
    ensures |DvbUri(onid, tsid)| == 15 < UriSize
    ensures DvbUri(onid, tsid) == DvbUri(onid', tsid') <==> (onid, tsid) == (onid', tsid')
  {
    Hex04RoundTrip(onid); Hex04RoundTrip(tsid);
    Hex04RoundTrip(onid'); Hex04RoundTrip(tsid');
    var u, v := DvbUri(onid, tsid), DvbUri(onid', tsid');
    if u == v {
      assert u[6..10] == Hex04(onid) && v[6..10] == Hex04(onid');
      assert u[11..15] == Hex04(tsid) && v[11..15] == Hex04(tsid');
      Hex04Injective(onid, onid');
      Hex04Injective(tsid, tsid');
    }
  }

  /** The global multiplexes array of dvb/multiplexes.c. */
  class MuxList {
    var muxes: seq<Mux>

    constructor ()
      ensures muxes == []
    {
      muxes := [];
    }

    /** mux_locate. */
    method Locate(uri: string) returns (r: Option<nat>)
      ensures r == IndexOf(muxes, Uri, uri)
    {
      var i := 0;
      while i < |muxes|
        invariant 0 <= i <= |muxes|
        invariant forall j :: 0 <= j < i ==> muxes[j].uri != uri
      {
        if muxes[i].uri == uri {
          return Some(i);
        }
        i := i + 1;
      }
      return None;
    }

    /** mux_add. */
    method Register(uri: string) returns (r: Option<nat>)
      modifies this
      ensures (muxes, r) == Add(old(muxes), uri)
    {
      if |uri| >= UriSize {
        return None;
      }
      r := Locate(uri);
      if r.None? {
        muxes := muxes + [Blank(uri)];
        r := Some(|muxes| - 1);
        ResetAt(r.value);
        assert muxes == old(muxes) + [Blank(uri)];
      } else {
        ResetAt(r.value);
      }
    }

    /** mux_locate_add. */
    method LocateRegister(uri: string) returns (r: Option<nat>)
      modifies this
      ensures (muxes, r) == LocateAdd(old(muxes), uri)
    {
      r := Locate(uri);
      if r.Some? {
        return;
      }
      r := Register(uri);
    }

    /** mux_locate_add_dvb. */
    method LocateRegisterDvb(onid: nat, tsid: nat) returns (r: nat)
      requires onid < 0x1_0000 && tsid < 0x1_0000
      modifies this
      ensures (muxes, r) == LocateAddDvb(old(muxes), onid, tsid)
    {
      ghost var a := LocateAddDvb(muxes, onid, tsid);
      var found := LocateRegister(DvbUri(onid, tsid));
      r := found.value;
    }

    /** mux_reset. */
    method ResetAt(i: nat)
      requires i < |muxes|
      modifies this
      ensures muxes == old(muxes)[i := Reset(old(muxes)[i])]
    {
      muxes := muxes[i := Reset(muxes[i])];
    }

    /** mux_set_platform. */
    method SetPlatform(i: nat, platform: Option<nat>)
      requires i < |muxes|
      modifies this
      ensures muxes == old(muxes)[i := old(muxes)[i].(platform := platform)]
    {
      muxes := muxes[i := muxes[i].(platform := platform)];
    }

    /** mux_set_data. */
    method SetData(i: nat, data: nat)
      requires i < |muxes|
      modifies this
      ensures muxes == old(muxes)[i := old(muxes)[i].(data := data)]
    {
      muxes := muxes[i := muxes[i].(data := data)];
    }

    /** mux_foreach. */
    method Foreach(fn: Mux -> int) returns (r: int)
      ensures r == FirstNonZero(muxes, fn)
    {
      var n := 0;
      while n < |muxes|
        invariant 0 <= n <= |muxes|
        invariant forall j :: 0 <= j < n ==> fn(muxes[j]) == 0
      {
        r := fn(muxes[n]);
        if r != 0 {
          ForeachStopsAtFirst(muxes, fn, n);
          return;
        }
        n := n + 1;
      }
      return 0;
    }
  }
}
