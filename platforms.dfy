// dvb/platforms.c: the registry of platforms (original networks), keyed by
// URI. A platform record holds nothing but its URI.
module Platforms {
  import opened Wrappers
  import opened Format
  import opened Registry

  /** PLATFORM_URI_SIZE. */
  const UriSize: nat := 64

  datatype Platform = Platform(uri: string)

  function Uri(p: Platform): string { p.uri }

  /** platform_add: NULL for a URI that does not fit; otherwise the record
      with that URI, or a new one appended. platform_reset changes nothing. */
  function Add(ps: seq<Platform>, uri: string): (r: (seq<Platform>, Option<nat>))
    ensures |uri| >= UriSize ==> r == (ps, None)
    ensures |uri| < UriSize && IndexOf(ps, Uri, uri).Some? ==> r == (ps, IndexOf(ps, Uri, uri))
    ensures |uri| < UriSize && IndexOf(ps, Uri, uri).None? ==>
      (r.1 == Some(|ps|) && r.0 == ps + [Platform(uri)])
    ensures r.1.Some? ==> r.1.value < |r.0| && IndexOf(r.0, Uri, uri) == r.1
    ensures forall k :: k != uri ==> IndexOf(r.0, Uri, k) == IndexOf(ps, Uri, k)
    ensures Unique(ps, Uri) ==> Unique(r.0, Uri)
  {
    if |uri| >= UriSize then (ps, None)
    else match IndexOf(ps, Uri, uri)
      case Some(i) => (ps, Some(i))
      case None =>
        AppendKeepsIndex(ps, Uri, Platform(uri));
        (ps + [Platform(uri)], Some(|ps|))
  }

  /** platform_locate_add: the existing record, or what platform_add makes. */
  function LocateAdd(ps: seq<Platform>, uri: string): (r: (seq<Platform>, Option<nat>))
    ensures IndexOf(ps, Uri, uri).Some? ==> r == (ps, IndexOf(ps, Uri, uri))
    ensures IndexOf(ps, Uri, uri).None? ==> r == Add(ps, uri)
    ensures r.1.Some? ==> r.1.value < |r.0| && IndexOf(r.0, Uri, uri) == r.1
    ensures Unique(ps, Uri) ==> Unique(r.0, Uri)
    ensures ps <= r.0 && (|r.0| == |ps| || (r.1 == Some(|ps|) && |r.0| == |ps| + 1))
  {
    match IndexOf(ps, Uri, uri)
    case Some(i) => (ps, Some(i))
    case None => Add(ps, uri)
  }

  /** Every URI in the registry fits its buffer, as platform_add ensures. */
  predicate Fits(ps: seq<Platform>)
  {
    forall i :: 0 <= i < |ps| ==> |ps[i].uri| < UriSize
  }

  /** Since platform_reset is a no-op, adding is the same as locating-or-adding,
      and both keep every URI within its buffer. */
  lemma AddIsLocateAdd(ps: seq<Platform>, uri: string)
    requires Fits(ps)
    ensures Add(ps, uri) == LocateAdd(ps, uri)
    ensures Fits(Add(ps, uri).0)
  {
    var r := IndexOf(ps, Uri, uri);
    if r.Some? {
      assert ps[r.value].uri == uri;
    }
  }

  /** snprintf(uri, 32, "dvb://%04x", original_network_id). */
  function DvbUri(onid: nat): string
  {
    Take("dvb://" + Hex04(onid), 31)
  }

  /** platform_locate_add_dvb: the URI always fits, so a record is always
      returned. */
  function LocateAddDvb(ps: seq<Platform>, onid: nat): (r: (seq<Platform>, nat))
    requires onid < 0x1_0000
    ensures LocateAdd(ps, DvbUri(onid)) == (r.0, Some(r.1))
  {
    DvbUriInjective(onid, onid);
    var a := LocateAdd(ps, DvbUri(onid));
    (a.0, a.1.value)
  }

  /** Distinct 16-bit network ids give distinct URIs, 10 characters long. */
  lemma DvbUriInjective(onid: nat, onid': nat)
    requires onid < 0x1_0000 && onid' < 0x1_0000
    ensures |DvbUri(onid)| == 10 < UriSize
    ensures DvbUri(onid) == DvbUri(onid') <==> onid == onid'
  {
    Hex04RoundTrip(onid);
    Hex04RoundTrip(onid');
    var u, v := DvbUri(onid), DvbUri(onid');
    if u == v {
      assert u[6..10] == Hex04(onid) && v[6..10] == Hex04(onid');
      Hex04Injective(onid, onid');
    }
  }

  /** The global platforms array of dvb/platforms.c. */
  class PlatformList {
    var platforms: seq<Platform>

    constructor ()
      ensures platforms == []
    {
      platforms := [];
    }

    /** platform_locate. */
    method Locate(uri: string) returns (r: Option<nat>)
      ensures r == IndexOf(platforms, Uri, uri)
    {
      var i := 0;
      while i < |platforms|
        invariant 0 <= i <= |platforms|
        invariant forall j :: 0 <= j < i ==> platforms[j].uri != uri
      {
        if platforms[i].uri == uri {
          return Some(i);
        }
        i := i + 1;
      }
      return None;
    }

    /** platform_add. */
    method Register(uri: string) returns (r: Option<nat>)
      modifies this
      ensures (platforms, r) == Add(old(platforms), uri)
    {
      if |uri| >= UriSize {
        return None;
      }
      r := Locate(uri);
      if r.None? {
        platforms := platforms + [Platform(uri)];
        r := Some(|platforms| - 1);
      }
    }

    /** platform_locate_add. */
    method LocateRegister(uri: string) returns (r: Option<nat>)
      modifies this
      ensures (platforms, r) == LocateAdd(old(platforms), uri)
    {
      r := Locate(uri);
      if r.Some? {
        return;
      }
      r := Register(uri);
    }

    /** platform_locate_add_dvb. */
    method LocateRegisterDvb(onid: nat) returns (r: nat)
      requires onid < 0x1_0000
      modifies this
      ensures (platforms, r) == LocateAddDvb(old(platforms), onid)
    {
      var found := LocateRegister(DvbUri(onid));
      r := found.value;
    }
  }
}
