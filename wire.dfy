// Field arithmetic of the SI wire format (ISO/IEC 13818-1 section 2.4.4 and
// ETSI EN 300 468): the 16- and 32-bit big-endian fields, BCD time fields,
// Modified Julian Dates and the 12-bit length fields, read with the
// little-endian bit-field layout of the structures in dvb/si_tables.h.
module Wire {
  type Byte = b: int | 0 <= b < 256

  /** The byte at offset i, or 0 past the end of the bytes that are known. */
  function At(s: seq<Byte>, i: int): Byte
  {
    if 0 <= i < |s| then s[i] else 0
  }

  /** Where the descriptor at d ends: its tag, its descriptor_length byte,
      then descriptor_length bytes. */
  function DescriptorEnd(s: seq<Byte>, d: int): int
  {
    d + 2 + At(s, d + 1)
  }

  /** The bytes of a C string: everything before the first NUL. */
  function CString(s: seq<Byte>): (r: seq<Byte>)
    ensures r <= s
    ensures forall i :: 0 <= i < |r| ==> r[i] != 0
    ensures |r| < |s| ==> s[|r|] == 0
  {
    if s == [] || s[0] == 0 then [] else [s[0]] + CString(s[1..])
  }

  /** The bytes of a char buffer, read as the characters of those codes. */
  function Chars(s: seq<Byte>): (r: string)
    ensures |r| == |s| && forall i :: 0 <= i < |s| ==> r[i] as int == s[i]
  {
    seq(|s|, i requires 0 <= i < |s| => s[i] as char)
  }

  /** The n bytes from offset `from`. */
  function Bytes(s: seq<Byte>, from: int, n: nat): (r: seq<Byte>)
    ensures |r| == n && forall k :: 0 <= k < n ==> r[k] == At(s, from + k)
    ensures 0 <= from && from + n <= |s| ==> r == s[from..from + n]
    decreases n
  {
    if n == 0 then [] else [At(s, from)] + Bytes(s, from + 1, n - 1)
  }

  /** What strncpy(buf, p, n) followed by buf[n] = 0 leaves in buf: the n
      bytes from `from`, up to the first NUL among them. */
  function StringField(s: seq<Byte>, from: int, n: nat): (r: string)
    ensures |r| <= n
    ensures NonNulFrom(s, from, r)
    ensures |r| < n ==> At(s, from + |r|) == 0
    decreases n
  {
    if n == 0 || At(s, from) == 0 then []
    else
      var rest := StringField(s, from + 1, n - 1);
      NonNulCons(s, from, rest);
      [At(s, from) as char] + rest
  }

  /** r is the bytes from `from` on, none of them NUL. */
  predicate NonNulFrom(s: seq<Byte>, from: int, r: string)
  {
    forall k :: 0 <= k < |r| ==> r[k] as int == At(s, from + k) != 0
  }

  /** A non-NUL byte in front of the non-NUL bytes that follow it. */
  lemma NonNulCons(s: seq<Byte>, from: int, rest: string)
    requires At(s, from) != 0
    requires NonNulFrom(s, from + 1, rest)
    ensures NonNulFrom(s, from, [At(s, from) as char] + rest)
  {
    var r := [At(s, from) as char] + rest;
    forall k | 0 <= k < |r|
      ensures r[k] as int == At(s, from + k) != 0
    {
      if k > 0 {
        assert r[k] == rest[k - 1];
      }
    }
  }

  /** A block of bytes placed at offset d is what At and StringField read there. */
  lemma AtSlice(s: seq<Byte>, d: int, blk: seq<Byte>, k: int)
    requires 0 <= d && d + |blk| <= |s| && s[d..d + |blk|] == blk && 0 <= k < |blk|
    ensures At(s, d + k) == blk[k]
  {
    assert s[d + k] == s[d..d + |blk|][k];
  }

  lemma StringFieldSlice(s: seq<Byte>, d: int, blk: seq<Byte>, k: int, n: nat)
    requires 0 <= d && d + |blk| <= |s| && s[d..d + |blk|] == blk && 0 <= k && k + n <= |blk|
    requires forall j :: k <= j < k + n ==> blk[j] != 0
    ensures StringField(s, d + k, n) == Chars(blk[k..k + n])
  {
    var r := StringField(s, d + k, n);
    var c := Chars(blk[k..k + n]);
    if |r| < n {
      AtSlice(s, d, blk, k + |r|);
    }
    forall j | 0 <= j < n
      ensures r[j] == c[j]
    {
      AtSlice(s, d, blk, k + j);
      assert r[j] as int == c[j] as int;
    }
  }

  /** HILO: a 16-bit big-endian field. */
  function Hilo(hi: Byte, lo: Byte): (r: nat)
    ensures r < 0x1_0000
    ensures r / 256 == hi && r % 256 == lo
  {
    hi * 256 + lo
  }

  /** The 16-bit field at offset i. */
  function Field16(s: seq<Byte>, i: int): (r: nat)
    ensures r < 0x1_0000
  {
    Hilo(At(s, i), At(s, i + 1))
  }

  /** A 12-bit length: the low nibble of the first byte, then the whole second byte. */
  function Length12(hi: Byte, lo: Byte): (r: nat)
    ensures r < 0x1000
    ensures r / 256 == hi % 16 && r % 256 == lo
  {
    (hi % 16) * 256 + lo
  }

  /** The 12-bit length at offset i. */
  function Field12(s: seq<Byte>, i: int): (r: nat)
    ensures r < 0x1000
  {
    Length12(At(s, i), At(s, i + 1))
  }

  /** The value a C int holds after a computation whose exact result is v (two's complement, 32 bits). */
  function CInt(v: int): (r: int)
    ensures -0x8000_0000 <= r < 0x8000_0000
    ensures (r - v) % 0x1_0000_0000 == 0
  {
    var m := v % 0x1_0000_0000;
    if m < 0x8000_0000 then m else m - 0x1_0000_0000
  }

  /** HILO4 as the macro is written: byte 4 is shifted into the top byte and byte 1 is never read. */
  function Hilo4AsWritten(b1: Byte, b2: Byte, b3: Byte, b4: Byte): (r: int)
    ensures -0x8000_0000 <= r < 0x8000_0000
    ensures r == CInt(Hilo4(b4, b2, b3, b4))
  {
    CInt(b4 * 0x100_0000 + b2 * 0x1_0000 + b3 * 0x100 + b4)
  }

  /** A 32-bit big-endian field, as HILO4 is meant to read it. */
  function Hilo4(b1: Byte, b2: Byte, b3: Byte, b4: Byte): (r: nat)
    ensures r < 0x1_0000_0000
    ensures r / 0x1_0000 == Hilo(b1, b2) && r % 0x1_0000 == Hilo(b3, b4)
  {
    DivMod16(Hilo(b1, b2), Hilo(b3, b4));
    b1 * 0x100_0000 + b2 * 0x1_0000 + b3 * 0x100 + b4
  }

  lemma DivMod16(q: nat, rem: nat)
    requires rem < 0x1_0000
    ensures (q * 0x1_0000 + rem) / 0x1_0000 == q && (q * 0x1_0000 + rem) % 0x1_0000 == rem
  {
  }

  /** With byte 4 in the top byte, no four bytes read as the value 5, so a
      private data specifier of 0x00000005 is never recognised. */
  lemma Hilo4AsWrittenNeverFive(b1: Byte, b2: Byte, b3: Byte, b4: Byte)
    ensures Hilo4AsWritten(b1, b2, b3, b4) != 5
  {
    var v := b4 * 0x100_0000 + b2 * 0x1_0000 + b3 * 0x100 + b4;
    if b4 < 128 {
      assert 0 <= v < 0x8000_0000;
      assert Hilo4AsWritten(b1, b2, b3, b4) == v;
      if b4 == 0 {
        assert v == (b2 * 0x100 + b3) * 0x100;
      } else {
        assert v >= 0x100_0000;
      }
    } else {
      assert 0x8000_0000 <= v < 0x1_0000_0000;
      assert Hilo4AsWritten(b1, b2, b3, b4) == v - 0x1_0000_0000;
    }
  }

  /** The four bytes 00 00 00 05 read as 5 only with the intended byte order. */
  lemma Hilo4SpecifierFive()
    ensures Hilo4(0, 0, 0, 5) == 5
    ensures Hilo4AsWritten(0, 0, 0, 5) == 0x0500_0005
  {
    assert 5 * 0x100_0000 + 0 * 0x1_0000 + 0 * 0x100 + 5 == 0x0500_0005;
    assert 0x0500_0005 % 0x1_0000_0000 == 0x0500_0005;
  }

  /** BcdCharToInt: two decimal digits packed in one byte. */
  function BcdCharToInt(b: Byte): nat
  {
    10 * (b / 16) + b % 16
  }

  /** CheckBcdChar: both nibbles are decimal digits. */
  predicate CheckBcdChar(b: Byte)
  {
    b / 16 <= 9 && b % 16 <= 9
  }

  /** Packs a value below 100 into two BCD digits. */
  function ToBcd(n: nat): (b: Byte)
    requires n <= 99
  {
    (n / 10) * 16 + n % 10
  }

  /** A valid BCD byte decodes to at most 99, and BCD bytes and values 0..99 correspond one to one. */
  lemma BcdRoundTrip(b: Byte, n: nat)
    requires n <= 99
    ensures CheckBcdChar(b) ==> BcdCharToInt(b) <= 99 && ToBcd(BcdCharToInt(b)) == b
    ensures CheckBcdChar(ToBcd(n)) && BcdCharToInt(ToBcd(n)) == n
  {
  }

  lemma BcdExample()
    ensures BcdCharToInt(0x23) == 23 && CheckBcdChar(0x23) && !CheckBcdChar(0x3A)
  {
  }

  /** BcdTimeToSeconds over three BCD bytes h, m, s. */
  function BcdTimeToSeconds(h: Byte, m: Byte, s: Byte): nat
  {
    3600 * BcdCharToInt(h) + 60 * BcdCharToInt(m) + BcdCharToInt(s)
  }

  /** Any duration below 100 hours is encoded by its BCD hours, minutes and seconds. */
  lemma BcdTimeRoundTrip(t: nat)
    requires t < 100 * 3600
    ensures BcdTimeToSeconds(ToBcd(t / 3600), ToBcd(t / 60 % 60), ToBcd(t % 60)) == t
  {
    var h, m, sec := t / 3600, t / 60 % 60, t % 60;
    assert t == 60 * (t / 60) + sec;
    assert t / 60 == 60 * h + m;
    BcdRoundTrip(ToBcd(h), h);
    BcdRoundTrip(ToBcd(m), m);
    BcdRoundTrip(ToBcd(sec), sec);
  }

  /** MjdToEpochTime: seconds since 1970-01-01, whose MJD is 40587, for the
      16-bit HILO of the field. The product is C int arithmetic, which wraps
      at 32 bits. */
  function MjdToEpochTime(mjd: int): (r: int)
    requires 0 <= mjd < 0x1_0000
    ensures -0x8000_0000 <= r < 0x8000_0000
    ensures (r - (mjd - 40587) * 86400) % 0x1_0000_0000 == 0
  {
    CInt((mjd - 40587) * 86400)
  }

  /** From MJD 15732 (1901-12-14) to MJD 65442 (2038-01-19) the product
      fits in an int: MJD 40587 is epoch 0 and every day adds 86400 seconds. */
  lemma MjdToEpochTimeExact(mjd: int)
    requires 15732 <= mjd <= 65442
    ensures MjdToEpochTime(mjd) == (mjd - 40587) * 86400
    ensures MjdToEpochTime(mjd) % 86400 == 0 && MjdToEpochTime(mjd) / 86400 == mjd - 40587
    ensures MjdToEpochTime(mjd) == 0 <==> mjd == 40587
  {
    var days := mjd - 40587;
    assert -24855 <= days <= 24855;
    var v := days * 86400;
    assert -0x8000_0000 <= v < 0x8000_0000 by {
      assert -24855 * 86400 <= v <= 24855 * 86400;
    }
    CIntInRange(v);
  }

  /** A value already in int range is its own 32-bit wrap. */
  lemma CIntInRange(v: int)
    requires -0x8000_0000 <= v < 0x8000_0000
    ensures CInt(v) == v
  {
    if v < 0 {
      assert v % 0x1_0000_0000 == v + 0x1_0000_0000;
    }
  }

  /** One day outside that range the product wraps: MJD 65443 (2038-01-20)
      gives a date in 1901, and MJD 15731 (1901-12-13) one in 2038. */
  lemma MjdToEpochTimeWraps()
    ensures MjdToEpochTime(65443) == 24856 * 86400 - 0x1_0000_0000 < 0
    ensures MjdToEpochTime(15731) == 0x1_0000_0000 - 24856 * 86400 > 0
  {
  }

  /** Header fields common to every section (ISO/IEC 13818-1 section 2.4.4.10). */
  function TableId(s: seq<Byte>): Byte { At(s, 0) }

  /** GetSectionLength: the 12-bit section_length; the section occupies 3 more bytes. */
  function SectionLength(s: seq<Byte>): (r: nat)
    ensures r <= 4095
    ensures 3 + r <= 4098
  {
    Field12(s, 1)
  }

  /** version_number: bits 1..5 of byte 5 (current_next_indicator is bit 0). */
  function VersionNumber(s: seq<Byte>): (r: nat)
    ensures r < 32
    ensures At(s, 5) == 64 * (At(s, 5) / 64) + 2 * r + (if CurrentNext(s) then 1 else 0)
  {
    At(s, 5) / 2 % 32
  }

  predicate CurrentNext(s: seq<Byte>) { At(s, 5) % 2 == 1 }

  function SectionNumber(s: seq<Byte>): Byte { At(s, 6) }

  function LastSectionNumber(s: seq<Byte>): Byte { At(s, 7) }

  /** One entry of the logical channel descriptor: service_id, then visible
      flag (bit 7), five reserved bits and the 10-bit channel number. */
  datatype LcnEntry = LcnEntry(serviceId: nat, visible: bool, lcn: nat)

  function DecodeLcn(b0: Byte, b1: Byte, b2: Byte, b3: Byte): (e: LcnEntry)
    ensures e.serviceId < 0x1_0000 && e.lcn < 1024
  {
    LcnEntry(Hilo(b0, b1), b2 / 128 == 1, (b2 % 4) * 256 + b3)
  }

  predicate ValidLcn(e: LcnEntry) { e.serviceId < 0x1_0000 && e.lcn < 1024 }

  /** The four bytes of an entry, with the reserved bits given. */
  function EncodeLcn(e: LcnEntry, reserved: nat): seq<Byte>
    requires ValidLcn(e) && reserved < 32
  {
    [e.serviceId / 256, e.serviceId % 256,
     (if e.visible then 128 else 0) + reserved * 4 + e.lcn / 256, e.lcn % 256]
  }

  /** The layout reads back every entry, whatever the reserved bits hold. */
  lemma LcnRoundTrip(e: LcnEntry, reserved: nat)
    requires ValidLcn(e) && reserved < 32
    ensures var b := EncodeLcn(e, reserved); DecodeLcn(b[0], b[1], b[2], b[3]) == e
  {
    var v := if e.visible then 1 else 0;
    var low := reserved * 4 + e.lcn / 256;
    var b2 := 128 * v + low;
    assert low < 128 && low % 4 == e.lcn / 256;
    assert b2 / 128 == v && b2 % 4 == low % 4;
    assert Hilo(e.serviceId / 256, e.serviceId % 256) == e.serviceId;
  }
}
