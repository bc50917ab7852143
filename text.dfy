// Text fields of ETSI EN 300 468 Annex A: the first byte of a field selects
// the character table and how many selector bytes to skip; the converted
// UCS-2 code units are then escaped for XML (dvb_text_iconv.c).
module TextIconv {
  import opened Wire
  import opened Format
  import opened Wrappers

  type Ucs2 = u: int | 0 <= u < 0x1_0000

  /** What the handler of a selector byte yields: a reserved table, or the
      charset name given to iconv and the number of bytes it consumes. */
  datatype Selector = Reserved | Charset(name: string, advance: nat)

  predicate ReservedSelector(b: Byte)
  {
    b == 0 || 0x0C <= b <= 0x0F || 0x16 <= b <= 0x1F
  }

  /** The handler table of the selector byte, with the part number of a
      0x10 selector taken from bytes 1 and 2 of the field. */
  function Select(field: seq<Byte>, defaultCharset: string): (r: Selector)
    ensures r.Reserved? <==> ReservedSelector(At(field, 0))
    ensures r.Charset? && r.advance == 0 <==> At(field, 0) >= 0x20
    ensures r.Charset? && r.advance == 1 <==> (0x01 <= At(field, 0) <= 0x0B || 0x11 <= At(field, 0) <= 0x15)
    ensures r.Charset? && r.advance == 3 <==> At(field, 0) == 0x10
    ensures At(field, 0) >= 0x20 ==> r.name == Take(defaultCharset, 16)
    ensures r.Charset? ==> |r.name| <= 16
  {
    SelectorHandler(field, Hilo(At(field, 1), At(field, 2)), defaultCharset)
  }

  /** encoding_variable as written: `*s[1]` and `*s[2]` dereference the
      words that follow the caller's pointer variable instead of the bytes
      of the field, so the part number comes from two unrelated bytes g1, g2. */
  function SelectAsWritten(field: seq<Byte>, g1: Byte, g2: Byte, defaultCharset: string): (r: Selector)
    ensures r.Reserved? <==> ReservedSelector(At(field, 0))
    ensures At(field, 0) != 0x10 ==> r == Select(field, defaultCharset)
  {
    SelectorHandler(field, Hilo(g1, g2), defaultCharset)
  }

  /** The selector xmlify acts on under a reading. `stray` stands for the
      two bytes `*s[1]` and `*s[2]` reach, which the corrected reading does
      not look at. */
  function SelectIn(rd: Reading, field: seq<Byte>, stray: (Byte, Byte), defaultCharset: string): (r: Selector)
    ensures r.Reserved? <==> ReservedSelector(At(field, 0))
    ensures r.Charset? && r.advance == 3 <==> At(field, 0) == 0x10
    ensures At(field, 0) != 0x10 ==> r == Select(field, defaultCharset)
  {
    if rd.AsWritten? then SelectAsWritten(field, stray.0, stray.1, defaultCharset) else Select(field, defaultCharset)
  }

  function SelectorHandler(field: seq<Byte>, part: nat, defaultCharset: string): Selector
  {
    var b := At(field, 0);
    if ReservedSelector(b) then Reserved
    else if b <= 0x0B then Charset("ISO-8859-" + Decimal(b + 4), 1)
    else if b == 0x10 then Charset(Take("ISO-8859-" + Decimal(part), 15), 3)
    else if b == 0x11 then Charset("ISO-10646/UCS2", 1)
    else if b == 0x12 then Charset("KSC_5601", 1)
    else if b == 0x13 then Charset("GB_2312-80", 1)
    else if b == 0x14 then Charset("BIG5", 1)
    else if b == 0x15 then Charset("ISO-10646/UTF8", 1)
    else Charset(Take(defaultCharset, 16), 0)
  }

  lemma SelectExamples(d: string)
    ensures Select([0x01], d) == Charset("ISO-8859-5", 1)
    ensures Select([0x0B], d) == Charset("ISO-8859-15", 1)
    ensures Select([0x10, 0x00, 0x07], d) == Charset("ISO-8859-7", 3)
  {
    assert Decimal(5) == "5";
    assert Decimal(15) == "15";
    assert Decimal(7) == "7";
  }

  /** The field 10 00 07 asks for ISO-8859-7; as written the part number is
      whatever the two stray bytes hold. */
  lemma VariableSelectorIgnoresField(d: string)
    ensures SelectAsWritten([0x10, 0x00, 0x07], 0, 0, d) == Charset("ISO-8859-0", 3)
    ensures Select([0x10, 0x00, 0x07], d) == Charset("ISO-8859-7", 3)
  {
    assert Decimal(0) == "0";
    SelectExamples(d);
  }

  predicate PassThrough(u: Ucs2)
  {
    u == 0x09 || u == 0x0A || (0x20 <= u <= 0x7E && u != 0x26 && u != 0x3C && u != 0x3E)
  }

  /** The code units that are logged as illegal before being escaped. */
  predicate Illegal(u: Ucs2)
  {
    u <= 0x08 || 0x0B <= u <= 0x1F || u == 0x7F
  }

  /** The hexadecimal digits of a character reference, upper case, with
      leading zero nibbles left out. */
  function HexRef(u: nat): (r: string)
    ensures 1 <= |r|
    ensures u < 0x10 ==> |r| == 1
    ensures u < 0x100 ==> |r| <= 2
    ensures u < 0x1000 ==> |r| <= 3
    ensures u < 0x1_0000 ==> |r| <= 4
    ensures |r| > 1 ==> r[0] != '0'
    ensures forall i :: 0 <= i < |r| ==> r[i] != ';'
    decreases u
  {
    if u < 16 then [HexDigit(u, true)] else HexRef(u / 16) + [HexDigit(u % 16, true)]
  }

  lemma {:induction false} HexRefValue(u: nat)
    ensures HexValue(HexRef(u)) == u
    decreases u
  {
    if u >= 16 {
      HexRefValue(u / 16);
      var r := HexRef(u);
      assert r[..|r| - 1] == HexRef(u / 16);
    }
  }

  /** The XML text one code unit becomes. */
  function EscapeUnit(u: Ucs2): (r: string)
    ensures 1 <= |r| <= 8
  {
    if PassThrough(u) then [u as char]
    else if u == 0x26 then "&amp;"
    else if u == 0x3C then "&lt;"
    else if u == 0x3E then "&gt;"
    else "&#x" + HexRef(u) + ";"
  }

  function Escape(units: seq<Ucs2>): (r: string)
    ensures |r| <= 8 * |units|
  {
    if units == [] then "" else EscapeUnit(units[0]) + Escape(units[1..])
  }

  lemma {:induction false} EscapeAppend(a: seq<Ucs2>, b: seq<Ucs2>)
    ensures Escape(a + b) == Escape(a) + Escape(b)
    decreases |a|
  {
    if a == [] {
      assert a + b == b;
    } else {
      assert (a + b)[1..] == a[1..] + b;
      EscapeAppend(a[1..], b);
    }
  }

  lemma EscapeSnoc(a: seq<Ucs2>, u: Ucs2)
    ensures Escape(a + [u]) == Escape(a) + EscapeUnit(u)
  {
    EscapeAppend(a, [u]);
    assert Escape([u]) == EscapeUnit(u) + Escape([]);
  }

  function IllegalUnits(units: seq<Ucs2>): seq<Ucs2>
  {
    if units == [] then []
    else (if Illegal(units[0]) then [units[0]] else []) + IllegalUnits(units[1..])
  }

  lemma {:induction false} IllegalAppend(a: seq<Ucs2>, b: seq<Ucs2>)
    ensures IllegalUnits(a + b) == IllegalUnits(a) + IllegalUnits(b)
    decreases |a|
  {
    if a == [] {
      assert a + b == b;
    } else {
      var h: seq<Ucs2> := if Illegal(a[0]) then [a[0]] else [];
      assert (a + b)[0] == a[0] && (a + b)[1..] == a[1..] + b;
      IllegalAppend(a[1..], b);
      assert IllegalUnits(a + b) == h + IllegalUnits(a[1..] + b);
      assert IllegalUnits(a) == h + IllegalUnits(a[1..]);
      assert h + (IllegalUnits(a[1..]) + IllegalUnits(b)) == (h + IllegalUnits(a[1..])) + IllegalUnits(b);
    }
  }

  lemma IllegalSnoc(a: seq<Ucs2>, u: Ucs2)
    ensures IllegalUnits(a + [u]) == IllegalUnits(a) + (if Illegal(u) then [u] else [])
  {
    IllegalAppend(a, [u]);
    assert IllegalUnits([u]) == (if Illegal(u) then [u] else []) + IllegalUnits([]);
  }

  /** The index of the first ';' in s, or |s| when there is none. */
  function Semicolon(s: string): (k: nat)
    ensures k <= |s|
    ensures k < |s| ==> s[k] == ';'
    ensures forall i :: 0 <= i < k ==> s[i] != ';'
  {
    if s == [] || s[0] == ';' then 0 else 1 + Semicolon(s[1..])
  }

  /** The code unit an entity or character reference names. */
  function EntityValue(name: string): int
  {
    if name == "amp" then 0x26 else if name == "lt" then 0x3C else if name == "gt" then 0x3E
    else if |name| >= 2 && name[..2] == "#x" then HexValue(name[2..]) else 0x26
  }

  /** An XML reader's view of the escaped text: characters and the entity and
      character references the escaper produces. */
  function Unescape(s: string): seq<int>
    decreases |s|
  {
    if s == [] then []
    else if s[0] != '&' || Semicolon(s) == |s| then [s[0] as int] + Unescape(s[1..])
    else [EntityValue(s[1..Semicolon(s)])] + Unescape(s[Semicolon(s) + 1..])
  }

  lemma UnescapeEntity(name: string, rest: string)
    requires forall i :: 0 <= i < |name| ==> name[i] != ';'
    ensures Unescape("&" + name + ";" + rest) == [EntityValue(name)] + Unescape(rest)
  {
    var s := "&" + name + ";" + rest;
    assert s[0] == '&';
    assert forall i :: 0 <= i < |name| + 1 ==> s[i] != ';';
    assert s[|name| + 1] == ';';
    assert Semicolon(s) == |name| + 1;
    assert s[1..|name| + 1] == name;
    assert s[|name| + 2..] == rest;
  }

  lemma UnescapeUnit(u: Ucs2, rest: string)
    ensures Unescape(EscapeUnit(u) + rest) == [u] + Unescape(rest)
  {
    if PassThrough(u) {
      var s := EscapeUnit(u) + rest;
      assert s[0] == u as char && s[1..] == rest;
    } else if u == 0x26 || u == 0x3C || u == 0x3E {
      UnescapeNamedEntity(u, rest);
    } else {
      UnescapeCharacterReference(u, rest);
    }
  }

  lemma UnescapeNamedEntity(u: Ucs2, rest: string)
    requires u == 0x26 || u == 0x3C || u == 0x3E
    ensures Unescape(EscapeUnit(u) + rest) == [u] + Unescape(rest)
  {
    var name := if u == 0x26 then "amp" else if u == 0x3C then "lt" else "gt";
    assert EscapeUnit(u) == "&" + name + ";";
    UnescapeEntity(name, rest);
  }

  lemma UnescapeCharacterReference(u: Ucs2, rest: string)
    requires !PassThrough(u) && u != 0x26 && u != 0x3C && u != 0x3E
    ensures Unescape(EscapeUnit(u) + rest) == [u] + Unescape(rest)
  {
    var name := "#x" + HexRef(u);
    assert EscapeUnit(u) == "&" + name + ";";
    assert forall i :: 0 <= i < |name| ==> name[i] != ';';
    UnescapeEntity(name, rest);
    assert name[..2] == "#x" && name[2..] == HexRef(u);
    assert name != "amp" && name != "lt" && name != "gt";
    HexRefValue(u);
  }

  /** Escaping loses nothing: reading the XML text back gives the code units. */
  lemma {:induction false} EscapeRoundTrip(units: seq<Ucs2>)
    ensures Unescape(Escape(units)) == units
    decreases |units|
  {
    if units != [] {
      UnescapeUnit(units[0], Escape(units[1..]));
      EscapeRoundTrip(units[1..]);
    }
  }

  /** What xmlify escapes: the quotes pass through, illegal controls and
      other units become character references. */
  lemma EscapeCases(u: Ucs2)
    ensures PassThrough(u) ==> EscapeUnit(u) == [u as char]
    ensures u == 0x26 ==> EscapeUnit(u) == "&amp;"
    ensures u == 0x3C ==> EscapeUnit(u) == "&lt;"
    ensures u == 0x3E ==> EscapeUnit(u) == "&gt;"
    ensures Illegal(u) ==> EscapeUnit(u) == "&#x" + HexRef(u) + ";"
    ensures EscapeUnit(0x22) == "\"" && EscapeUnit(0x27) == "'"
  {
  }

  lemma CharacterReferenceExamples()
    ensures EscapeUnit(0x07) == "&#x7;"
    ensures EscapeUnit(0x20AC) == "&#x20AC;"
  {
    assert HexRef(0x07) == "7";
    assert HexRef(0x20AC) == HexRef(0x20A) + "C";
    assert HexRef(0x20A) == HexRef(0x20) + "A";
    assert HexRef(0x20) == HexRef(0x2) + "0";
  }

  /** Bytes to UCS-2 code units, as iconv converts them for a charset. */
  type Converter = (string, seq<Byte>) -> seq<Ucs2>

  /** The code units converted: at most 1024, the capacity of the 2048-byte output buffer. */
  function Convert(convert: Converter, charset: string, text: seq<Byte>): (r: seq<Ucs2>)
    ensures |r| <= 1024
  {
    Take(convert(charset, text), 1024)
  }

  /** The bytes iconv converts: the C string after the selector bytes the
      handler consumed. */
  function Text(s: seq<Byte>, advance: nat): (r: seq<Byte>)
    ensures forall i :: 0 <= i < |r| ==> r[i] != 0
  {
    CString(s[if advance <= |s| then advance else |s|..])
  }

  /** The XML text xmlify returns for the field s: the handler picks the
      charset from the selector byte of the field (and, for 0x10, a part
      number as the reading says), and the string after the selector bytes
      is converted and escaped. */
  function XmlifyText(rd: Reading, stray: (Byte, Byte), s: seq<Byte>, defaultCharset: string, convert: Converter): (r: string)
    ensures |r| <= 8192
    ensures ReservedSelector(At(s, 0)) ==> r == ""
  {
    match SelectIn(rd, s, stray, defaultCharset)
    case Reserved => ""
    case Charset(name, advance) => Escape(Convert(convert, name, Text(s, advance)))
  }

  /** A string without NUL bytes followed by its terminator reads back as itself. */
  lemma {:induction false} CStringTerminated(t: seq<Byte>)
    requires forall i :: 0 <= i < |t| ==> t[i] != 0
    ensures CString(t + [0]) == t
  {
    if t != [] {
      assert (t + [0])[1..] == t[1..] + [0];
      CStringTerminated(t[1..]);
    }
  }

  /** Corrected, the field 10 00 07 followed by a string: the string is
      converted from ISO-8859-7, the three selector bytes are not part of it. */
  lemma XmlifyVariableField(stray: (Byte, Byte), t: seq<Byte>, d: string, convert: Converter)
    requires forall i :: 0 <= i < |t| ==> t[i] != 0
    ensures XmlifyText(Corrected, stray, [0x10, 0x00, 0x07] + t + [0], d, convert) == Escape(Convert(convert, "ISO-8859-7", t))
  {
    var s := [0x10, 0x00, 0x07] + t + [0];
    assert At(s, 0) == 0x10 && At(s, 1) == 0 && At(s, 2) == 7;
    assert Decimal(7) == "7";
    assert Select(s, d) == Charset("ISO-8859-7", 3);
    assert s[3..] == t + [0];
    CStringTerminated(t);
  }

  /** As written, a 0x10 field is converted from the part the two stray
      bytes name, whatever part its own bytes 1 and 2 name; the three
      selector bytes are still skipped. */
  lemma XmlifyVariableAsWritten(stray: (Byte, Byte), n1: Byte, n2: Byte, t: seq<Byte>, d: string, convert: Converter)
    requires forall i :: 0 <= i < |t| ==> t[i] != 0
    ensures XmlifyText(AsWritten, stray, [0x10, n1, n2] + t + [0], d, convert) ==
      Escape(Convert(convert, Take("ISO-8859-" + Decimal(Hilo(stray.0, stray.1)), 15), t))
  {
    var s := [0x10, n1, n2] + t + [0];
    assert At(s, 0) == 0x10;
    assert s[3..] == t + [0];
    CStringTerminated(t);
  }

  /** Under either reading, a one-byte selector: the string after it is
      converted from the fixed table the selector names. */
  lemma XmlifyFixedField(rd: Reading, stray: (Byte, Byte), t: seq<Byte>, d: string, convert: Converter)
    requires forall i :: 0 <= i < |t| ==> t[i] != 0
    ensures XmlifyText(rd, stray, [0x05] + t + [0], d, convert) == Escape(Convert(convert, "ISO-8859-9", t))
  {
    var s := [0x05] + t + [0];
    assert Decimal(9) == "9";
    assert Select(s, d) == Charset("ISO-8859-9", 1);
    assert s[1..] == t + [0];
    CStringTerminated(t);
  }

  /** xmlify with its static state: the charset the converter was last
      opened for, the open converter, and the 10240-byte result buffer. */
  class Xmlifier {
    const defaultCharset: string
    var csOld: string
    var cd: Option<string>
    var opens: nat
    const result: array<char>

    ghost predicate Valid() reads this
    {
      result.Length == 10240 && (cd.Some? ==> cd.value == csOld)
    }

    constructor (defaultCharset: string)
      ensures Valid() && fresh(result)
      ensures this.defaultCharset == defaultCharset && csOld == "" && cd.None? && opens == 0
    {
      this.defaultCharset := defaultCharset;
      csOld := "";
      cd := None;
      opens := 0;
      result := new char[10240];
    }

    /** Returns the escaped text and the code units logged as illegal. The
        converter is reopened exactly when the charset differs from cs_old. */
    method Xmlify(rd: Reading, stray: (Byte, Byte), s: seq<Byte>, convert: Converter) returns (out: string, illegal: seq<Ucs2>)
      requires Valid()
      modifies this, result
      ensures Valid()
      ensures out == XmlifyText(rd, stray, s, defaultCharset, convert)
      ensures var sel := SelectIn(rd, s, stray, defaultCharset);
        (sel.Reserved? ==> illegal == [] && csOld == old(csOld) && cd == old(cd) && opens == old(opens)) &&
        (sel.Charset? ==>
          csOld == sel.name &&
          illegal == IllegalUnits(Convert(convert, sel.name, Text(s, sel.advance))) &&
          (old(csOld) == sel.name ==> cd == old(cd) && opens == old(opens)) &&
          (old(csOld) != sel.name ==> cd == Some(sel.name) && opens == old(opens) + 1))
    {
      var sel := SelectIn(rd, s, stray, defaultCharset);
      if sel.Reserved? {
        return "", [];
      }
      if csOld != sel.name {
        cd := Some(sel.name);
        opens := opens + 1;
        csOld := sel.name;
      }
      var units := Convert(convert, sel.name, Text(s, sel.advance));
      out, illegal := EscapeInto(units);
    }

    /** The escaping loop: writes the text of every code unit through the
        cursor r and collects the units logged as illegal. */
    method EscapeInto(units: seq<Ucs2>) returns (out: string, illegal: seq<Ucs2>)
      requires Valid() && |units| <= 1024
      modifies result
      ensures out == Escape(units) && illegal == IllegalUnits(units)
    {
      var r: nat, k: nat := 0, 0;
      illegal := [];
      while k < |units|
        invariant 0 <= k <= |units| && r <= 8 * k
        invariant result[..r] == Escape(units[..k])
        invariant illegal == IllegalUnits(units[..k])
      {
        r, illegal := EscapeStep(r, illegal, units, k);
        k := k + 1;
      }
      assert units[..k] == units;
      out := result[..r];
    }

    /** One pass of the escaping loop: the text of units[k] follows the text
        of the units before it, and an illegal unit is logged. */
    method EscapeStep(r0: nat, illegal0: seq<Ucs2>, units: seq<Ucs2>, k: nat) returns (r: nat, illegal: seq<Ucs2>)
      requires Valid() && k < |units| <= 1024 && r0 <= 8 * k
      requires result[..r0] == Escape(units[..k]) && illegal0 == IllegalUnits(units[..k])
      modifies result
      ensures r <= 8 * (k + 1) && result[..r] == Escape(units[..k + 1])
      ensures illegal == IllegalUnits(units[..k + 1])
    {
      var i := units[k];
      r := PutUnit(r0, i);
      assert units[..k + 1] == units[..k] + [i];
      EscapeSnoc(units[..k], i);
      IllegalSnoc(units[..k], i);
      illegal := illegal0;
      if Illegal(i) {
        illegal := illegal + [i];
      }
    }

    /** One case of the escaping switch, written through the cursor r. */
    method PutUnit(r0: nat, i: Ucs2) returns (r: nat)
      requires Valid() && r0 + 8 <= result.Length
      modifies result
      ensures r == r0 + |EscapeUnit(i)|
      ensures result[..r] == old(result[..r0]) + EscapeUnit(i)
    {
      if PassThrough(i) {
        result[r0] := i as char;
        r := r0 + 1;
      } else if i == 0x26 {
        r := Put(r0, "&amp;");
      } else if i == 0x3C {
        r := Put(r0, "&lt;");
      } else if i == 0x3E {
        r := Put(r0, "&gt;");
      } else {
        r := PutHex(r0, i);
      }
    }

    /** The default case: "&#x", the hexadecimal digits, then ";". */
    method PutHex(r0: nat, i: Ucs2) returns (r: nat)
      requires r0 + 8 <= result.Length
      modifies result
      ensures r == r0 + |"&#x" + HexRef(i) + ";"|
      ensures result[..r] == old(result[..r0]) + "&#x" + HexRef(i) + ";"
    {
      ghost var before := result[..r0];
      r := Put(r0, "&#x");
      ghost var r1 := r;
      r := PutNibbles(r, i);
      ghost var r2 := r;
      assert result[..r2] == before + "&#x" + HexRef(i);
      r := Put(r, ";");
    }

    /** The nibbles the masks 0xF000, 0xFF00 and 0xFFF0 let through, then the
        last nibble. */
    method PutNibbles(r0: nat, i: Ucs2) returns (r: nat)
      requires r0 + 4 <= result.Length
      modifies result
      ensures r == r0 + |HexRef(i)|
      ensures result[..r] == old(result[..r0]) + HexRef(i)
    {
      HexRefNibbles(i);
      ghost var d1: string := if i >= 0x1000 then [HexDigit(i / 0x1000 % 16, true)] else [];
      ghost var d2: string := if i >= 0x100 then [HexDigit(i / 0x100 % 16, true)] else [];
      ghost var d3: string := if i >= 0x10 then [HexDigit(i / 0x10 % 16, true)] else [];
      ghost var d4: string := [HexDigit(i % 16, true)];
      r := r0;
      if i >= 0x1000 { r := Put(r, [HexDigit(i / 0x1000 % 16, true)]); }
      assert result[..r] == old(result[..r0]) + d1;
      if i >= 0x100 { r := Put(r, [HexDigit(i / 0x100 % 16, true)]); }
      assert result[..r] == old(result[..r0]) + d1 + d2;
      if i >= 0x10 { r := Put(r, [HexDigit(i / 0x10 % 16, true)]); }
      assert result[..r] == old(result[..r0]) + d1 + d2 + d3;
      r := Put(r, [HexDigit(i % 16, true)]);
      assert HexRef(i) == d1 + d2 + d3 + d4;
    }

    /** Writes the characters of an entity one at a time. */
    method Put(r0: nat, piece: string) returns (r: nat)
      requires r0 + |piece| <= result.Length
      modifies result
      ensures r == r0 + |piece|
      ensures result[..r] == old(result[..r0]) + piece
    {
      r := r0;
      var k := 0;
      while k < |piece|
        invariant 0 <= k <= |piece| && r == r0 + k
        invariant result[..r] == old(result[..r0]) + piece[..k]
      {
        result[r] := piece[k];
        r, k := r + 1, k + 1;
      }
    }
  }

  /** The digits the switch writes for the nibbles (i >> 12, i >> 8, i >> 4, i)
      that the masks 0xF000, 0xFF00 and 0xFFF0 let through are HexRef(i). */
  lemma HexRefNibbles(i: Ucs2)
    ensures HexRef(i) ==
      (if i >= 0x1000 then [HexDigit(i / 0x1000 % 16, true)] else []) +
      (if i >= 0x100 then [HexDigit(i / 0x100 % 16, true)] else []) +
      (if i >= 0x10 then [HexDigit(i / 0x10 % 16, true)] else []) + [HexDigit(i % 16, true)]
  {
    var q1, q2, q3 := i / 16, i / 16 / 16, i / 16 / 16 / 16;
    assert q2 == i / 0x100 && q3 == i / 0x1000;
    if i >= 0x10 {
      assert HexRef(i) == HexRef(q1) + [HexDigit(i % 16, true)];
      if i >= 0x100 {
        assert HexRef(q1) == HexRef(q2) + [HexDigit(q1 % 16, true)];
        if i >= 0x1000 {
          assert HexRef(q2) == HexRef(q3) + [HexDigit(q2 % 16, true)];
          assert HexRef(q3) == [HexDigit(q3 % 16, true)];
        }
      }
    }
  }
}
