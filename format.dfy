// The printf conversions the SI pipeline uses to build identifiers:
// %x, %04x, %d and %02d.
module Format {
  /** The digit of value k: 0-9, then a-f (or A-F when upper). */
  function HexDigit(k: nat, upper: bool): (c: char)
    requires k < 16
    ensures DigitValue(c) == k
  {
    if k < 10 then ('0' as int + k) as char
    else if upper then ('A' as int + k - 10) as char
    else ('a' as int + k - 10) as char
  }

  predicate IsLowerHexDigit(c: char) { '0' <= c <= '9' || 'a' <= c <= 'f' }

  predicate IsDecDigit(c: char) { '0' <= c <= '9' }

  /** Value of one hexadecimal digit (either case); 0 for anything else. */
  function DigitValue(c: char): (v: nat)
    ensures v < 16
  {
    if '0' <= c <= '9' then c as int - '0' as int
    else if 'a' <= c <= 'f' then c as int - 'a' as int + 10
    else if 'A' <= c <= 'F' then c as int - 'A' as int + 10
    else 0
  }

  /** Value of a string of hexadecimal digits, most significant first. */
  function HexValue(s: string): nat
  {
    if s == [] then 0 else HexValue(s[..|s| - 1]) * 16 + DigitValue(s[|s| - 1])
  }

  /** printf's %x of a non-negative value: no leading zeros, "0" for 0. */
  function HexDigits(n: nat): (r: string)
    ensures 1 <= |r|
    ensures forall i :: 0 <= i < |r| ==> IsLowerHexDigit(r[i])
    ensures n >= 16 ==> r[0] != '0'
    ensures n < 16 ==> |r| == 1
    decreases n
  {
    if n < 16 then [HexDigit(n, false)] else HexDigits(n / 16) + [HexDigit(n % 16, false)]
  }

  lemma {:induction false} HexDigitsRoundTrip(n: nat)
    ensures HexValue(HexDigits(n)) == n
    decreases n
  {
    if n >= 16 {
      HexDigitsRoundTrip(n / 16);
      var s := HexDigits(n);
      assert s[..|s| - 1] == HexDigits(n / 16);
    }
  }

  /** k zero digits. */
  function Zeros(k: nat): (r: string)
    ensures |r| == k
  {
    if k == 0 then [] else ['0'] + Zeros(k - 1)
  }

  /** Left-pads with '0' to at least w characters (printf's 0 flag). */
  function ZeroPad(s: string, w: nat): (r: string)
    ensures |r| == if |s| >= w then |s| else w
  {
    if |s| >= w then s else Zeros(w - |s|) + s
  }

  lemma {:induction false} LeadingZeroHasNoValue(s: string)
    ensures HexValue(['0'] + s) == HexValue(s)
    decreases |s|
  {
    if s != [] {
      var t := ['0'] + s;
      assert t[..|t| - 1] == ['0'] + s[..|s| - 1];
      LeadingZeroHasNoValue(s[..|s| - 1]);
    }
  }

  lemma {:induction false} LeadingZerosHaveNoValue(k: nat, s: string)
    ensures HexValue(Zeros(k) + s) == HexValue(s)
  {
    if k > 0 {
      LeadingZerosHaveNoValue(k - 1, s);
      assert Zeros(k) == ['0'] + Zeros(k - 1);
      assert Zeros(k) + s == ['0'] + (Zeros(k - 1) + s);
      LeadingZeroHasNoValue(Zeros(k - 1) + s);
    } else {
      assert Zeros(k) + s == s;
    }
  }

  lemma ZeroPadKeepsValue(s: string, w: nat)
    ensures HexValue(ZeroPad(s, w)) == HexValue(s)
  {
    if |s| < w {
      LeadingZerosHaveNoValue(w - |s|, s);
    }
  }

  /** printf's %04x. */
  function Hex04(n: nat): string
  {
    ZeroPad(HexDigits(n), 4)
  }

  /** %04x is read back as the number it prints, and takes four digits below 0x10000. */
  lemma Hex04RoundTrip(n: nat)
    ensures HexValue(Hex04(n)) == n
    ensures n < 0x1_0000 ==> |Hex04(n)| == 4
  {
    HexDigitsRoundTrip(n);
    ZeroPadKeepsValue(HexDigits(n), 4);
    if n < 0x1_0000 {
      Hex04Short(n);
    }
  }

  lemma {:induction false} Hex04Short(n: nat)
    requires n < 0x1_0000
    ensures |HexDigits(n)| <= 4
  {
    if n >= 16 {
      assert |HexDigits(n)| == |HexDigits(n / 16)| + 1;
      if n / 16 >= 16 {
        assert |HexDigits(n / 16)| == |HexDigits(n / 256)| + 1;
        if n / 256 >= 16 {
          assert |HexDigits(n / 256)| == |HexDigits(n / 4096)| + 1;
        }
      }
    }
  }

  lemma Hex04Injective(a: nat, b: nat)
    requires Hex04(a) == Hex04(b)
    ensures a == b
  {
    Hex04RoundTrip(a);
    Hex04RoundTrip(b);
  }

  /** Value of a string of decimal digits. */
  function DecValue(s: string): nat
  {
    if s == [] then 0
    else DecValue(s[..|s| - 1]) * 10 + (if IsDecDigit(s[|s| - 1]) then s[|s| - 1] as int - '0' as int else 0)
  }

  /** Decimal digits of a non-negative value, no leading zeros. */
  function DecDigits(n: nat): (r: string)
    ensures 1 <= |r|
    ensures forall i :: 0 <= i < |r| ==> IsDecDigit(r[i])
    decreases n
  {
    if n < 10 then [HexDigit(n, false)] else DecDigits(n / 10) + [HexDigit(n % 10, false)]
  }

  lemma {:induction false} DecDigitsRoundTrip(n: nat)
    ensures DecValue(DecDigits(n)) == n
    decreases n
  {
    if n >= 10 {
      DecDigitsRoundTrip(n / 10);
      var s := DecDigits(n);
      assert s[..|s| - 1] == DecDigits(n / 10);
    }
  }

  /** printf's %d. */
  function Decimal(n: int): (r: string)
    ensures |r| >= 1
    ensures n >= 0 ==> DecValue(r) == n
    ensures n < 0 <==> r[0] == '-'
  {
    DecDigitsRoundTrip(if n < 0 then -n else n);
    if n < 0 then "-" + DecDigits(-n) else DecDigits(n)
  }

  /** printf's %02d for a non-negative value. */
  function Dec02(n: nat): (r: string)
    ensures |r| >= 2
  {
    var d := DecDigits(n);
    if |d| >= 2 then d else "0" + d
  }

  /** printf's %x of a C int: negative values print as their 32-bit two's complement. */
  function HexInt(n: int): string
  {
    if n >= 0 then HexDigits(n) else HexDigits((n % 0x1_0000_0000) as nat)
  }

  /** The first n characters (strncpy/snprintf into a buffer of n). */
  function Take<T>(s: seq<T>, n: nat): (r: seq<T>)
    ensures |r| <= n && r <= s
    ensures |s| <= n ==> r == s
  {
    if |s| <= n then s else s[..n]
  }
}
