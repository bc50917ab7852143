// dvb/gentables.c: the bit-field splitter behind the generated section and
// descriptor headers. A field set collects struct members of at most one
// octet each; a field wider than what is left of the current octet is split
// into pieces, and a table is written with every run of sub-octet members
// repeated in reverse order for little-endian hosts.
module GenTables {
  import opened Wrappers
  import opened Format

  /** One member of a generated struct: its C type, its name and its width. */
  datatype Field = Field(ctype: string, ident: string, bits: nat)

  /** The lines write_table writes for a table. */
  datatype Line =
    | Typedef(name: string)
    | Open(name: string)
    | Member(field: Field)
    | IfBigEndian
    | Else
    | Endif
    | Close

  /** The text of a line, as fprintf writes it. */
  function Text(l: Line): string
  {
    match l
    case Typedef(n) => "typedef struct " + n + "_s " + n + "_t;\n\n"
    case Open(n) => "struct " + n + "_s\n{\n"
    case Member(f) =>
      if f.bits == 8 then "\tuint8_t " + f.ident + ";\n"
      else "\tuint8_t " + f.ident + ":" + DecDigits(f.bits) + ";\n"
    case IfBigEndian => "#if BYTE_ORDER == BIG_ENDIAN\n"
    case Else => "#else\n"
    case Endif => "#endif\n"
    case Close => "} PACKED_STRUCT;\n\n"
  }

  /** Total width in bits of a sequence of fields. */
  function Width(fs: seq<Field>): nat
  {
    if fs == [] then 0 else fs[0].bits + Width(fs[1..])
  }

  lemma {:induction false} WidthConcat(a: seq<Field>, b: seq<Field>)
    ensures Width(a + b) == Width(a) + Width(b)
  {
    if a != [] {
      assert (a + b)[0] == a[0] && (a + b)[1..] == a[1..] + b;
      WidthConcat(a[1..], b);
    } else {
      assert a + b == b;
    }
  }

  lemma WidthAppend(fs: seq<Field>, f: Field)
    ensures Width(fs + [f]) == Width(fs) + f.bits
  {
    WidthConcat(fs, [f]);
    assert [f][1..] == [];
  }

  lemma Shift(a: seq<Field>, f: Field, rest: seq<Field>)
    ensures a + ([f] + rest) == (a + [f]) + rest
  {
  }

  // ---- add_field: the name of a new field ----

  /** Some field of the set already has this name. */
  predicate Used(fs: seq<Field>, id: string)
  {
    exists i :: 0 <= i < |fs| && fs[i].ident == id
  }

  /** The c-th name tried for a field: the name itself, then name__1, name__2, ... */
  function Candidate(ident: string, c: nat): string
  {
    if c == 0 then ident else ident + "__" + DecDigits(c)
  }

  /** Different attempts give different names. */
  lemma CandidateInjective(ident: string, c: nat, d: nat)
    requires Candidate(ident, c) == Candidate(ident, d)
    ensures c == d
  {
    if c != 0 && d != 0 {
      var k := |ident| + 2;
      assert Candidate(ident, c)[k..] == DecDigits(c);
      assert Candidate(ident, d)[k..] == DecDigits(d);
      DecDigitsRoundTrip(c);
      DecDigitsRoundTrip(d);
    }
  }

  function Names(fs: seq<Field>): set<string>
  {
    set i | 0 <= i < |fs| :: fs[i].ident
  }

  lemma {:induction false} NamesBound(fs: seq<Field>)
    ensures |Names(fs)| <= |fs|
  {
    if fs != [] {
      var init := fs[..|fs| - 1];
      NamesBound(init);
      assert Names(fs) == Names(init) + {fs[|fs| - 1].ident} by {
        forall x | x in Names(fs) ensures x in Names(init) + {fs[|fs| - 1].ident} {
          var i :| 0 <= i < |fs| && fs[i].ident == x;
          if i < |fs| - 1 {
            assert init[i] == fs[i];
          }
        }
        forall x | x in Names(init) ensures x in Names(fs) {
          var i :| 0 <= i < |init| && init[i].ident == x;
          assert fs[i] == init[i];
        }
      }
    }
  }

  function Tried(ident: string, n: nat): set<string>
  {
    set c | 0 <= c < n :: Candidate(ident, c)
  }

  lemma {:induction false} TriedCount(ident: string, n: nat)
    ensures |Tried(ident, n)| == n
  {
    if n > 0 {
      TriedCount(ident, n - 1);
      assert Tried(ident, n) == Tried(ident, n - 1) + {Candidate(ident, n - 1)};
      if Candidate(ident, n - 1) in Tried(ident, n - 1) {
        var c :| 0 <= c < n - 1 && Candidate(ident, c) == Candidate(ident, n - 1);
        CandidateInjective(ident, c, n - 1);
      }
    }
  }

  /** A set of fields cannot hold more taken names than it has fields: if the
      first n attempts are all taken, n is at most the number of fields. */
  lemma Pigeonhole(fs: seq<Field>, ident: string, n: nat)
    requires forall c :: 0 <= c < n ==> Used(fs, Candidate(ident, c))
    ensures n <= |fs|
  {
    assert Tried(ident, n) <= Names(fs) by {
      forall x | x in Tried(ident, n) ensures x in Names(fs) {
        var c :| 0 <= c < n && Candidate(ident, c) == x;
        assert Used(fs, Candidate(ident, c));
        var i :| 0 <= i < |fs| && fs[i].ident == x;
      }
    }
    TriedCount(ident, n);
    NamesBound(fs);
    SubsetCard(Tried(ident, n), Names(fs));
  }

  lemma SubsetCard<T>(a: set<T>, b: set<T>)
    requires a <= b
    ensures |a| <= |b|
  {
    assert b == a + (b - a);
  }

  /** The first attempt from c on whose name no field has, when all the
      attempts before c are taken: the smallest free suffix. */
  function FirstFree(fs: seq<Field>, ident: string, c: nat): (r: nat)
    requires forall d :: 0 <= d < c ==> Used(fs, Candidate(ident, d))
    ensures c <= r <= |fs|
    ensures !Used(fs, Candidate(ident, r))
    ensures forall d :: 0 <= d < r ==> Used(fs, Candidate(ident, d))
    decreases |fs| - c
  {
    Pigeonhole(fs, ident, c);
    if !Used(fs, Candidate(ident, c)) then c
    else
      Pigeonhole(fs, ident, c + 1);
      FirstFree(fs, ident, c + 1)
  }

  lemma FirstFreeUnique(fs: seq<Field>, ident: string, c: nat)
    requires !Used(fs, Candidate(ident, c))
    requires forall d :: 0 <= d < c ==> Used(fs, Candidate(ident, d))
    ensures c == FirstFree(fs, ident, 0)
  {
    var r := FirstFree(fs, ident, 0);
  }

  // ---- add_field: the pieces of a new field ----

  /** A width of 0 means a whole octet. */
  function Declared(bits: nat): (w: nat)
    ensures w >= 1
  {
    if bits == 0 then 8 else bits
  }

  /** The bits still free in the current octet once nbits are laid out. */
  function Room(nbits: nat): (r: nat)
    ensures 1 <= r <= 8
  {
    8 - nbits % 8
  }

  /** Filling the room left in an octet ends on an octet boundary. */
  lemma FillOctet(nbits: nat)
    ensures (nbits + Room(nbits)) % 8 == 0
  {
    assert nbits + Room(nbits) == 8 * (nbits / 8 + 1);
  }

  /** The number of entries add_field allocates for a field of the given
      width when room bits are free in the current octet. */
  function PieceCount(bits: nat, room: nat): nat
  {
    if bits > room then 1 + (bits - room) / 8 + (if (bits - room) % 8 != 0 then 1 else 0) else 1
  }

  lemma PieceCountStep(bits: nat, room: nat)
    requires 1 <= room < bits
    ensures PieceCount(bits, room) >= 2
    ensures PieceCount(bits, room) - 1 == PieceCount(bits - room, 8)
  {
    var x := bits - room;
    if x > 8 {
      assert (x - 8) / 8 == x / 8 - 1 && (x - 8) % 8 == x % 8;
    }
  }

  /** The name of a piece: _hi and _lo for a field in two pieces, the piece's
      countdown number otherwise. */
  function PieceName(id: string, k: nat, hilo: bool): string
    requires hilo ==> k < 2
  {
    id + "_" + (if hilo then ["lo", "hi"][k] else DecDigits(k))
  }

  /** The pieces from the one numbered k down to 0: a piece that fits in
      the room left in the octet ends the field, otherwise a piece fills the
      room and the rest starts the next octet. */
  function Split(ctype: string, id: string, bits: nat, room: nat, k: nat, hilo: bool): seq<Field>
    requires 1 <= room <= 8
    requires k + 1 == PieceCount(bits, room)
    requires hilo ==> k < 2
    decreases bits
  {
    if bits <= room then [Field(ctype, PieceName(id, k, hilo), bits)]
    else
      PieceCountStep(bits, room);
      [Field(ctype, PieceName(id, k, hilo), room)] + Split(ctype, id, bits - room, 8, k - 1, hilo)
  }

  /** The fields add_field appends for a field of the given width under the
      name id, with nbits already laid out. */
  function Pieces(ctype: string, id: string, bits: nat, nbits: nat): seq<Field>
  {
    var w, room := Declared(bits), Room(nbits);
    if w <= room then [Field(ctype, id, w)]
    else Split(ctype, id, w, room, PieceCount(w, room) - 1, PieceCount(w, room) == 2)
  }

  lemma SplitStep(ctype: string, id: string, bits: nat, room: nat, k: nat, hilo: bool)
    requires 1 <= room < bits && room <= 8
    requires k + 1 == PieceCount(bits, room)
    requires hilo ==> k < 2
    ensures PieceCount(bits, room) >= 2 && k - 1 + 1 == PieceCount(bits - room, 8)
    ensures Split(ctype, id, bits, room, k, hilo) ==
      [Field(ctype, PieceName(id, k, hilo), room)] + Split(ctype, id, bits - room, 8, k - 1, hilo)
  {
    PieceCountStep(bits, room);
  }

  lemma PiecesCases(ctype: string, id: string, bits: nat, nbits: nat)
    ensures var w, room := Declared(bits), Room(nbits);
      Pieces(ctype, id, bits, nbits) ==
        if w <= room then [Field(ctype, id, w)]
        else Split(ctype, id, w, room, PieceCount(w, room) - 1, PieceCount(w, room) == 2)
  {
  }

  lemma {:induction false} SplitShape(ctype: string, id: string, bits: nat, room: nat, k: nat, hilo: bool)
    requires 1 <= room <= 8
    requires k + 1 == PieceCount(bits, room)
    requires hilo ==> k < 2
    ensures var ps := Split(ctype, id, bits, room, k, hilo);
      && Width(ps) == bits
      && |ps| == k + 1
      && forall j :: 0 <= j < |ps| ==> ps[j] == Field(ctype, PieceName(id, k - j, hilo), ps[j].bits)
    decreases bits
  {
    if bits > room {
      PieceCountStep(bits, room);
      var ps := Split(ctype, id, bits, room, k, hilo);
      var rest := Split(ctype, id, bits - room, 8, k - 1, hilo);
      SplitShape(ctype, id, bits - room, 8, k - 1, hilo);
      assert ps[1..] == rest;
      forall j | 1 <= j < |ps| ensures ps[j] == Field(ctype, PieceName(id, k - j, hilo), ps[j].bits) {
        assert ps[j] == rest[j - 1];
      }
    }
  }

  /** The pieces add up to the declared width, and there are exactly as many
      as add_field allocates. */
  lemma PiecesWidth(ctype: string, id: string, bits: nat, nbits: nat)
    ensures Width(Pieces(ctype, id, bits, nbits)) == Declared(bits)
    ensures |Pieces(ctype, id, bits, nbits)| == PieceCount(Declared(bits), Room(nbits))
  {
    var w, room := Declared(bits), Room(nbits);
    if w > room {
      SplitShape(ctype, id, w, room, PieceCount(w, room) - 1, PieceCount(w, room) == 2);
    }
  }

  /** A field that fits the current octet keeps its name; one in two pieces
      becomes id_hi then id_lo; a longer one id_N down to id_0. Every piece
      has the field's type. */
  lemma PiecesNames(ctype: string, id: string, bits: nat, nbits: nat)
    ensures var ps := Pieces(ctype, id, bits, nbits);
      && (|ps| == 1 ==> ps[0].ident == id)
      && (|ps| == 2 ==> ps[0].ident == id + "_hi" && ps[1].ident == id + "_lo")
      && (|ps| > 2 ==> forall j :: 0 <= j < |ps| ==> ps[j].ident == id + "_" + DecDigits(|ps| - 1 - j))
      && forall j :: 0 <= j < |ps| ==> ps[j].ctype == ctype
  {
    var w, room := Declared(bits), Room(nbits);
    if w > room {
      var k := PieceCount(w, room) - 1;
      PieceCountStep(w, room);
      SplitShape(ctype, id, w, room, k, k + 1 == 2);
    }
  }

  /** The widths of the pieces: the first takes what the octet has left
      when the field does not fit in it, the ones after it whole octets, the
      last what remains (at most an octet). */
  lemma {:induction false} SplitWidths(ctype: string, id: string, bits: nat, room: nat, k: nat, hilo: bool)
    requires 1 <= room <= 8
    requires k + 1 == PieceCount(bits, room)
    requires hilo ==> k < 2
    ensures var ps := Split(ctype, id, bits, room, k, hilo);
      && (|ps| == 1 ==> ps[0].bits == bits <= room)
      && (|ps| > 1 ==> ps[0].bits == room && 1 <= ps[|ps| - 1].bits <= 8)
      && forall j :: 0 < j < |ps| - 1 ==> ps[j].bits == 8
    decreases bits
  {
    if bits > room {
      PieceCountStep(bits, room);
      var ps := Split(ctype, id, bits, room, k, hilo);
      var rest := Split(ctype, id, bits - room, 8, k - 1, hilo);
      SplitWidths(ctype, id, bits - room, 8, k - 1, hilo);
      assert ps[1..] == rest;
      forall j | 1 < j < |ps| - 1 ensures ps[j].bits == 8 {
        assert ps[j] == rest[j - 1];
      }
    }
  }

  /** Only the first piece may start inside an octet: the first piece of a
      field that does not fit fills the octet, the later ones are whole
      octets but the last, and a field kept whole fits where it starts. */
  lemma PiecesFit(ctype: string, id: string, bits: nat, nbits: nat)
    ensures var ps := Pieces(ctype, id, bits, nbits);
      && (|ps| == 1 ==> nbits % 8 + ps[0].bits <= 8)
      && (|ps| > 1 ==> (nbits + ps[0].bits) % 8 == 0 && 1 <= ps[|ps| - 1].bits <= 8)
      && forall j :: 0 < j < |ps| - 1 ==> ps[j].bits == 8
  {
    var w, room := Declared(bits), Room(nbits);
    if w > room {
      PieceCountStep(w, room);
      SplitWidths(ctype, id, w, room, PieceCount(w, room) - 1, PieceCount(w, room) == 2);
    }
  }

  /** Every field, laid out from bit `from` on, stays inside one octet. */
  predicate Fits(fs: seq<Field>, from: nat)
    decreases |fs|
  {
    fs == [] || (from % 8 + fs[0].bits <= 8 && Fits(fs[1..], from + fs[0].bits))
  }

  lemma {:induction false} SplitFits(ctype: string, id: string, bits: nat, room: nat, k: nat, hilo: bool, from: nat)
    requires 1 <= room <= 8 && room == Room(from)
    requires k + 1 == PieceCount(bits, room)
    requires hilo ==> k < 2
    ensures Fits(Split(ctype, id, bits, room, k, hilo), from)
    decreases bits
  {
    var ps := Split(ctype, id, bits, room, k, hilo);
    if bits > room {
      PieceCountStep(bits, room);
      SplitFits(ctype, id, bits - room, 8, k - 1, hilo, from + room);
      assert ps[1..] == Split(ctype, id, bits - room, 8, k - 1, hilo);
    } else {
      assert ps[1..] == [];
    }
  }

  /** The pieces of a field stay each inside one octet. */
  lemma PiecesStayInOctets(ctype: string, id: string, bits: nat, nbits: nat)
    ensures Fits(Pieces(ctype, id, bits, nbits), nbits)
  {
    var w, room := Declared(bits), Room(nbits);
    if w > room {
      PieceCountStep(w, room);
      SplitFits(ctype, id, w, room, PieceCount(w, room) - 1, PieceCount(w, room) == 2, nbits);
    } else {
      assert Pieces(ctype, id, bits, nbits)[1..] == [];
    }
  }

  /** Fields that fit after fields that fit still fit. */
  lemma {:induction false} FitsConcat(a: seq<Field>, b: seq<Field>, from: nat)
    requires Fits(a, from) && Fits(b, from + Width(a))
    ensures Fits(a + b, from)
    decreases |a|
  {
    if a == [] {
      assert a + b == b;
    } else {
      assert (a + b)[0] == a[0] && (a + b)[1..] == a[1..] + b;
      FitsConcat(a[1..], b, from + a[0].bits);
    }
  }

  // ---- write_table ----

  function Members(fs: seq<Field>): seq<Line>
  {
    if fs == [] then [] else [Member(fs[0])] + Members(fs[1..])
  }

  function Reversed(fs: seq<Field>): seq<Field>
  {
    if fs == [] then [] else Reversed(fs[1..]) + [fs[0]]
  }

  lemma {:induction false} MembersConcat(a: seq<Field>, b: seq<Field>)
    ensures Members(a + b) == Members(a) + Members(b)
  {
    if a != [] {
      assert (a + b)[0] == a[0] && (a + b)[1..] == a[1..] + b;
      MembersConcat(a[1..], b);
    } else {
      assert a + b == b;
    }
  }

  lemma {:induction false} ReversedPermutes(fs: seq<Field>)
    ensures multiset(Reversed(fs)) == multiset(fs)
  {
    if fs != [] {
      ReversedPermutes(fs[1..]);
      assert fs == [fs[0]] + fs[1..];
    }
  }

  /** A run closed on an octet boundary: its fields under the big-endian
      test, then the same fields in reverse order. */
  function RunLines(run: seq<Field>): seq<Line>
  {
    [IfBigEndian] + Members(run) + [Else] + Members(Reversed(run)) + [Endif]
  }

  /** The first n >= from whose first n fields end on an octet boundary. */
  function Closing(fs: seq<Field>, from: nat): (r: Option<nat>)
    requires 1 <= from
    ensures r.Some? ==> from <= r.value <= |fs| && Width(fs[..r.value]) % 8 == 0
    ensures forall m :: from <= m <= |fs| && (r.None? || m < r.value) ==> Width(fs[..m]) % 8 != 0
    decreases |fs| + 1 - from
  {
    if from > |fs| then None
    else if Width(fs[..from]) % 8 == 0 then Some(from)
    else Closing(fs, from + 1)
  }

  /** The struct body write_table writes for a set of fields: whole octets as
      they are; a run of sub-octet fields, from the first that is not 8 bits
      wide up to the first octet boundary, in order under the big-endian
      test and in reverse order after the #else; a run that never reaches a
      boundary leaves the #if open. */
  function Layout(fs: seq<Field>): seq<Line>
    decreases |fs|
  {
    if fs == [] then []
    else if fs[0].bits == 8 then [Member(fs[0])] + Layout(fs[1..])
    else
      match Closing(fs, 1)
      case None => [IfBigEndian] + Members(fs)
      case Some(n) => RunLines(fs[..n]) + Layout(fs[n..])
  }

  /** Fields ending on an octet boundary close the run they start with
      at the same place whatever follows them. */
  lemma ClosingPrefix(a: seq<Field>, b: seq<Field>)
    requires a != [] && Width(a) % 8 == 0
    ensures Closing(a, 1).Some? && Closing(a + b, 1) == Closing(a, 1)
  {
    var ab := a + b;
    assert a[..|a|] == a;
    var n := Closing(a, 1).value;
    assert ab[..n] == a[..n];
    var r := Closing(ab, 1);
    assert r.Some? && r.value <= n;
    assert ab[..r.value] == a[..r.value];
  }

  /** A whole octet first: its member, then the layout of the rest. */
  lemma LayoutOctet(a: seq<Field>, b: seq<Field>)
    requires a != [] && a[0].bits == 8
    ensures Layout(a + b) == [Member(a[0])] + Layout(a[1..] + b)
    ensures Layout(a) == [Member(a[0])] + Layout(a[1..])
    ensures Width(a[1..]) % 8 == Width(a) % 8
  {
    var ab := a + b;
    assert ab[0] == a[0] && ab[1..] == a[1..] + b;
    AlignedShift(8, Width(a[1..]), Width(a));
  }

  /** A run first, in fields ending on an octet boundary: it closes within
      them, at n, whatever follows. */
  lemma LayoutRun(a: seq<Field>, b: seq<Field>) returns (n: nat)
    requires a != [] && a[0].bits != 8 && Width(a) % 8 == 0
    ensures 1 <= n <= |a| && Width(a[..n]) % 8 == 0
    ensures Layout(a + b) == RunLines(a[..n]) + Layout(a[n..] + b)
    ensures Layout(a) == RunLines(a[..n]) + Layout(a[n..])
    ensures Width(a[n..]) % 8 == 0
  {
    var ab := a + b;
    assert ab[0] == a[0];
    ClosingPrefix(a, b);
    n := Closing(a, 1).value;
    assert Closing(ab, 1) == Some(n);
    assert ab != [] && ab[0].bits != 8;
    assert Layout(ab) == RunLines(ab[..n]) + Layout(ab[n..]);
    assert ab[..n] == a[..n];
    assert ab[n..] == a[n..] + b;
    assert a == a[..n] + a[n..];
    WidthConcat(a[..n], a[n..]);
    AlignedShift(Width(a[..n]), Width(a[n..]), Width(a));
  }

  /** Fields ending on an octet boundary close all their runs: the layout of
      what follows is written after theirs. */
  lemma {:induction false} LayoutConcat(a: seq<Field>, b: seq<Field>)
    requires Width(a) % 8 == 0
    ensures Layout(a + b) == Layout(a) + Layout(b)
    decreases |a|
  {
    if a == [] {
      assert a + b == b;
    } else if a[0].bits == 8 {
      LayoutOctet(a, b);
      LayoutConcat(a[1..], b);
      SeqAssoc([Member(a[0])], Layout(a[1..]), Layout(b));
    } else {
      var n := LayoutRun(a, b);
      LayoutConcat(a[n..], b);
      SeqAssoc(RunLines(a[..n]), Layout(a[n..]), Layout(b));
    }
  }

  lemma SeqAssoc<T>(x: seq<T>, y: seq<T>, z: seq<T>)
    ensures x + (y + z) == (x + y) + z
  {
  }

  /** Where the preprocessor is in the struct body. */
  datatype Branch = Outside | InIf | InElse

  /** The members the C preprocessor keeps from a struct body on a host of
      the given byte order. */
  function Compiled(ls: seq<Line>, big: bool, b: Branch): seq<Field>
  {
    if ls == [] then []
    else
      match ls[0]
      case IfBigEndian => Compiled(ls[1..], big, InIf)
      case Else => Compiled(ls[1..], big, InElse)
      case Endif => Compiled(ls[1..], big, Outside)
      case Member(f) =>
        (if b == Outside || (b == InIf) == big then [f] else []) + Compiled(ls[1..], big, b)
      case _ => Compiled(ls[1..], big, b)
  }

  function After(ls: seq<Line>, b: Branch): Branch
  {
    if ls == [] then b
    else
      match ls[0]
      case IfBigEndian => After(ls[1..], InIf)
      case Else => After(ls[1..], InElse)
      case Endif => After(ls[1..], Outside)
      case _ => After(ls[1..], b)
  }

  lemma {:induction false} CompiledConcat(x: seq<Line>, y: seq<Line>, big: bool, b: Branch)
    ensures Compiled(x + y, big, b) == Compiled(x, big, b) + Compiled(y, big, After(x, b))
  {
    if x != [] {
      assert (x + y)[0] == x[0];
      assert (x + y)[1..] == x[1..] + y;
      match x[0]
      case IfBigEndian => CompiledConcat(x[1..], y, big, InIf);
      case Else => CompiledConcat(x[1..], y, big, InElse);
      case Endif => CompiledConcat(x[1..], y, big, Outside);
      case Member(f) =>
        CompiledConcat(x[1..], y, big, b);
        var keep := if b == Outside || (b == InIf) == big then [f] else [];
        assert Compiled(x + y, big, b) == keep + Compiled(x[1..] + y, big, b);
        assert Compiled(x, big, b) == keep + Compiled(x[1..], big, b);
      case _ => CompiledConcat(x[1..], y, big, b);
    } else {
      assert x + y == y;
    }
  }

  lemma {:induction false} CompiledMembers(fs: seq<Field>, big: bool, b: Branch)
    ensures Compiled(Members(fs), big, b) == if b == Outside || (b == InIf) == big then fs else []
    ensures After(Members(fs), b) == b
  {
    if fs != [] {
      CompiledMembers(fs[1..], big, b);
      assert Members(fs) == [Member(fs[0])] + Members(fs[1..]);
      assert ([Member(fs[0])] + Members(fs[1..]))[1..] == Members(fs[1..]);
      assert fs == [fs[0]] + fs[1..];
    }
  }

  /** A preprocessor line keeps no member and moves to its branch. */
  lemma Marker(l: Line, big: bool, b: Branch)
    requires l.IfBigEndian? || l.Else? || l.Endif?
    ensures Compiled([l], big, b) == []
    ensures After([l], b) == if l.IfBigEndian? then InIf else if l.Else? then InElse else Outside
  {
    assert [l][1..] == [];
  }

  /** The run of sub-octet fields closing on a boundary, as each byte order compiles it. */
  lemma ClosedRun(run: seq<Field>, big: bool)
    ensures Compiled(RunLines(run), big, Outside) == (if big then run else Reversed(run))
    ensures After(RunLines(run), Outside) == Outside
  {
    var i, m, e, r, f := [IfBigEndian], Members(run), [Else], Members(Reversed(run)), [Endif];
    Marker(IfBigEndian, big, Outside);
    Marker(Else, big, InIf);
    Marker(Endif, big, InElse);
    CompiledMembers(run, big, InIf);
    CompiledMembers(Reversed(run), big, InElse);
    CompiledConcat(i, m, big, Outside);
    AfterConcat(i, m, Outside);
    CompiledConcat(i + m, e, big, Outside);
    AfterConcat(i + m, e, Outside);
    CompiledConcat(i + m + e, r, big, Outside);
    AfterConcat(i + m + e, r, Outside);
    CompiledConcat(i + m + e + r, f, big, Outside);
    AfterConcat(i + m + e + r, f, Outside);
  }

  lemma {:induction false} AfterConcat(x: seq<Line>, y: seq<Line>, b: Branch)
    ensures After(x + y, b) == After(y, After(x, b))
  {
    if x != [] {
      assert (x + y)[0] == x[0] && (x + y)[1..] == x[1..] + y;
      match x[0]
      case IfBigEndian => AfterConcat(x[1..], y, InIf);
      case Else => AfterConcat(x[1..], y, InElse);
      case Endif => AfterConcat(x[1..], y, Outside);
      case _ => AfterConcat(x[1..], y, b);
    } else {
      assert x + y == y;
    }
  }

  /** On a big-endian host the struct has the fields in the order they were
      added, whatever the runs. */
  lemma {:induction false} BigEndianOrder(fs: seq<Field>)
    ensures Compiled(Layout(fs), true, Outside) == fs
    decreases |fs|
  {
    if fs != [] {
      if fs[0].bits == 8 {
        BigEndianOrder(fs[1..]);
        CompiledConcat([Member(fs[0])], Layout(fs[1..]), true, Outside);
        assert fs == [fs[0]] + fs[1..];
      } else {
        match Closing(fs, 1)
        case None =>
          CompiledConcat([IfBigEndian], Members(fs), true, Outside);
          CompiledMembers(fs, true, InIf);
        case Some(n) =>
          ClosedRun(fs[..n], true);
          BigEndianOrder(fs[n..]);
          CompiledConcat(RunLines(fs[..n]), Layout(fs[n..]), true, Outside);
          assert fs == fs[..n] + fs[n..];
      }
    }
  }

  /** On a little-endian host a set of fields ending on an octet boundary
      compiles to the same fields, each closed run reversed. */
  lemma {:induction false} LittleEndianPermutes(fs: seq<Field>)
    requires Width(fs) % 8 == 0
    ensures multiset(Compiled(Layout(fs), false, Outside)) == multiset(fs)
    decreases |fs|
  {
    if fs != [] {
      if fs[0].bits == 8 {
        LayoutOctet(fs, []);
        LittleEndianPermutes(fs[1..]);
        LittleOctet(fs);
      } else {
        var n := LayoutRun(fs, []);
        LittleEndianPermutes(fs[n..]);
        LittleRun(fs, n);
      }
    }
  }

  /** A whole octet at the front compiles as it is on a little-endian host. */
  lemma LittleOctet(fs: seq<Field>)
    requires fs != [] && Layout(fs) == [Member(fs[0])] + Layout(fs[1..])
    requires multiset(Compiled(Layout(fs[1..]), false, Outside)) == multiset(fs[1..])
    ensures multiset(Compiled(Layout(fs), false, Outside)) == multiset(fs)
  {
    CompiledConcat([Member(fs[0])], Layout(fs[1..]), false, Outside);
    assert fs == [fs[0]] + fs[1..];
  }

  /** The closed run at the front compiles reversed on a little-endian host. */
  lemma LittleRun(fs: seq<Field>, n: nat)
    requires 1 <= n <= |fs| && Layout(fs) == RunLines(fs[..n]) + Layout(fs[n..])
    requires multiset(Compiled(Layout(fs[n..]), false, Outside)) == multiset(fs[n..])
    ensures multiset(Compiled(Layout(fs), false, Outside)) == multiset(fs)
  {
    var run, rest := fs[..n], fs[n..];
    ClosedRun(run, false);
    ReversedPermutes(run);
    CompiledConcat(RunLines(run), Layout(rest), false, Outside);
    assert fs == run + rest;
  }

  lemma RunWidth(fs: seq<Field>, done: nat, i: nat)
    requires done <= i < |fs|
    ensures Width(fs[..i + 1]) == Width(fs[..done]) + Width(fs[done..i + 1])
    ensures Width(fs[..i + 1]) == Width(fs[..i]) + fs[i].bits
  {
    assert fs[..i + 1] == fs[..done] + fs[done..i + 1];
    WidthConcat(fs[..done], fs[done..i + 1]);
    assert fs[..i + 1] == fs[..i] + [fs[i]];
    WidthConcat(fs[..i], [fs[i]]);
  }

  /** A whole octet outside a run is written as it is. */
  lemma Octet(fs: seq<Field>, i: nat)
    requires i < |fs| && fs[i].bits == 8 && Width(fs[..i]) % 8 == 0
    ensures Layout(fs[..i + 1]) == Layout(fs[..i]) + [Member(fs[i])]
    ensures Width(fs[..i + 1]) % 8 == 0
  {
    assert fs[..i + 1] == fs[..i] + [fs[i]];
    LayoutConcat(fs[..i], [fs[i]]);
    WidthConcat(fs[..i], [fs[i]]);
    assert [fs[i]][1..] == [];
  }

  /** A run that reaches an octet boundary at field i. */
  lemma RunClosed(fs: seq<Field>, start: nat, i: nat)
    requires start <= i < |fs| && fs[start].bits != 8
    requires forall m :: start < m <= i ==> Width(fs[start..m]) % 8 != 0
    requires Width(fs[start..i + 1]) % 8 == 0
    ensures Layout(fs[start..i + 1]) == RunLines(fs[start..i + 1])
  {
    var run := fs[start..i + 1];
    forall m | 1 <= m < |run| ensures Width(run[..m]) % 8 != 0 {
      assert run[..m] == fs[start..start + m];
    }
    assert run[..|run|] == run;
    assert Closing(run, 1) == Some(|run|);
    assert run[|run|..] == [];
  }

  /** A run still open after the last field. */
  lemma RunOpen(fs: seq<Field>, start: nat)
    requires start < |fs| && fs[start].bits != 8
    requires forall m :: start < m <= |fs| ==> Width(fs[start..m]) % 8 != 0
    ensures Layout(fs[start..]) == [IfBigEndian] + Members(fs[start..])
  {
    var run := fs[start..];
    forall m | 1 <= m <= |run| ensures Width(run[..m]) % 8 != 0 {
      assert run[..m] == fs[start..start + m];
    }
    assert Closing(run, 1) == None;
  }

  /** Where write_table's loop stands after i fields: the fields before
      done are laid out, and when a run is open it started at start. */
  ghost predicate Writing(fs: seq<Field>, i: nat, nbits: nat, start: nat, insec: bool, done: nat, body: seq<Line>)
  {
    && done <= i <= |fs| && start <= i
    && nbits == Width(fs[..i]) && Width(fs[..done]) % 8 == 0
    && (!insec ==> done == i)
    && (insec ==>
         && done == start < i && fs[start].bits != 8
         && forall m :: start < m <= i ==> Width(fs[start..m]) % 8 != 0)
    && body == Layout(fs[..done]) + (if insec then [IfBigEndian] + Members(fs[start..i]) else [])
  }

  lemma WriteOctet(fs: seq<Field>, i: nat, nbits: nat, start: nat, done: nat, body: seq<Line>, nbits': nat)
    requires Writing(fs, i, nbits, start, false, done, body) && i < |fs| && fs[i].bits == 8
    requires nbits' == nbits + fs[i].bits
    ensures Writing(fs, i + 1, nbits', start, false, i + 1, body + [Member(fs[i])])
  {
    RunWidth(fs, done, i);
    Octet(fs, i);
  }

  lemma AlignedShift(a: nat, b: nat, c: nat)
    requires a % 8 == 0 && c == a + b
    ensures c % 8 == b % 8
  {
  }

  /** Field i joins the run starting at start', which it opens when no run
      is open. */
  lemma RunExtends(fs: seq<Field>, i: nat, nbits: nat, start: nat, insec: bool, done: nat, body: seq<Line>,
                   start': nat)
    requires Writing(fs, i, nbits, start, insec, done, body) && i < |fs|
    requires insec ==> start' == start
    requires !insec ==> start' == i && fs[i].bits != 8
    ensures done == start' <= i && fs[start'].bits != 8
    ensures Width(fs[..i + 1]) == nbits + fs[i].bits
    ensures Width(fs[start'..i + 1]) % 8 == (nbits + fs[i].bits) % 8
    ensures forall m :: start' < m <= i ==> Width(fs[start'..m]) % 8 != 0
    ensures (if insec then body else body + [IfBigEndian]) + [Member(fs[i])]
         == Layout(fs[..start']) + ([IfBigEndian] + Members(fs[start'..i + 1]))
         == Layout(fs[..start']) + [IfBigEndian] + Members(fs[start'..i + 1])
  {
    RunWidth(fs, done, i);
    AlignedShift(Width(fs[..done]), Width(fs[done..i + 1]), nbits + fs[i].bits);
    RunMembers(fs, i, nbits, start, insec, done, body, start');
  }

  lemma RunMembers(fs: seq<Field>, i: nat, nbits: nat, start: nat, insec: bool, done: nat, body: seq<Line>,
                   start': nat)
    requires Writing(fs, i, nbits, start, insec, done, body) && i < |fs|
    requires insec ==> start' == start
    requires !insec ==> start' == i && fs[i].bits != 8
    ensures (if insec then body else body + [IfBigEndian]) + [Member(fs[i])]
         == Layout(fs[..start']) + ([IfBigEndian] + Members(fs[start'..i + 1]))
         == Layout(fs[..start']) + [IfBigEndian] + Members(fs[start'..i + 1])
  {
    assert fs[start'..i] + [fs[i]] == fs[start'..i + 1];
    MembersConcat(fs[start'..i], [fs[i]]);
    if !insec {
      assert fs[start'..i] == [];
    }
  }

  lemma WriteRun(fs: seq<Field>, i: nat, nbits: nat, start: nat, insec: bool, done: nat, body: seq<Line>,
                 start': nat, begun: seq<Line>, nbits': nat)
    requires Writing(fs, i, nbits, start, insec, done, body) && i < |fs|
    requires insec ==> start' == start
    requires !insec ==> start' == i && fs[i].bits != 8
    requires begun == (if insec then body else body + [IfBigEndian])
    requires nbits' == nbits + fs[i].bits && nbits' % 8 != 0
    ensures Writing(fs, i + 1, nbits', start', true, done, begun + [Member(fs[i])])
  {
    RunExtends(fs, i, nbits, start, insec, done, body, start');
  }

  lemma WriteClose(fs: seq<Field>, i: nat, nbits: nat, start: nat, insec: bool, done: nat, body: seq<Line>,
                   start': nat, begun: seq<Line>, nbits': nat)
    requires Writing(fs, i, nbits, start, insec, done, body) && i < |fs|
    requires insec ==> start' == start
    requires !insec ==> start' == i && fs[i].bits != 8
    requires begun == (if insec then body else body + [IfBigEndian])
    requires nbits' == nbits + fs[i].bits && nbits' % 8 == 0
    ensures Writing(fs, i + 1, nbits', start', false, i + 1,
                    begun + [Member(fs[i])] + [Else] + Members(Reversed(fs[start'..i + 1])) + [Endif])
  {
    RunExtends(fs, i, nbits, start, insec, done, body, start');
    ClosedLayout(fs, start', i);
    RunLinesAfter(Layout(fs[..start']), fs[start'..i + 1]);
  }

  /** The layout up to a run closed at field i. */
  lemma ClosedLayout(fs: seq<Field>, start: nat, i: nat)
    requires start <= i < |fs| && fs[start].bits != 8
    requires forall m :: start < m <= i ==> Width(fs[start..m]) % 8 != 0
    requires Width(fs[..start]) % 8 == 0 && Width(fs[start..i + 1]) % 8 == 0
    ensures Layout(fs[..i + 1]) == Layout(fs[..start]) + RunLines(fs[start..i + 1])
  {
    RunClosed(fs, start, i);
    assert fs[..start] + fs[start..i + 1] == fs[..i + 1];
    LayoutConcat(fs[..start], fs[start..i + 1]);
  }

  lemma RunLinesAfter(ls: seq<Line>, run: seq<Field>)
    ensures ls + [IfBigEndian] + Members(run) + [Else] + Members(Reversed(run)) + [Endif] == ls + RunLines(run)
  {
  }

  lemma WriteEnd(fs: seq<Field>, nbits: nat, start: nat, insec: bool, done: nat, body: seq<Line>)
    requires Writing(fs, |fs|, nbits, start, insec, done, body)
    ensures body == Layout(fs)
  {
    if insec {
      RunOpen(fs, start);
      assert fs[..start] + fs[start..] == fs;
      LayoutConcat(fs[..start], fs[start..]);
    }
    assert fs[..|fs|] == fs;
  }

  /** The table name: the identifier, with _seq after the first table. */
  function TableName(ident: string, serial: nat): string
  {
    if serial != 0 then ident + "_" + DecDigits(serial) else ident
  }

  /** Everything write_table writes for a non-empty set of fields. */
  function Table(name: string, fs: seq<Field>): seq<Line>
  {
    [Typedef(name), Open(name)] + Layout(fs) + [Close]
  }

  /** Where add_field's loop stands: fields laid out, the pieces still to
      come, the bits still to place, how many pieces were placed, and the
      countdown number of the next piece. */
  ghost predicate Placing(fields: seq<Field>, todo: seq<Field>, nbits: nat, width: nat, piece: nat, fcount: int,
                          hilo: bool, ctype: string, id: string)
  {
    && nbits == Width(fields) && width >= 1 && fcount >= 0 && (hilo ==> fcount < 2)
    && (piece == 0 ==>
         todo == Pieces(ctype, id, width, nbits) && fcount + 1 == PieceCount(width, Room(nbits)) && hilo == (fcount == 1))
    && (piece > 0 ==>
         nbits % 8 == 0 && fcount + 1 == PieceCount(width, 8) && todo == Split(ctype, id, width, 8, fcount, hilo))
  }

  lemma PlacingStart(fields: seq<Field>, ctype: string, id: string, bits: nat, nbits: nat)
    requires nbits == Width(fields)
    ensures var w := Declared(bits); var room := Room(nbits);
      var fcount := if w > room then 1 + (w - room) / 8 + (if (w - room) % 8 != 0 then 1 else 0) else 1;
      Placing(fields, Pieces(ctype, id, bits, nbits), nbits, w, 0, fcount - 1, fcount == 2, ctype, id)
  {
  }

  lemma PlaceWhole(fields: seq<Field>, todo: seq<Field>, nbits: nat, width: nat, piece: nat, fcount: int,
                   hilo: bool, ctype: string, id: string, rem: nat)
    requires Placing(fields, todo, nbits, width, piece, fcount, hilo, ctype, id)
    requires rem == Room(nbits) && piece == 0 && rem >= width
    ensures fields + todo == fields + [Field(ctype, id, width)]
    ensures Width(fields + [Field(ctype, id, width)]) == nbits + width
  {
    WidthAppend(fields, Field(ctype, id, width));
  }

  lemma PlaceLast(fields: seq<Field>, todo: seq<Field>, nbits: nat, width: nat, piece: nat, fcount: int,
                  hilo: bool, ctype: string, id: string, rem: nat, name: string)
    requires Placing(fields, todo, nbits, width, piece, fcount, hilo, ctype, id)
    requires rem == Room(nbits) && !(piece == 0 && rem >= width) && rem >= width
    requires hilo ==> fcount < 2
    requires name == PieceName(id, fcount, hilo)
    ensures fields + todo == fields + [Field(ctype, name, width)]
    ensures Width(fields + [Field(ctype, name, width)]) == nbits + width
  {
    WidthAppend(fields, Field(ctype, name, width));
  }

  lemma PlaceNext(fields: seq<Field>, todo: seq<Field>, nbits: nat, width: nat, piece: nat, fcount: int,
                  hilo: bool, ctype: string, id: string, rem: nat, name: string,
                  fields': seq<Field>, todo': seq<Field>, nbits': nat, width': nat)
    requires Placing(fields, todo, nbits, width, piece, fcount, hilo, ctype, id)
    requires rem == Room(nbits) && rem < width
    requires hilo ==> fcount < 2
    requires name == PieceName(id, fcount, hilo)
    requires fields' == fields + [Field(ctype, name, rem)] && todo' == todo[1..]
    requires nbits' == nbits + rem && width' == width - rem
    ensures fields' + todo' == fields + todo
    ensures Placing(fields', todo', nbits', width', piece + 1, fcount - 1, hilo, ctype, id)
  {
    var f := Field(ctype, name, rem);
    assert todo == Split(ctype, id, width, rem, fcount, hilo);
    SplitStep(ctype, id, width, rem, fcount, hilo);
    FillOctet(nbits);
    WidthAppend(fields, f);
    Shift(fields, f, todo[1..]);
  }

  /** add_field's placement loop: the pieces of a field of the given width
      appended to the set, with the running bit count. */
  method Place(fields: seq<Field>, nbits: nat, ctype: string, id: string, bits: nat)
    returns (fs: seq<Field>, nb: nat)
    requires nbits == Width(fields)
    ensures fs == fields + Pieces(ctype, id, bits, nbits)
    ensures nb == nbits + Declared(bits) && nb == Width(fs)
  {
    var width: nat := if bits == 0 then 8 else bits;
    ghost var whole := Pieces(ctype, id, bits, nbits);
    PiecesWidth(ctype, id, bits, nbits);
    WidthConcat(fields, whole);
    var rem := 8 - nbits % 8;
    var fcount: int;
    if width > rem {
      var i := width - rem;
      fcount := 1 + i / 8 + (if i % 8 != 0 then 1 else 0);
    } else {
      fcount := 1;
    }
    var piece: nat := 0;
    var hilo := fcount == 2;
    fcount := fcount - 1;
    ghost var todo := whole;
    PlacingStart(fields, ctype, id, bits, nbits);
    fs, nb := fields, nbits;
    // while (bits): every pass either ends the field or leaves bits > 0
    while true
      invariant Placing(fs, todo, nb, width, piece, fcount, hilo, ctype, id)
      invariant fs + todo == fields + whole
      decreases width
    {
      rem := Room(nb);
      if piece == 0 && rem >= width {
        PlaceWhole(fs, todo, nb, width, piece, fcount, hilo, ctype, id, rem);
        fs := fs + [Field(ctype, id, width)];
        nb := nb + width;
        return;
      }
      var name := PieceName(id, fcount, hilo);
      if rem >= width {
        PlaceLast(fs, todo, nb, width, piece, fcount, hilo, ctype, id, rem, name);
        fs := fs + [Field(ctype, name, width)];
        nb := nb + width;
        return;
      }
      ghost var fs0, todo0, nb0, width0 := fs, todo, nb, width;
      fs := fs + [Field(ctype, name, rem)];
      todo := todo[1..];
      nb := nb + rem;
      width := width - rem;
      PlaceNext(fs0, todo0, nb0, width0, piece, fcount, hilo, ctype, id, rem, name, fs, todo, nb, width);
      piece := piece + 1;
      fcount := fcount - 1;
    }
  }

  /** The #else half of a closed run: its fields from the last back to the
      first. The countdown is signed, so it stops below start even when
      start is 0. */
  method WriteReversed(fields: seq<Field>, start: nat, i: nat) returns (ls: seq<Line>)
    requires start <= i < |fields|
    ensures ls == Members(Reversed(fields[start..i + 1]))
  {
    ls := [];
    var r: int := i;
    while r >= start
      invariant start - 1 <= r <= i
      invariant ls == Members(Reversed(fields[r + 1..i + 1]))
      decreases r + 1 - start
    {
      assert fields[r..i + 1][1..] == fields[r + 1..i + 1];
      MembersConcat(Reversed(fields[r + 1..i + 1]), [fields[r]]);
      ls := ls + [Member(fields[r])];
      r := r - 1;
    }
  }

  /** write_table's loop over the fields: the struct body. */
  method WriteBody(fields: seq<Field>) returns (body: seq<Line>)
    ensures body == Layout(fields)
  {
    body := [];
    var i: nat, nbits: nat, start: nat, insec := 0, 0, 0, false;
    ghost var done := 0;
    assert fields[..0] == [];
    while i < |fields|
      invariant Writing(fields, i, nbits, start, insec, done, body)
      decreases |fields| - i
    {
      ghost var body0, start0, insec0 := body, start, insec;
      if !insec && fields[i].bits != 8 {
        insec := true;
        start := i;
        body := body + [IfBigEndian];
      }
      ghost var begun := body;
      body := body + [Member(fields[i])];
      ghost var nbits0 := nbits;
      nbits := nbits + fields[i].bits;
      if nbits % 8 == 0 && insec {
        insec := false;
        var rev := WriteReversed(fields, start, i);
        body := body + [Else] + rev + [Endif];
        WriteClose(fields, i, nbits0, start0, insec0, done, body0, start, begun, nbits);
        done := i + 1;
      } else if insec {
        WriteRun(fields, i, nbits0, start0, insec0, done, body0, start, begun, nbits);
      } else {
        WriteOctet(fields, i, nbits0, start0, done, body0, nbits);
        done := i + 1;
      }
      i := i + 1;
    }
    WriteEnd(fields, nbits, start, insec, done, body);
  }

  class FieldSet {
    var ident: string
    var serial: nat
    var fields: seq<Field>
    var nbits: nat
    var out: seq<Line>

    /** nbits is the width of the fields collected, and none of them crosses
        an octet boundary. */
    ghost predicate Valid()
      reads this
    {
      nbits == Width(fields) && Fits(fields, 0)
    }

    constructor (ident: string)
      ensures Valid()
      ensures this.ident == ident && serial == 0 && fields == [] && nbits == 0 && out == []
    {
      this.ident, serial, fields, nbits, out := ident, 0, [], 0, [];
    }

    /** The scan for a field with the given name. */
    method Taken(id: string) returns (b: bool)
      ensures b == Used(fields, id)
    {
      var i := 0;
      while i < |fields|
        invariant 0 <= i <= |fields|
        invariant forall j :: 0 <= j < i ==> fields[j].ident != id
      {
        if fields[i].ident == id {
          return true;
        }
        i := i + 1;
      }
      return false;
    }

    /** The attempts at a free name: c is 0 when no field has the name. */
    method FreeSuffix(ident: string) returns (c: nat)
      ensures c == FirstFree(fields, ident, 0)
    {
      c := 0;
      var taken := Taken(Candidate(ident, 0));
      while taken
        invariant forall d :: 0 <= d < c ==> Used(fields, Candidate(ident, d))
        invariant taken == Used(fields, Candidate(ident, c))
        invariant c <= |fields|
        decreases |fields| - c
      {
        Pigeonhole(fields, ident, c + 1);
        c := c + 1;
        taken := Taken(Candidate(ident, c));
      }
      FirstFreeUnique(fields, ident, c);
    }

    /** free_fields. */
    method FreeFields()
      modifies this
      ensures fields == [] && nbits == 0 && Valid()
      ensures ident == old(ident) && serial == old(serial) && out == old(out)
    {
      fields := [];
      nbits := 0;
    }

    /** add_field: the field under its first free name, in one piece or
        split at the octet boundaries. */
    method AddField(ctype: string, ident: string, bits: nat)
      requires Valid()
      modifies this
      ensures Valid()
      ensures fields == old(fields) + Pieces(ctype, Candidate(ident, FirstFree(old(fields), ident, 0)), bits, old(nbits))
      ensures nbits == old(nbits) + Declared(bits)
      ensures this.ident == old(this.ident) && serial == old(serial) && out == old(out)
    {
      var c := FreeSuffix(ident);
      var id := Candidate(ident, c);
      PiecesStayInOctets(ctype, id, bits, nbits);
      FitsConcat(fields, Pieces(ctype, id, bits, nbits), 0);
      fields, nbits := Place(fields, nbits, ctype, id, bits);
    }

    /** write_table: nothing for an empty set; otherwise the table under its
        name, then the next table of this identifier starts empty. */
    method WriteTable()
      requires Valid()
      modifies this
      ensures Valid()
      ensures old(fields) == [] ==> fields == [] && nbits == old(nbits) && serial == old(serial) && out == old(out)
      ensures old(fields) != [] ==>
        && out == old(out) + Table(TableName(ident, old(serial)), old(fields))
        && serial == old(serial) + 1 && fields == [] && nbits == 0
      ensures ident == old(ident)
    {
      if |fields| == 0 {
        return;
      }
      var name := if serial != 0 then ident + "_" + DecDigits(serial) else ident;
      out := out + [Typedef(name), Open(name)];
      var body := WriteBody(fields);
      out := out + body + [Close];
      serial := serial + 1;
      FreeFields();
    }
  }
}
