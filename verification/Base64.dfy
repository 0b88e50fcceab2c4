/** Base 64 with padding: section 4 of RFC 4648. */
module Base64 {
  import opened Wrappers

  type digit = d: int | 0 <= d < 64

  const PAD: byte := 61

  /** Table 1: A to Z, a to z, 0 to 9, plus and slash. */
  function Symbol(d: digit): byte {
    if d < 26 then 65 + d
    else if d < 52 then 97 + d - 26
    else if d < 62 then 48 + d - 52
    else if d == 62 then 43
    else 47
  }

  function Value(b: byte): Option<digit> {
    if 65 <= b <= 90 then Some(b - 65)
    else if 97 <= b <= 122 then Some(b - 97 + 26)
    else if 48 <= b <= 57 then Some(b - 48 + 52)
    else if b == 43 then Some(62)
    else if b == 47 then Some(63)
    else None
  }

  lemma SymbolValue(d: digit)
    ensures Value(Symbol(d)) == Some(d) && Symbol(d) != PAD && 0x21 <= Symbol(d) <= 0x7e
  {
  }

  const CAPITALS := "ABCDEFGHIJKLMNOPQRSTUVWXYZ"
  const LETTERS := "abcdefghijklmnopqrstuvwxyz"
  const REST := "0123456789+/"

  /** The table, written out. */
  lemma SymbolExactly(d: digit)
    ensures Symbol(d) == (CAPITALS + LETTERS + REST)[d] as int
  {
    assert forall i :: 0 <= i < 26 ==> CAPITALS[i] as int == 65 + i;
    assert forall i :: 0 <= i < 26 ==> LETTERS[i] as int == 97 + i;
    assert forall i :: 0 <= i < 10 ==> REST[i] as int == 48 + i;
  }

  // ---- Groups of 24 bits ----

  function Split(a: byte, b: byte, c: byte): (digit, digit, digit, digit) {
    (a / 4, a % 4 * 16 + b / 16, b % 16 * 4 + c / 64, c % 64)
  }

  function Merge(d: digit, e: digit, f: digit, g: digit): (byte, byte, byte) {
    (d * 4 + e / 16, e % 16 * 16 + f / 4, f % 4 * 64 + g)
  }

  lemma MergeSplit(a: byte, b: byte, c: byte)
    ensures var (d, e, f, g) := Split(a, b, c); Merge(d, e, f, g) == (a, b, c)
  {
    var (d, e, f, g) := Split(a, b, c);
    assert e / 16 == a % 4 && e % 16 == b / 16;
    assert f / 4 == b % 16 && f % 4 == c / 64;
  }

  function Encode(s: seq<byte>): seq<byte> {
    if |s| == 0 then []
    else if |s| == 1 then
      var (d, e, _, _) := Split(s[0], 0, 0);
      [Symbol(d), Symbol(e), PAD, PAD]
    else if |s| == 2 then
      var (d, e, f, _) := Split(s[0], s[1], 0);
      [Symbol(d), Symbol(e), Symbol(f), PAD]
    else
      var (d, e, f, g) := Split(s[0], s[1], s[2]);
      [Symbol(d), Symbol(e), Symbol(f), Symbol(g)] + Encode(s[3..])
  }

  function DecodeGroup(d: byte, e: byte, f: byte, g: byte): Option<seq<byte>> {
    if Value(d).None? || Value(e).None? then None
    else if f == PAD && g == PAD then Some([Merge(Value(d).value, Value(e).value, 0, 0).0])
    else if Value(f).None? then None
    else if g == PAD then
      var (a, b, _) := Merge(Value(d).value, Value(e).value, Value(f).value, 0);
      Some([a, b])
    else if Value(g).None? then None
    else
      var (a, b, c) := Merge(Value(d).value, Value(e).value, Value(f).value, Value(g).value);
      Some([a, b, c])
  }

  /** Only the last group may be padded. */
  function Decode(s: seq<byte>): Option<seq<byte>> {
    if |s| == 0 then Some([])
    else if |s| < 4 then None
    else
      match DecodeGroup(s[0], s[1], s[2], s[3])
      case None => None
      case Some(bytes) =>
        if |bytes| < 3 then (if |s| == 4 then Some(bytes) else None)
        else
          match Decode(s[4..])
          case None => None
          case Some(rest) => Some(bytes + rest)
  }

  lemma GroupRoundTrip(a: byte, b: byte, c: byte)
    ensures var (d, e, f, g) := Split(a, b, c);
      && DecodeGroup(Symbol(d), Symbol(e), Symbol(f), Symbol(g)) == Some([a, b, c])
      && (c == 0 ==> DecodeGroup(Symbol(d), Symbol(e), Symbol(f), PAD) == Some([a, b]))
      && (b == 0 && c == 0 ==> DecodeGroup(Symbol(d), Symbol(e), PAD, PAD) == Some([a]))
  {
    var (d, e, f, g) := Split(a, b, c);
    SymbolValue(d);
    SymbolValue(e);
    SymbolValue(f);
    SymbolValue(g);
    MergeSplit(a, b, c);
    hide Merge, Split, Value, Symbol;
    if c == 0 { ZeroDigits(a, b); }
  }

  lemma ZeroDigits(a: byte, b: byte)
    ensures Split(a, b, 0).3 == 0
    ensures b == 0 ==> Split(a, b, 0).2 == 0
  {
  }

  lemma {:induction false} RoundTrip(s: seq<byte>)
    ensures Decode(Encode(s)) == Some(s)
  {
    hide DecodeGroup, Split, Symbol;
    if |s| == 1 {
      GroupRoundTrip(s[0], 0, 0);
      assert s == [s[0]];
    } else if |s| == 2 {
      GroupRoundTrip(s[0], s[1], 0);
      assert s == [s[0], s[1]];
    } else if |s| > 2 {
      GroupRoundTrip(s[0], s[1], s[2]);
      RoundTrip(s[3..]);
      assert Encode(s)[4..] == Encode(s[3..]);
      assert [s[0], s[1], s[2]] + s[3..] == s;
    }
  }

  /** The number that four symbols stand for, six bits each; padding counts as zero. */
  function Number(d: byte, e: byte, f: byte, g: byte): int {
    Bits(d) * 262144 + Bits(e) * 4096 + Bits(f) * 64 + Bits(g)
  }

  function Bits(b: byte): int {
    if Value(b).Some? then Value(b).value else 0
  }

  function Joined(a: int, b: int, c: int): int {
    a * 65536 + b * 256 + c
  }

  lemma SplitNumber(a: byte, b: byte, c: byte)
    ensures var (d, e, f, g) := Split(a, b, c);
      Number(Symbol(d), Symbol(e), Symbol(f), Symbol(g)) == Joined(a, b, c)
    ensures var (d, e, f, g) := Split(a, b, c);
      && (c == 0 ==> Number(Symbol(d), Symbol(e), Symbol(f), PAD) == Joined(a, b, 0))
      && (b == 0 && c == 0 ==> Number(Symbol(d), Symbol(e), PAD, PAD) == Joined(a, 0, 0))
  {
    var (d, e, f, g) := Split(a, b, c);
    SymbolValue(d);
    SymbolValue(e);
    SymbolValue(f);
    SymbolValue(g);
    hide Symbol;
    assert a == a / 4 * 4 + a % 4 && b == b / 16 * 16 + b % 16 && c == c / 64 * 64 + c % 64;
    if c == 0 { ZeroDigits(a, b); }
  }

  /** Each three bytes become the four symbols of the same 24-bit number; one or two
      bytes at the end are filled up with zero bits, and with two or one `=`. */
  lemma EncodeExactly(s: seq<byte>)
    ensures s == [] ==> Encode(s) == []
    ensures |s| > 0 ==>
      var code := Encode(s);
      && |code| >= 4 && Value(code[0]).Some? && Value(code[1]).Some?
      && Number(code[0], code[1], code[2], code[3]) ==
           Joined(s[0], if |s| > 1 then s[1] else 0, if |s| > 2 then s[2] else 0)
      && (if |s| > 1 then Value(code[2]).Some? else code[2] == '=' as int)
      && (if |s| > 2 then Value(code[3]).Some? else code[3] == '=' as int)
      && code[4..] == if |s| > 2 then Encode(s[3..]) else []
  {
    if |s| > 0 {
      var a, b, c := s[0], if |s| > 1 then s[1] else 0, if |s| > 2 then s[2] else 0;
      var (d, e, f, g) := Split(a, b, c);
      SplitNumber(a, b, c);
      SymbolValue(d);
      SymbolValue(e);
      SymbolValue(f);
      SymbolValue(g);
      hide Symbol, Value, Split, Number;
    }
  }

  /** The encoding has only symbols and padding, in whole groups. */
  lemma {:induction false} EncodedPrintable(s: seq<byte>)
    ensures |Encode(s)| == (|s| + 2) / 3 * 4
    ensures forall b :: b in Encode(s) ==> 0x21 <= b <= 0x7e && (Value(b).Some? || b == PAD)
  {
    if |s| > 2 {
      EncodedPrintable(s[3..]);
      var (d, e, f, g) := Split(s[0], s[1], s[2]);
      SymbolValue(d);
      SymbolValue(e);
      SymbolValue(f);
      SymbolValue(g);
    } else if |s| > 0 {
      var (d, e, f, _) := Split(s[0], if |s| == 2 then s[1] else 0, 0);
      SymbolValue(d);
      SymbolValue(e);
      SymbolValue(f);
    }
  }
}
