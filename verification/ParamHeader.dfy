/** Encoding a tool argument as an HTTP header value. A string is its UTF-8 bytes. */
module ParamHeader {
  import opened Wrappers
  import opened Base64

  datatype Json = Text(bytes: seq<byte>) | Flag(value: bool) | Number(number: real) | Other

  const OPEN: seq<byte> := [61, 63, 98, 97, 115, 101, 54, 52, 63]      // =?base64?

  const CLOSE: seq<byte> := [63, 61]                                    // ?=

  const SPACE: byte := 32

  const TAB: byte := 9

  predicate HasSuffix(s: seq<byte>, suffix: seq<byte>) {
    |suffix| <= |s| && s[|s| - |suffix|..] == suffix
  }

  predicate Padded(s: seq<byte>) {
    s != [] && (s[0] == SPACE || s[0] == TAB || s[|s| - 1] == SPACE || s[|s| - 1] == TAB)
  }

  predicate Plain(b: byte) {
    0x20 <= b <= 0x7e
  }

  predicate MustWrap(s: seq<byte>) {
    Padded(s) || (OPEN <= s && HasSuffix(s, CLOSE)) || exists i :: 0 <= i < |s| && !Plain(s[i])
  }

  function Wrap(s: seq<byte>): seq<byte> {
    OPEN + Encode(s) + CLOSE
  }

  function EncodeText(s: seq<byte>): seq<byte> {
    if MustWrap(s) then Wrap(s) else s
  }

  /** What the receiver does: unwrap what is wrapped, and take the rest as it is. */
  function Unwrap(header: seq<byte>): Option<seq<byte>> {
    if |header| >= |OPEN| + |CLOSE| && OPEN <= header && HasSuffix(header, CLOSE)
    then Decode(header[|OPEN|..|header| - |CLOSE|])
    else Some(header)
  }

  // ---- Numbers ----

  const MAX_SAFE := 9007199254740991

  function Digits(n: nat): seq<byte> {
    if n < 10 then [48 + n] else Digits(n / 10) + [48 + n % 10]
  }

  function FormatInt(n: int): seq<byte> {
    if n < 0 then [45] + Digits(-n) else Digits(n)
  }

  function ParseDigits(s: seq<byte>): int {
    if |s| == 0 then 0 else 10 * ParseDigits(s[..|s| - 1]) + s[|s| - 1] - 48
  }

  function ParseInt(s: seq<byte>): int {
    if s != [] && s[0] == 45 then -ParseDigits(s[1..]) else ParseDigits(s)
  }

  predicate Integral(v: real) {
    v == v.Floor as real && -MAX_SAFE <= v.Floor <= MAX_SAFE
  }

  // ---- The method ----

  function TextOf(value: Json): Option<seq<byte>> {
    match value
    case Text(bytes) => Some(bytes)
    case Flag(b) => Some(if b then [116, 114, 117, 101] else [102, 97, 108, 115, 101])
    case Number(v) => if Integral(v) then Some(FormatInt(v.Floor)) else None
    case Other => None
  }

  method EncodeParamHeader(value: Json) returns (header: Option<seq<byte>>)
    ensures header == match TextOf(value) case None => None case Some(text) => Some(EncodeText(text))
  {
    var text := TextOf(value);
    if text.None? {
      return None;
    }
    var encoded := text.value;
    if Padded(encoded) || (OPEN <= encoded && HasSuffix(encoded, CLOSE)) {
      return Some(Wrap(encoded));
    }
    for i := 0 to |encoded|
      invariant forall j :: 0 <= j < i ==> Plain(encoded[j])
    {
      if !Plain(encoded[i]) {
        return Some(Wrap(encoded));
      }
    }
    return Some(encoded);
  }

  // ---- Main results ----

  function Ascii(text: string): seq<byte> {
    seq(|text|, i requires 0 <= i < |text| => Code(text[i]))
  }

  function Code(c: char): byte {
    if c as int < 128 then c as int else 63
  }

  lemma Spelled()
    ensures OPEN == Ascii("=?base64?") && CLOSE == Ascii("?=")
    ensures Ascii("true") == [116, 114, 117, 101] && Ascii("false") == [102, 97, 108, 115, 101]
  {
  }

  /** A text is sent as it is exactly if it is printable ASCII, has no space at either end,
      and does not look wrapped; any other is sent in base 64 between the two markers. */
  lemma WrappedExactly(s: seq<byte>)
    ensures var open, close := Ascii("=?base64?"), Ascii("?=");
      EncodeText(s) ==
        if Bare(s) && !(open <= s && exists init :: s == init + close) then s else open + Encode(s) + close
  {
    Spelled();
    hide Ascii, Encode;
    assert forall i :: 0 <= i < |s| ==> s[i] in s;
    EndsExactly(s, CLOSE);
    hide HasSuffix;
  }

  ghost predicate Bare(s: seq<byte>) {
    (forall b :: b in s ==> 32 <= b < 127) && (s != [] ==> s[0] != 32 && s[|s| - 1] != 32)
  }

  lemma EndsExactly(s: seq<byte>, suffix: seq<byte>)
    ensures HasSuffix(s, suffix) <==> exists init :: s == init + suffix
  {
    if HasSuffix(s, suffix) { assert s == s[..|s| - |suffix|] + suffix; }
    if init :| s == init + suffix { assert s[|s| - |suffix|..] == suffix; }
  }

  /** Flags are spelled out, and nothing but texts, flags and numbers has a header. */
  lemma TextExactly(value: Json)
    ensures TextOf(Flag(true)) == Some(Ascii("true")) && TextOf(Flag(false)) == Some(Ascii("false"))
    ensures value.Text? ==> TextOf(value) == Some(value.bytes)
    ensures TextOf(value).None? <==>
      value.Other? || (value.Number? && !(value.number == value.number.Floor as real
                                          && -9007199254740991 <= value.number.Floor <= 9007199254740991))
  {
    Spelled();
  }

  /** Every string survives the round trip. */
  lemma HeaderRoundTrip(s: seq<byte>)
    ensures Unwrap(EncodeText(s)) == Some(s)
  {
    if MustWrap(s) {
      RoundTrip(s);
      var header := Wrap(s);
      assert header[|OPEN|..|header| - |CLOSE|] == Encode(s);
      assert header[|header| - |CLOSE|..] == CLOSE;
      assert OPEN <= header;
    }
  }

  /** Different strings get different headers. */
  lemma HeaderInjective(s: seq<byte>, t: seq<byte>)
    requires EncodeText(s) == EncodeText(t)
    ensures s == t
  {
    HeaderRoundTrip(s);
    HeaderRoundTrip(t);
  }

  /** Every header is printable ASCII without spaces or tabs around it. */
  lemma HeaderPrintable(s: seq<byte>)
    ensures forall i :: 0 <= i < |EncodeText(s)| ==> Plain(EncodeText(s)[i])
    ensures !Padded(EncodeText(s))
  {
    EncodedPrintable(s);
    var header := Wrap(s);
    forall i | 0 <= i < |header| ensures Plain(header[i]) {
      if |OPEN| <= i < |OPEN| + |Encode(s)| { assert header[i] == Encode(s)[i - |OPEN|] && header[i] in Encode(s); }
    }
    assert header[0] == OPEN[0] && header[|header| - 1] == CLOSE[1];
  }

  lemma {:induction false} DigitsExact(n: nat)
    ensures ParseDigits(Digits(n)) == n && |Digits(n)| > 0
    ensures forall b :: b in Digits(n) ==> 48 <= b <= 57
  {
    if n >= 10 {
      DigitsExact(n / 10);
      assert Digits(n)[..|Digits(n)| - 1] == Digits(n / 10);
    } else {
      assert Digits(n)[..0] == [];
    }
  }

  lemma DecimalExact(n: int)
    ensures ParseInt(FormatInt(n)) == n && FormatInt(n) != []
    ensures forall b :: b in FormatInt(n) ==> b == 45 || 48 <= b <= 57
  {
    DigitsExact(if n < 0 then -n else n);
    if n < 0 {
      assert FormatInt(n)[1..] == Digits(-n);
    } else {
      assert FormatInt(n)[0] in Digits(n);
    }
  }

  lemma DecimalPlain(text: seq<byte>)
    requires text != [] && forall b :: b in text ==> b == 45 || 48 <= b <= 57
    ensures EncodeText(text) == text
  {
    assert forall i :: 0 <= i < |text| ==> text[i] in text;
    assert text[0] != OPEN[0];
  }

  /** A number gets a header exactly when it is an integer that a double holds exactly;
      the header is its decimal notation, never wrapped. */
  lemma NumberHeader(v: real)
    ensures TextOf(Number(v)).Some? <==> v == v.Floor as real && -9007199254740991 <= v.Floor <= 9007199254740991
    ensures TextOf(Number(v)).Some? ==>
      var text := TextOf(Number(v)).value;
      EncodeText(text) == text && ParseInt(text) as real == v
  {
    hide FormatInt, ParseInt, EncodeText;
    if Integral(v) {
      DecimalExact(v.Floor);
      DecimalPlain(FormatInt(v.Floor));
    }
  }
}
