/** The PEM body decoder: base64 (section 4 of RFC 4648), whitespace skipped. */
module Base64 {
  import opened Bytes

  predicate IsWhitespace(c: char) {
    || '\t' <= c <= '\r' || c == ' ' || c == '\U{0085}' || c == '\U{00A0}' || c == '\U{1680}'
    || '\U{2000}' <= c <= '\U{200A}' || c == '\U{2028}' || c == '\U{2029}' || c == '\U{202F}'
    || c == '\U{205F}' || c == '\U{3000}'
  }

  type Sextet = v: int | 0 <= v < 64

  function Value(c: char): Option<Sextet> {
    if 'A' <= c <= 'Z' then Some(c as int - 'A' as int)
    else if 'a' <= c <= 'z' then Some(c as int - 'a' as int + 26)
    else if '0' <= c <= '9' then Some(c as int - '0' as int + 52)
    else if c == '+' then Some(62)
    else if c == '/' then Some(63)
    else None
  }

  function Letter(v: Sextet): char {
    if v < 26 then 'A' + v as char
    else if v < 52 then 'a' + (v - 26) as char
    else if v < 62 then '0' + (v - 52) as char
    else if v == 62 then '+'
    else '/'
  }

  lemma LetterValue(v: Sextet)
    ensures Value(Letter(v)) == Some(v) && !IsWhitespace(Letter(v)) && Letter(v) != '='
  {
  }

  // ---- the decoder -----------------------------------------------------------------

  function Pow2(n: nat): (p: nat)
    ensures p > 0
  {
    if n == 0 then 1 else 2 * Pow2(n - 1)
  }

  // The 32-bit accumulator loses the bits shifted out at its top.
  datatype State = State(buf: U32, bits: nat, out: Buf)

  predicate Ready(s: State) { s.bits in {0, 2, 4, 6} }

  function Push(s: State, v: Sextet): (t: State)
    requires Ready(s)
    ensures Ready(t)
  {
    var buf := (s.buf * 64 + v) % 0x1_0000_0000;
    if s.bits + 6 >= 8 then State(buf, s.bits - 2, s.out + [buf / Pow2(s.bits - 2) % 256])
    else State(buf, s.bits + 6, s.out)
  }

  function Decode(s: State, input: string): (r: Result<Buf>)
    requires Ready(s)
    decreases |input|
  {
    if input == [] then Ok(s.out)
    else if IsWhitespace(input[0]) then Decode(s, input[1..])
    else if input[0] == '=' then Ok(s.out)
    else
      var v := Value(input[0]);
      if v == None then Err else Decode(Push(s, v.value), input[1..])
  }

  const START: State := State(0, 0, [])

  method Base64Decode(input: string) returns (r: Result<Buf>)
    ensures r == Decode(START, input)
  {
    var s := START;
    for i := 0 to |input|
      invariant Ready(s) && Decode(START, input) == Decode(s, input[i..])
    {
      assert input[i..][1..] == input[i + 1..];
      var c := input[i];
      if IsWhitespace(c) {
        continue;
      }
      if c == '=' {
        return Ok(s.out);
      }
      var v := Value(c);
      if v == None {
        return Err;
      }
      s := Push(s, v.value);
    }
    return Ok(s.out);
  }

  // ---- the encoder of RFC 4648 --------------------------------------------------------

  function Encode(b: Buf): string {
    if b == [] then ""
    else if |b| == 1 then [Letter(b[0] / 4), Letter(b[0] % 4 * 16), '=', '=']
    else if |b| == 2 then
      [Letter(b[0] / 4), Letter(b[0] % 4 * 16 + b[1] / 16), Letter(b[1] % 16 * 4), '=']
    else
      [Letter(b[0] / 4), Letter(b[0] % 4 * 16 + b[1] / 16),
       Letter(b[1] % 16 * 4 + b[2] / 64), Letter(b[2] % 64)] + Encode(b[3..])
  }

  function Stripped(s: string): string {
    if s == [] then [] else (if IsWhitespace(s[0]) then [] else [s[0]]) + Stripped(s[1..])
  }

  // ---- decoding inverts encoding ---------------------------------------------------------

  lemma {:induction false} WhitespaceIgnored(s: State, input: string)
    requires Ready(s)
    ensures Decode(s, input) == Decode(s, Stripped(input))
    decreases |input|
  {
    hide Push;
    if input != [] {
      var c, rest := input[0], input[1..];
      var head := if IsWhitespace(c) then [] else [c];
      var all := Stripped(input);
      assert all == head + Stripped(rest);
      if IsWhitespace(c) {
        assert all == Stripped(rest);
        WhitespaceIgnored(s, rest);
      } else {
        assert all[0] == c && all[1..] == Stripped(rest);
        if Value(c).Some? {
          WhitespaceIgnored(Push(s, Value(c).value), rest);
        }
      }
    }
  }

  lemma DecodeLetter(s: State, v: Sextet, rest: string)
    requires Ready(s)
    ensures Decode(s, [Letter(v)] + rest) == Decode(Push(s, v), rest)
  {
    hide Push;
    LetterValue(v);
    assert ([Letter(v)] + rest)[1..] == rest;
  }

  // The low bits of the accumulator are the pending ones; what lies above never matters.
  lemma Wrap(buf: U32, v: Sextet)
    ensures exists k :: (buf * 64 + v) % 0x1_0000_0000 == buf * 64 + v - 0x1_0000_0000 * k
  {
    var k := (buf * 64 + v) / 0x1_0000_0000;
    assert (buf * 64 + v) % 0x1_0000_0000 == buf * 64 + v - 0x1_0000_0000 * k;
  }

  lemma Push0(s: State, v: Sextet)
    requires s.bits == 0
    ensures var t := Push(s, v); t.bits == 6 && t.out == s.out && t.buf % 64 == v
  {
  }

  lemma Push6(s: State, v: Sextet)
    requires s.bits == 6
    ensures var t, n := Push(s, v), s.buf % 64 * 64 + v;
            t.bits == 4 && t.out == s.out + [n / 16] && t.buf % 16 == n % 16
  {
    assert Pow2(4) == 16;
    Wrap(s.buf, v);
    var k :| (s.buf * 64 + v) % 0x1_0000_0000 == s.buf * 64 + v - 0x1_0000_0000 * k;
    Low12(s.buf / 64 - 0x10_0000 * k, s.buf % 64 * 64 + v);
  }

  lemma Push4(s: State, v: Sextet)
    requires s.bits == 4
    ensures var t, n := Push(s, v), s.buf % 16 * 64 + v;
            t.bits == 2 && t.out == s.out + [n / 4] && t.buf % 4 == n % 4
  {
    assert Pow2(2) == 4;
    Wrap(s.buf, v);
    var k :| (s.buf * 64 + v) % 0x1_0000_0000 == s.buf * 64 + v - 0x1_0000_0000 * k;
    Low10(s.buf / 16 - 0x40_0000 * k, s.buf % 16 * 64 + v);
  }

  lemma Push2(s: State, v: Sextet)
    requires s.bits == 2
    ensures var t := Push(s, v); t.bits == 0 && t.out == s.out + [s.buf % 4 * 64 + v]
  {
    assert Pow2(0) == 1;
    Wrap(s.buf, v);
    var k :| (s.buf * 64 + v) % 0x1_0000_0000 == s.buf * 64 + v - 0x1_0000_0000 * k;
    Low8(s.buf / 4 - 0x100_0000 * k, s.buf % 4 * 64 + v);
  }

  lemma Low12(m: int, n: nat)
    requires n < 4096
    ensures (m * 4096 + n) / 16 % 256 == n / 16 && (m * 4096 + n) % 16 == n % 16
  {
    assert (m * 4096 + n) / 16 == m * 256 + n / 16;
  }

  lemma Low10(m: int, n: nat)
    requires n < 1024
    ensures (m * 1024 + n) / 4 % 256 == n / 4 && (m * 1024 + n) % 4 == n % 4
  {
    assert (m * 1024 + n) / 4 == m * 256 + n / 4;
  }

  lemma Low8(m: int, n: nat)
    requires n < 256
    ensures (m * 256 + n) % 256 == n
  {
  }

  lemma DecodeOne(s: State, b0: U8)
    requires s.bits == 0
    ensures var t := Push(Push(s, b0 / 4), b0 % 4 * 16);
            t.bits == 4 && t.out == s.out + [b0] && t.buf % 16 == 0
  {
    hide Push;
    var v0, v1 := b0 / 4, b0 % 4 * 16;
    Push0(s, v0);
    Push6(Push(s, v0), v1);
    assert (v0 * 64 + v1) / 16 == b0;
  }

  lemma DecodeTwo(s: State, b0: U8, b1: U8)
    requires s.bits == 0
    ensures var t := Push(Push(Push(s, b0 / 4), b0 % 4 * 16 + b1 / 16), b1 % 16 * 4);
            t.bits == 2 && t.out == s.out + [b0] + [b1]
  {
    hide Push;
    var v0, v1, v2 := b0 / 4, b0 % 4 * 16 + b1 / 16, b1 % 16 * 4;
    Push0(s, v0);
    Push6(Push(s, v0), v1);
    Push4(Push(Push(s, v0), v1), v2);
    assert (v0 * 64 + v1) / 16 == b0 && (v0 * 64 + v1) % 16 == b1 / 16;
    assert (b1 / 16 * 64 + v2) / 4 == b1;
  }

  lemma DecodeThree(s: State, b0: U8, b1: U8, b2: U8)
    requires s.bits == 0
    ensures var t := Push(Push(Push(Push(s, b0 / 4), b0 % 4 * 16 + b1 / 16), b1 % 16 * 4 + b2 / 64), b2 % 64);
            t.bits == 0 && t.out == s.out + [b0] + [b1] + [b2]
  {
    hide Push;
    var v0, v1, v2, v3 := b0 / 4, b0 % 4 * 16 + b1 / 16, b1 % 16 * 4 + b2 / 64, b2 % 64;
    Push0(s, v0);
    Push6(Push(s, v0), v1);
    Push4(Push(Push(s, v0), v1), v2);
    Push2(Push(Push(Push(s, v0), v1), v2), v3);
    assert (v0 * 64 + v1) / 16 == b0 && (v0 * 64 + v1) % 16 == b1 / 16;
    assert (b1 / 16 * 64 + v2) / 4 == b1 && (b1 / 16 * 64 + v2) % 4 == b2 / 64;
  }

  lemma DecodeTwoLetters(s: State, v0: Sextet, v1: Sextet, rest: string)
    requires Ready(s)
    ensures Decode(s, [Letter(v0), Letter(v1)] + rest) == Decode(Push(Push(s, v0), v1), rest)
  {
    hide Push, Decode, Letter;
    DecodeLetter(s, v0, [Letter(v1)] + rest);
    DecodeLetter(Push(s, v0), v1, rest);
    assert [Letter(v0), Letter(v1)] + rest == [Letter(v0)] + ([Letter(v1)] + rest);
  }

  // The letters of the first group, and what follows them.
  lemma EncodeOne(b: Buf)
    requires |b| == 1
    ensures Encode(b) == [Letter(b[0] / 4), Letter(b[0] % 4 * 16)] + "=="
  {
    hide Letter;
  }

  lemma EncodeTwo(b: Buf)
    requires |b| == 2
    ensures Encode(b) == [Letter(b[0] / 4), Letter(b[0] % 4 * 16 + b[1] / 16)] + ([Letter(b[1] % 16 * 4)] + "=")
  {
    hide Letter;
  }

  lemma EncodeThree(b: Buf)
    requires |b| >= 3
    ensures Encode(b) == [Letter(b[0] / 4), Letter(b[0] % 4 * 16 + b[1] / 16)]
                         + ([Letter(b[1] % 16 * 4 + b[2] / 64), Letter(b[2] % 64)] + Encode(b[3..]))
  {
    hide Letter;
  }

  lemma DecodeTailOne(s: State, b: Buf)
    requires s.bits == 0 && |b| == 1
    ensures Decode(s, Encode(b)) == Ok(s.out + b)
  {
    hide Push, Letter, Decode, Encode;
    EncodeOne(b);
    DecodeTwoLetters(s, b[0] / 4, b[0] % 4 * 16, "==");
    DecodeOne(s, b[0]);
    DecodeEnd(Push(Push(s, b[0] / 4), b[0] % 4 * 16), "=");
    assert b == [b[0]];
    assert "=" + "=" == "==";
  }

  lemma DecodeTailTwo(s: State, b: Buf)
    requires s.bits == 0 && |b| == 2
    ensures Decode(s, Encode(b)) == Ok(s.out + b)
  {
    hide Push, Letter, Decode, Encode;
    var v0, v1, v2 := b[0] / 4, b[0] % 4 * 16 + b[1] / 16, b[1] % 16 * 4;
    EncodeTwo(b);
    DecodeTwoLetters(s, v0, v1, [Letter(v2)] + "=");
    DecodeLetter(Push(Push(s, v0), v1), v2, "=");
    DecodeTwo(s, b[0], b[1]);
    DecodeEnd(Push(Push(Push(s, v0), v1), v2), "");
    assert "=" + "" == "=";
    assert s.out + b == s.out + [b[0]] + [b[1]];
  }

  lemma DecodeGroup(s: State, b: Buf) returns (t: State)
    requires s.bits == 0 && |b| >= 3
    ensures t.bits == 0 && t.out == s.out + b[..3]
    ensures Decode(s, Encode(b)) == Decode(t, Encode(b[3..]))
  {
    hide Push, Letter, Decode, Encode;
    var v0, v1, v2, v3 := b[0] / 4, b[0] % 4 * 16 + b[1] / 16, b[1] % 16 * 4 + b[2] / 64, b[2] % 64;
    var rest := Encode(b[3..]);
    EncodeThree(b);
    DecodeTwoLetters(s, v0, v1, [Letter(v2), Letter(v3)] + rest);
    DecodeTwoLetters(Push(Push(s, v0), v1), v2, v3, rest);
    DecodeThree(s, b[0], b[1], b[2]);
    t := Push(Push(Push(Push(s, v0), v1), v2), v3);
    assert s.out + b[..3] == s.out + [b[0]] + [b[1]] + [b[2]];
  }

  lemma {:induction false} DecodeEncoded(s: State, b: Buf)
    requires s.bits == 0
    ensures Decode(s, Encode(b)) == Ok(s.out + b)
    decreases |b|
  {
    hide Decode, Encode;
    if b == [] {
      DecodeNothing(s);
      assert s.out + b == s.out;
    } else if |b| == 1 {
      DecodeTailOne(s, b);
    } else if |b| == 2 {
      DecodeTailTwo(s, b);
    } else {
      var t := DecodeGroup(s, b);
      DecodeEncoded(t, b[3..]);
      assert s.out + b == s.out + b[..3] + b[3..];
    }
  }

  lemma DecodeNothing(s: State)
    requires Ready(s)
    ensures Decode(s, Encode([])) == Ok(s.out)
  {
  }

  lemma DecodeEnd(s: State, rest: string)
    requires Ready(s)
    ensures Decode(s, "=" + rest) == Ok(s.out)
  {
    assert ("=" + rest)[0] == '=';
  }

  // Main result: any text that is an encoding with whitespace inserted anywhere decodes to
  // the encoded bytes.
  lemma DecodeInvertsEncode(b: Buf, input: string)
    requires Stripped(input) == Encode(b)
    ensures Decode(START, input) == Ok(b)
  {
    hide Decode, Encode, Stripped;
    WhitespaceIgnored(START, input);
    DecodeEncoded(START, b);
    assert START.out + b == b;
  }

  predicate Acceptable(c: char) { IsWhitespace(c) || Value(c).Some? }

  predicate BadAt(input: string, i: nat) {
    && i < |input| && !Acceptable(input[i]) && input[i] != '='
    && forall k :: 0 <= k < i ==> input[k] != '='
  }

  // Decoding fails exactly when a character outside the alphabet comes before any '='.
  lemma {:induction false} FailsOnBadCharacter(s: State, input: string)
    requires Ready(s)
    ensures Decode(s, input) == Err <==> exists i :: BadAt(input, i)
    decreases |input|
  {
    hide Push;
    if input != [] && input[0] != '=' && Acceptable(input[0]) {
      var rest := input[1..];
      FailsOnBadCharacter(if IsWhitespace(input[0]) then s else Push(s, Value(input[0]).value), rest);
      if i: nat :| BadAt(input, i) {
        assert i > 0 && rest[i - 1] == input[i];
        assert BadAt(rest, i - 1);
      }
      if i: nat :| BadAt(rest, i) {
        assert forall k :: 0 < k <= i ==> input[k] == rest[k - 1];
        assert BadAt(input, i + 1);
      }
    } else if input != [] && input[0] != '=' {
      assert BadAt(input, 0);
    }
  }

  // Lines joined by line ends.
  function Lines(ls: seq<string>, end: string): string {
    if ls == [] then "" else ls[0] + end + Lines(ls[1..], end)
  }

  function Joined(ls: seq<string>): string {
    if ls == [] then "" else ls[0] + Joined(ls[1..])
  }

  predicate Visible(s: string) { forall k :: 0 <= k < |s| ==> s[k] == '=' || Value(s[k]).Some? }

  lemma {:induction false} EncodedIsVisible(b: Buf)
    ensures Visible(Encode(b))
    decreases |b|
  {
    hide Value;
    forall v: Sextet ensures Value(Letter(v)).Some? { LetterValue(v); }
    if |b| >= 3 {
      EncodedIsVisible(b[3..]);
    }
  }

  lemma {:induction false} StrippedAppend(a: string, b: string)
    ensures Stripped(a + b) == Stripped(a) + Stripped(b)
    decreases |a|
  {
    if a == "" {
      assert a + b == b;
    } else {
      StrippedAppend(a[1..], b);
      assert (a + b)[0] == a[0] && (a + b)[1..] == a[1..] + b;
      Associative(if IsWhitespace(a[0]) then [] else [a[0]], Stripped(a[1..]), Stripped(b));
    }
  }

  lemma {:induction false} VisibleStays(s: string)
    requires Visible(s)
    ensures Stripped(s) == s
    decreases |s|
  {
    if s != "" {
      assert s[0] == '=' || Value(s[0]).Some?;
      VisibleStays(s[1..]);
    }
  }

  lemma VisibleParts(a: string, b: string)
    requires Visible(a + b)
    ensures Visible(a) && Visible(b)
  {
    var s := a + b;
    assert forall k :: 0 <= k < |a| ==> a[k] == s[k];
    assert forall k :: 0 <= k < |b| ==> b[k] == s[|a| + k];
  }

  lemma {:induction false} LinesStripped(ls: seq<string>, end: string)
    requires Visible(Joined(ls)) && Stripped(end) == ""
    ensures Stripped(Lines(ls, end)) == Joined(ls)
    decreases |ls|
  {
    if ls != [] {
      hide Visible, Stripped;
      VisibleParts(ls[0], Joined(ls[1..]));
      VisibleStays(ls[0]);
      LinesStripped(ls[1..], end);
      StrippedAppend(ls[0], end);
      StrippedAppend(ls[0] + end, Lines(ls[1..], end));
      assert ls[0] + "" == ls[0];
    }
  }

  lemma LineEndsVanish()
    ensures Stripped("\n") == "" && Stripped("\r\n") == "" && Stripped(" ") == "" && Stripped("\t") == ""
  {
    assert "\r\n"[1..] == "\n" && "\n"[1..] == "" && " "[1..] == "" && "\t"[1..] == "";
  }

  /** An encoding cut into lines anywhere, with LF or CR LF behind each, decodes. */
  lemma LinesDecode(b: Buf, ls: seq<string>, end: string)
    requires Joined(ls) == Encode(b) && end in {"\n", "\r\n"}
    ensures Decode(START, Lines(ls, end)) == Ok(b)
  {
    hide Decode, Encode, Stripped, Lines, Joined;
    EncodedIsVisible(b);
    LineEndsVanish();
    LinesStripped(ls, end);
    DecodeInvertsEncode(b, Lines(ls, end));
  }
}
