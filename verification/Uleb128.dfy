/** Unsigned LEB128 as the DEX format uses it: 32-bit values in at most five bytes. */
module Uleb128 {
  import opened Bytes

  const U32_SPAN: int := 0x1_0000_0000

  // 1 << 7k
  function Scale(k: nat): nat
    requires k <= 5
  {
    match k case 0 => 1 case 1 => 0x80 case 2 => 0x4000 case 3 => 0x20_0000 case 4 => 0x1000_0000
            case 5 => 0x8_0000_0000
  }

  // The seven payload bits of byte number k in place; bits beyond the 32nd are dropped.
  function Bits(byte: U8, k: nat): (b: U32)
    requires k <= 4
  {
    byte % 0x80 * Scale(k) % U32_SPAN
  }

  lemma BitsFit(byte: U8, k: nat, acc: U32)
    requires k <= 4 && acc < Scale(k)
    ensures acc + Bits(byte, k) < Scale(k + 1) && acc + Bits(byte, k) < U32_SPAN
  {
    match k case 0 => case 1 => case 2 => case 3 => case 4 =>
  }

  // Reading byte number k at p. The seven new bits lie above everything in `acc`, so the
  // source's bitwise or is an addition.
  function ReadFrom(buf: Buf, p: nat, k: nat, acc: U32): (r: Result<(nat, U32)>)
    requires k <= 5 && acc < Scale(k)
    ensures r.Ok? ==> p < r.value.0 <= |buf|
    decreases 5 - k
  {
    if k == 5 || p >= |buf| then Err
    else
      BitsFit(buf[p], k, acc);
      var acc' := acc + Bits(buf[p], k);
      if buf[p] < 0x80 then Ok((p + 1, acc')) else ReadFrom(buf, p + 1, k + 1, acc')
  }

  // Next offset and value, or an error on a truncated or over-long number.
  function Read(buf: Buf, off: nat): (r: Result<(nat, U32)>)
    ensures r.Ok? ==> off < r.value.0 <= |buf|
  {
    ReadFrom(buf, off, 0, 0)
  }

  method ReadUleb128(buf: Buf, off: nat) returns (r: Result<(nat, U32)>)
    ensures r == Read(buf, off)
  {
    hide Scale, Bits;
    var result: U32, p: nat := 0, off;
    assert result < Scale(0) by { ScaleZero(); }
    for k := 0 to 5
      invariant result < Scale(k)
      invariant Read(buf, off) == ReadFrom(buf, p, k, result)
    {
      if p >= |buf| {
        return Err;
      }
      var byte := buf[p];
      p := p + 1;
      BitsFit(byte, k, result);
      result := result + Bits(byte, k);
      if byte < 0x80 {
        return Ok((p, result));
      }
    }
    return Err;
  }

  lemma ScaleZero()
    ensures Scale(0) == 1
  {
  }

  function Encode(v: nat): (s: Buf)
    ensures |s| > 0
  {
    if v < 0x80 then [v] else [v % 0x80 + 0x80] + Encode(v / 0x80)
  }

  method PushUleb128(out: Buf, value: U32) returns (r: Buf)
    ensures r == out + Encode(value)
  {
    r := out;
    var v := value;
    while true
      invariant 0 <= v
      invariant out + Encode(value) == r + Encode(v)
      decreases v
    {
      var byte := v % 0x80;
      var rest := v / 0x80;
      if rest == 0 {
        r := r + [byte];
        return;
      }
      Associative(r, [byte + 0x80], Encode(rest));
      r := r + [byte + 0x80];
      v := rest;
    }
  }

  lemma {:induction false} ReadEncoded(buf: Buf, p: nat, k: nat, acc: U32, v: nat)
    requires k <= 4 && acc < Scale(k) && v * Scale(k) < U32_SPAN
    requires At(buf, p, Encode(v))
    ensures acc + v * Scale(k) < U32_SPAN
    ensures ReadFrom(buf, p, k, acc) == Ok((p + |Encode(v)|, acc + v * Scale(k)))
    decreases 5 - k
  {
    hide Scale, Bits;
    assert buf[p] == buf[p..p + |Encode(v)|][0];
    BitsFit(buf[p], k, acc);
    if v >= 0x80 {
      AtSplit(buf, p, [v % 0x80 + 0x80], Encode(v / 0x80));
      Digit(v, k, acc);
      ReadEncoded(buf, p + 1, k + 1, acc + Bits(v % 0x80, k), v / 0x80);
    } else {
      Digit(v, k, acc);
      assert v / 0x80 * Scale(k + 1) == 0;
    }
  }

  // Splitting off the low seven bits of a value that fits.
  lemma Digit(v: nat, k: nat, acc: U32)
    requires k <= 4 && acc < Scale(k) && v * Scale(k) < U32_SPAN
    ensures v >= 0x80 ==> k < 4 && v / 0x80 * Scale(k + 1) < U32_SPAN
    ensures Bits(v % 0x80, k) == Bits(v % 0x80 + 0x80, k)
    ensures v * Scale(k) == Bits(v % 0x80, k) + v / 0x80 * Scale(k + 1)
    ensures acc + v * Scale(k) < U32_SPAN
  {
    SplitDigit(v / 0x80, v % 0x80, k, acc);
  }

  lemma SplitDigit(q: nat, r: nat, k: nat, acc: U32)
    requires k <= 4 && r < 0x80 && acc < Scale(k) && (0x80 * q + r) * Scale(k) < U32_SPAN
    ensures q > 0 ==> k < 4 && q * Scale(k + 1) < U32_SPAN
    ensures Bits(r, k) == Bits(r + 0x80, k) == r * Scale(k)
    ensures (0x80 * q + r) * Scale(k) == r * Scale(k) + q * Scale(k + 1)
    ensures acc + (0x80 * q + r) * Scale(k) < U32_SPAN
  {
    assert (r + 0x80) % 0x80 == r % 0x80 == r;
    match k case 0 => case 1 => case 2 => case 3 => case 4 =>
  }

  // Decoding inverts encoding for every 32-bit value, wherever it stands.
  lemma RoundTrip(buf: Buf, p: nat, v: U32)
    requires At(buf, p, Encode(v))
    ensures Read(buf, p) == Ok((p + |Encode(v)|, v))
  {
    ReadEncoded(buf, p, 0, 0, v);
  }
}
