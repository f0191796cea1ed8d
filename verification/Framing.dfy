/** Frames on the wire: channel, flags, length, optional total length, payload. */
module Framing {
  import opened Bytes

  datatype FrameType = Middle | First | Last | Bulk

  function FromFlags(flags: U8): FrameType {
    match flags % 4
    case 3 => Bulk
    case 1 => First
    case 2 => Last
    case _ => Middle
  }

  function Bits(t: FrameType): U8 {
    match t
    case Middle => 0
    case First => 1
    case Last => 2
    case Bulk => 3
  }

  datatype Frame = Frame(channel: U8, kind: FrameType, control: bool, encrypted: bool, total: Option<U32>, payload: Buf)

  // What the wire can carry.
  predicate WellFormed(f: Frame) {
    |f.payload| < 0x1_0000 && (f.total.Some? <==> f.kind == First)
  }

  function Flags(f: Frame): U8 {
    Bits(f.kind) + (if f.control then 4 else 0) + (if f.encrypted then 8 else 0)
  }

  function Header(f: Frame): (h: Buf)
    ensures |h| == if f.kind == First && f.total.Some? then 8 else 4
  {
    [f.channel, Flags(f)] + BE(|f.payload|, 2) + (if f.kind == First && f.total.Some? then BE(f.total.value, 4) else [])
  }

  function Encode(f: Frame): Buf { Header(f) + f.payload }

  datatype Parsed = Incomplete | Complete(frame: Frame, rest: Buf)

  function HeaderLength(flags: U8): nat { if FromFlags(flags) == First then 8 else 4 }

  function PayloadLength(buf: Buf): U16
    requires |buf| >= 4
  {
    FromBE(buf[2..4]) % 0x1_0000
  }

  function Parse(buf: Buf): (p: Parsed)
    ensures p.Complete? ==> |p.rest| < |buf|
  {
    if |buf| < 4 then Incomplete
    else
      var head, length := HeaderLength(buf[1]), PayloadLength(buf);
      if |buf| < head + length then Incomplete
      else
        var kind := FromFlags(buf[1]);
        var total := if kind == First then Some(FromBE(buf[4..8]) % 0x1_0000_0000) else None;
        Complete(Frame(buf[0], kind, buf[1] / 4 % 2 == 1, buf[1] / 8 % 2 == 1, total, buf[head..head + length]),
                 buf[head + length..])
  }

  // ---- the buffer, changed in place ------------------------------------------------------

  class BytesMut {
    var data: Buf

    constructor ()
      ensures data == []
    {
      data := [];
    }

    method Put(s: Buf)
      modifies this
      ensures data == old(data) + s
    {
      data := data + s;
    }

    method SplitTo(n: nat) returns (s: Buf)
      requires n <= |data|
      modifies this
      ensures s == old(data)[..n] && data == old(data)[n..]
    {
      s := data[..n];
      data := data[n..];
    }
  }

  method EncodeInto(f: Frame, dst: BytesMut)
    modifies dst
    ensures dst.data == old(dst.data) + Encode(f)
  {
    var flags := Bits(f.kind);
    if f.control {
      flags := flags + 4;
    }
    if f.encrypted {
      flags := flags + 8;
    }
    dst.Put([f.channel]);
    dst.Put([flags]);
    dst.Put(BE(|f.payload|, 2));
    if f.kind == First && f.total.Some? {
      dst.Put(BE(f.total.value, 4));
    }
    dst.Put(f.payload);
    assert dst.data == old(dst.data) + (Header(f) + f.payload);
  }

  /** Consumes one frame, or nothing when the buffer does not hold a whole one. */
  method ParseFrame(buf: BytesMut) returns (r: Option<Frame>)
    modifies buf
    ensures match Parse(old(buf.data))
            case Incomplete => r == None && buf.data == old(buf.data)
            case Complete(f, rest) => r == Some(f) && buf.data == rest
  {
    ghost var was := buf.data;
    if |buf.data| < 4 {
      return None;
    }
    var flags := buf.data[1];
    var kind := FromFlags(flags);
    var length: nat := PayloadLength(buf.data);
    var head: nat := if kind == First then 8 else 4;
    if |buf.data| < head + length {
      return None;
    }
    var prefix := buf.SplitTo(4);
    var total := None;
    if kind == First {
      var word := buf.SplitTo(4);
      assert word == was[4..8];
      total := Some(FromBE(word) % 0x1_0000_0000);
    }
    assert buf.data == was[head..];
    var payload := buf.SplitTo(length);
    assert payload == was[head..head + length] && buf.data == was[head + length..];
    return Some(Frame(prefix[0], kind, flags / 4 % 2 == 1, flags / 8 % 2 == 1, total, payload));
  }

  // ---- round trip ---------------------------------------------------------------------------

  lemma ParsedIsWellFormed(buf: Buf)
    requires Parse(buf).Complete?
    ensures WellFormed(Parse(buf).frame)
  {
  }

  lemma FlagsDecode(f: Frame)
    ensures FromFlags(Flags(f)) == f.kind
    ensures Flags(f) / 4 % 2 == 1 <==> f.control
    ensures Flags(f) / 8 % 2 == 1 <==> f.encrypted
  {
  }

  // Each flag is one bit of the second byte.
  lemma FlagBits(f: Frame)
    ensures Flags(f) % 2 == 1 <==> f.kind in {First, Bulk}
    ensures Flags(f) / 2 % 2 == 1 <==> f.kind in {Last, Bulk}
    ensures Flags(f) / 4 % 2 == 1 <==> f.control
    ensures Flags(f) / 8 % 2 == 1 <==> f.encrypted
    ensures Flags(f) < 16
  {
    match f.kind case Middle => case First => case Last => case Bulk =>
  }

  lemma HeaderDecodes(f: Frame, rest: Buf)
    requires WellFormed(f)
    ensures var b := Encode(f) + rest;
            && |b| >= 4 && b[0] == f.channel && b[1] == Flags(f) && PayloadLength(b) == |f.payload|
            && (f.kind == First ==> |b| >= 8 && FromBE(b[4..8]) == f.total.value)
  {
    hide BE, FromBE, Flags;
    var b := Encode(f) + rest;
    PowersOf256();
    BERoundTrip(|f.payload|, 2);
    assert b[2..4] == BE(|f.payload|, 2);
    if f.kind == First {
      BERoundTrip(f.total.value, 4);
      assert b[4..8] == BE(f.total.value, 4);
    }
  }

  // Most significant byte first.
  function Short(a: int, b: int): int { 256 * a + b }
  function Long(a: int, b: int, c: int, d: int): int { 0x100_0000 * a + 0x1_0000 * b + 0x100 * c + d }

  /** The bytes on the wire: channel, flags, big-endian length, total length on First, payload. */
  lemma WireLayout(f: Frame)
    requires WellFormed(f)
    ensures var b := Encode(f);
            && |b| >= 4 && b[0] == f.channel && b[1] == Flags(f) && Short(b[2], b[3]) == |f.payload|
            && (f.kind == First ==>
                  |b| == 8 + |f.payload| && b[8..] == f.payload
                  && Long(b[4], b[5], b[6], b[7]) == f.total.value)
            && (f.kind != First ==> |b| == 4 + |f.payload| && b[4..] == f.payload)
  {
    var b := Encode(f);
    TwoBytes(|f.payload|);
    assert b[2] == BE(|f.payload|, 2)[0] && b[3] == BE(|f.payload|, 2)[1];
    if f.kind == First {
      FourBytes(f.total.value);
      var w := BE(f.total.value, 4);
      assert b[4] == w[0] && b[5] == w[1] && b[6] == w[2] && b[7] == w[3];
    }
  }

  lemma TwoBytes(n: nat)
    requires n < 0x1_0000
    ensures Short(BE(n, 2)[0], BE(n, 2)[1]) == n
  {
    assert BE(n, 2) == BE(n / 256, 1) + [n % 256];
    assert BE(n / 256, 1) == BE(n / 256 / 256, 0) + [n / 256 % 256];
  }

  lemma FourBytes(n: nat)
    requires n < 0x1_0000_0000
    ensures var w := BE(n, 4); Long(w[0], w[1], w[2], w[3]) == n
  {
    var h := n / 0x1_0000;
    assert n / 256 / 256 == h;
    assert BE(n, 4) == BE(n / 256, 3) + [n % 256];
    assert BE(n / 256, 3) == BE(h, 2) + [n / 256 % 256];
    TwoBytes(h);
  }

  // Parsing an encoding gives the frame back exactly when the wire can carry it.
  lemma RoundTrip(f: Frame, rest: Buf)
    ensures Parse(Encode(f) + rest) == Complete(f, rest) <==> WellFormed(f)
  {
    var b := Encode(f) + rest;
    if WellFormed(f) {
      HeaderDecodes(f, rest);
      FlagsDecode(f);
      var n := |Header(f)|;
      assert b == Header(f) + f.payload + rest;
      assert b[n..n + |f.payload|] == f.payload && b[n + |f.payload|..] == rest;
    } else if Parse(b).Complete? {
      ParsedIsWellFormed(b);
    }
  }

  // What was parsed is what was sent, up to the four flag bits nobody reads.
  lemma ParsedBytes(b: Buf)
    requires Parse(b).Complete?
    ensures b == Encode(Parse(b).frame) + Parse(b).rest <==> b[1] < 16
  {
    hide Encode, Flags, Parse, HeaderLength, PayloadLength;
    var f, rest := Parse(b).frame, Parse(b).rest;
    ParsedFlags(b);
    ParsedEncode(b);
    ParsedSplit(b);
    var tail := b[2..HeaderLength(b[1])] + f.payload;
    Associative([b[0], Flags(f)], tail, rest);
    if b == Encode(f) + rest {
      assert b[1] == Flags(f);
    }
  }

  lemma ParsedFlags(b: Buf)
    requires Parse(b).Complete?
    ensures |b| >= 4 && Flags(Parse(b).frame) == b[1] % 16
  {
    hide Flags;
    FlagsOfParsed(b[1], Parse(b).frame);
  }

  lemma ParsedSplit(b: Buf)
    requires Parse(b).Complete?
    ensures 4 <= HeaderLength(b[1]) <= |b|
    ensures b == [b[0], b[1]] + ((b[2..HeaderLength(b[1])] + Parse(b).frame.payload) + Parse(b).rest)
  {
    hide PayloadLength;
    var n, end := HeaderLength(b[1]), HeaderLength(b[1]) + PayloadLength(b);
    assert b[2..] == (b[2..n] + b[n..end]) + b[end..];
    assert b == [b[0], b[1]] + b[2..];
  }

  lemma LengthField(b: Buf)
    requires |b| >= 4
    ensures BE(PayloadLength(b), 2) == b[2..4]
  {
    PowersOf256();
    FromBEBound(b[2..4]);
    BEOfFromBE(b[2..4]);
  }

  lemma TotalField(w: Buf)
    requires |w| == 4
    ensures BE(FromBE(w) % 0x1_0000_0000, 4) == w
  {
    PowersOf256();
    FromBEBound(w);
    BEOfFromBE(w);
  }

  lemma ParsedEncode(b: Buf)
    requires Parse(b).Complete?
    ensures var f := Parse(b).frame;
            Encode(f) == [b[0], Flags(f)] + (b[2..HeaderLength(b[1])] + f.payload)
  {
    hide Flags, BE, FromBE, PayloadLength;
    var f := Parse(b).frame;
    LengthField(b);
    if f.kind == First {
      TotalField(b[4..8]);
      assert b[2..8] == b[2..4] + b[4..8];
    }
    assert |f.payload| == PayloadLength(b);
    assert Encode(f) == Header(f) + f.payload;
  }

  lemma FlagsOfParsed(flags: U8, f: Frame)
    requires f.kind == FromFlags(flags)
    requires f.control == (flags / 4 % 2 == 1) && f.encrypted == (flags / 8 % 2 == 1)
    ensures Flags(f) == flags % 16
  {
    hide FromFlags;
    NibbleSum(flags);
    assert Bits(f.kind) == flags % 4 by { BitsOfFlags(flags); }
  }

  lemma BitsOfFlags(flags: U8)
    ensures Bits(FromFlags(flags)) == flags % 4
  {
  }

  lemma NibbleSum(n: nat)
    ensures n % 16 == n % 4 + 4 * (n / 4 % 2) + 8 * (n / 8 % 2)
  {
    var a := n / 4;
    var b := a / 2;
    EighthIsHalfQuarter(n);
    Mod16(b / 2, n % 4 + 4 * (a % 2) + 8 * (b % 2));
  }

  lemma EighthIsHalfQuarter(n: nat)
    ensures n / 4 / 2 == n / 8
  {
  }

  lemma Mod16(c: nat, r: nat)
    requires r < 16
    ensures (16 * c + r) % 16 == r
  {
  }

  lemma {:induction false} BEOfFromBE(s: Buf)
    ensures BE(FromBE(s), |s|) == s
    decreases |s|
  {
    if s != [] {
      BEOfFromBE(s[..|s| - 1]);
      assert s == s[..|s| - 1] + [s[|s| - 1]];
    }
  }

  // ---- incremental parsing ----------------------------------------------------------------------

  // Bytes that arrive later do not change a frame already complete.
  lemma ParseExtends(b: Buf, more: Buf)
    requires Parse(b).Complete?
    ensures Parse(b + more) == Complete(Parse(b).frame, Parse(b).rest + more)
  {
    var head, end := HeaderLength(b[1]), HeaderLength(b[1]) + PayloadLength(b);
    var c := b + more;
    assert c[0] == b[0] && c[1] == b[1] && c[2..4] == b[2..4];
    if head == 8 {
      assert c[4..8] == b[4..8];
    }
    assert c[head..end] == b[head..end];
    DropAppend(b, more, end);
  }

  lemma DropAppend(b: Buf, more: Buf, k: nat)
    requires k <= |b|
    ensures (b + more)[k..] == b[k..] + more
  {
  }

  // No strict prefix of an encoding parses.
  lemma PrefixIsIncomplete(f: Frame, k: nat)
    requires WellFormed(f) && k < |Encode(f)|
    ensures Parse(Encode(f)[..k]) == Incomplete
  {
    hide Encode, Parse;
    var b, p := Encode(f), Encode(f)[..k];
    RoundTrip(f, []);
    assert b + [] == b;
    if Parse(p).Complete? {
      assert p + b[k..] == b;
      ParseExtends(p, b[k..]);
      assert false;
    }
  }

  // The frames taken out so far, and the bytes that do not make a frame yet.
  datatype Progress = Progress(frames: seq<Frame>, left: Buf)

  function After(fs: seq<Frame>, p: Progress): Progress { Progress(fs + p.frames, p.left) }

  lemma AfterTwice(fs: seq<Frame>, gs: seq<Frame>, p: Progress)
    ensures After(fs, After(gs, p)) == After(fs + gs, p)
    ensures After([], p) == p
  {
    Associative(fs, gs, p.frames);
  }

  function ParseAll(b: Buf): Progress
    decreases |b|
  {
    match Parse(b)
    case Incomplete => Progress([], b)
    case Complete(f, rest) => After([f], ParseAll(rest))
  }

  method ParseFrames(buf: BytesMut) returns (fs: seq<Frame>)
    modifies buf
    ensures Progress(fs, buf.data) == ParseAll(old(buf.data))
  {
    hide Parse;
    fs := [];
    AfterTwice([], [], ParseAll(buf.data));
    while true
      invariant ParseAll(old(buf.data)) == After(fs, ParseAll(buf.data))
      decreases |buf.data|
    {
      AfterTwice(fs, [], ParseAll(buf.data));
      var f := ParseFrame(buf);
      if f == None {
        return;
      }
      AfterTwice(fs, [f.value], ParseAll(buf.data));
      fs := fs + [f.value];
    }
  }

  lemma {:induction false} ParseAllSplit(a: Buf, c: Buf)
    ensures ParseAll(a + c) == After(ParseAll(a).frames, ParseAll(ParseAll(a).left + c))
    decreases |a|
  {
    hide Parse;
    if Parse(a).Complete? {
      var f, rest := Parse(a).frame, Parse(a).rest;
      ParseExtends(a, c);
      ParseAllSplit(rest, c);
      AfterTwice([f], ParseAll(rest).frames, ParseAll(ParseAll(rest).left + c));
    }
  }

  // The frames a reader gets out when the bytes arrive in these chunks.
  function Fed(buffered: Buf, chunks: seq<Buf>): Progress
    decreases |chunks|
  {
    if chunks == [] then Progress([], buffered)
    else
      var now := ParseAll(buffered + chunks[0]);
      After(now.frames, Fed(now.left, chunks[1..]))
  }

  method Feed(buf: BytesMut, chunks: seq<Buf>) returns (fs: seq<Frame>)
    modifies buf
    ensures Progress(fs, buf.data) == Fed(old(buf.data), chunks)
  {
    hide ParseAll;
    fs := [];
    AfterTwice([], [], Fed(buf.data, chunks));
    for i := 0 to |chunks|
      invariant Fed(old(buf.data), chunks) == After(fs, Fed(buf.data, chunks[i..]))
    {
      assert chunks[i..][1..] == chunks[i + 1..];
      buf.Put(chunks[i]);
      var now := ParseFrames(buf);
      AfterTwice(fs, now, Fed(buf.data, chunks[i + 1..]));
      fs := fs + now;
    }
  }

  // Nothing is left to parse in what the last chunk left behind.
  lemma {:induction false} LeftIsIncomplete(b: Buf)
    ensures Parse(ParseAll(b).left) == Incomplete
    decreases |b|
  {
    hide Parse;
    if Parse(b).Complete? {
      LeftIsIncomplete(Parse(b).rest);
    }
  }

  // The chunks do not matter.
  lemma {:induction false} ChunksDoNotMatter(buffered: Buf, chunks: seq<Buf>)
    requires Parse(buffered) == Incomplete
    ensures Fed(buffered, chunks) == ParseAll(buffered + Concat(chunks))
    decreases |chunks|
  {
    hide Parse;
    if chunks == [] {
      assert buffered + [] == buffered;
    } else {
      var c, tail := chunks[0], Concat(chunks[1..]);
      var now := ParseAll(buffered + c);
      LeftIsIncomplete(buffered + c);
      ChunksDoNotMatter(now.left, chunks[1..]);
      ParseAllSplit(buffered + c, tail);
      Associative(buffered, c, tail);
    }
  }

  function EncodeAll(fs: seq<Frame>): Buf {
    if fs == [] then [] else Encode(fs[0]) + EncodeAll(fs[1..])
  }

  predicate AllWellFormed(fs: seq<Frame>) { forall k :: 0 <= k < |fs| ==> WellFormed(fs[k]) }

  lemma {:induction false} ParseAllEncoded(fs: seq<Frame>, rest: Buf)
    requires AllWellFormed(fs) && Parse(rest) == Incomplete
    ensures ParseAll(EncodeAll(fs) + rest) == Progress(fs, rest)
    decreases |fs|
  {
    hide Parse, Encode, WellFormed;
    if fs == [] {
      assert [] + rest == rest;
    } else {
      var tail := EncodeAll(fs[1..]);
      ParseAllEncoded(fs[1..], rest);
      RoundTrip(fs[0], tail + rest);
      Associative(Encode(fs[0]), tail, rest);
      assert fs == [fs[0]] + fs[1..];
    }
  }

  /**
   * Main result: well-formed frames, followed by a part of one more, come out whole and in
   * order however their bytes are cut into reads; the part stays buffered.
   */
  lemma AnyChunking(fs: seq<Frame>, next: Frame, k: nat, chunks: seq<Buf>)
    requires AllWellFormed(fs) && WellFormed(next) && k < |Encode(next)|
    requires Concat(chunks) == EncodeAll(fs) + Encode(next)[..k]
    ensures Fed([], chunks) == Progress(fs, Encode(next)[..k])
  {
    hide Encode, EncodeAll, Fed, ParseAll;
    PrefixIsIncomplete(next, k);
    ParseAllEncoded(fs, Encode(next)[..k]);
    ChunksDoNotMatter([], chunks);
    assert [] + Concat(chunks) == Concat(chunks);
  }
}
