/** The one-frame reader of the control channel, and how far it agrees with the parser. */
module ReadFrame {
  import opened Bytes
  import opened Framing

  // What one read on the transport meets: some bytes, or an error. No delivery left is the
  // end of the stream; so is a read of no bytes.
  datatype Delivery = Data(bytes: Buf) | Failure

  const FIRST_READ: nat := 4096

  datatype Outcome<T> = Outcome(result: Result<T>, left: seq<Delivery>)

  // One read into a buffer of max bytes.
  function Read(ds: seq<Delivery>, max: nat): (o: Outcome<Buf>)
    ensures o.result.Ok? ==> |o.result.value| <= max
  {
    if ds == [] then Outcome(Ok([]), [])
    else match ds[0]
      case Failure => Outcome(Err, ds[1..])
      case Data(b) =>
        if |b| <= max then Outcome(Ok(b), ds[1..])
        else Outcome(Ok(b[..max]), [Data(b[max..])] + ds[1..])
  }

  // Reads until n bytes are there.
  function ReadExact(ds: seq<Delivery>, n: nat): (o: Outcome<Buf>)
    ensures o.result.Ok? ==> |o.result.value| == n
    decreases n
  {
    if n == 0 then Outcome(Ok([]), ds)
    else
      var r := Read(ds, n);
      if r.result.Err? || r.result.value == [] then Outcome(Err, r.left)
      else
        var rest := ReadExact(r.left, n - |r.result.value|);
        if rest.result.Err? then rest
        else Outcome(Ok(r.result.value + rest.result.value), rest.left)
  }

  // The first read holds the header.
  predicate CoversHeader(first: Buf) {
    |first| >= 4 && |first| >= HeaderLength(first[1])
  }

  function FrameOf(first: Buf, payload: Buf): Frame
    requires CoversHeader(first)
  {
    var kind := FromFlags(first[1]);
    Frame(first[0], kind, first[1] / 4 % 2 == 1, first[1] / 8 % 2 == 1,
          if kind == First then Some(FromBE(first[4..8]) % 0x1_0000_0000) else None, payload)
  }

  function Min(a: nat, b: nat): nat { if a <= b then a else b }

  function ReadOne(ds: seq<Delivery>): Outcome<Frame> {
    var r := Read(ds, FIRST_READ);
    if r.result.Err? || !CoversHeader(r.result.value) then Outcome(Err, r.left)
    else
      var first := r.result.value;
      var head, length := HeaderLength(first[1]), PayloadLength(first);
      var have := first[head..head + Min(|first| - head, length)];
      var more := ReadExact(r.left, length - |have|);
      if more.result.Err? then Outcome(Err, more.left)
      else Outcome(Ok(FrameOf(first, have + more.result.value)), more.left)
  }

  // ---- the reader, on a stateful transport ------------------------------------------------

  class Stream {
    var deliveries: seq<Delivery>

    constructor (ds: seq<Delivery>)
      ensures deliveries == ds
    {
      deliveries := ds;
    }

    method Receive(max: nat) returns (r: Result<Buf>)
      modifies this
      ensures Outcome(r, deliveries) == Read(old(deliveries), max)
    {
      if deliveries == [] {
        return Ok([]);
      }
      match deliveries[0] {
        case Failure =>
          deliveries := deliveries[1..];
          return Err;
        case Data(b) =>
          if |b| <= max {
            deliveries := deliveries[1..];
            return Ok(b);
          }
          deliveries := [Data(b[max..])] + deliveries[1..];
          return Ok(b[..max]);
      }
    }

    method ReceiveExact(n: nat) returns (r: Result<Buf>)
      modifies this
      ensures Outcome(r, deliveries) == ReadExact(old(deliveries), n)
    {
      hide Read;
      var got: Buf := [];
      ghost var all := ReadExact(deliveries, n);
      assert all.result.Ok? ==> got + all.result.value == all.result.value;
      while |got| < n
        invariant |got| <= n
        invariant var rest := ReadExact(deliveries, n - |got|);
                  ReadExact(old(deliveries), n) ==
                  if rest.result.Err? then rest else Outcome(Ok(got + rest.result.value), rest.left)
        decreases n - |got|
      {
        ghost var before, was := deliveries, got;
        var piece := Receive(n - |got|);
        if piece.Err? || piece.value == [] {
          return Err;
        }
        got := got + piece.value;
        ghost var rest := ReadExact(deliveries, n - |got|);
        if rest.result.Ok? {
          Associative(was, piece.value, rest.result.value);
        }
      }
      assert got + [] == got;
      return Ok(got);
    }

    method ReadFrame() returns (r: Result<Frame>)
      modifies this
      ensures Outcome(r, deliveries) == ReadOne(old(deliveries))
    {
      hide Read, ReadExact;
      var first := Receive(FIRST_READ);
      if first.Err? {
        return Err;
      }
      var buf := first.value;
      if |buf| < 4 {
        return Err;
      }
      var flags := buf[1];
      var length: nat := PayloadLength(buf);
      var consumed: nat := 4;
      var kind := FromFlags(flags);
      var total := None;
      if kind == First {
        if |buf| < consumed + 4 {
          return Err;
        }
        total := Some(FromBE(buf[4..8]) % 0x1_0000_0000);
        consumed := consumed + 4;
      }
      var fromBuf := Min(|buf| - consumed, length);
      var payload := buf[consumed..consumed + fromBuf];
      if fromBuf < length {
        var more := ReceiveExact(length - fromBuf);
        if more.Err? {
          return Err;
        }
        payload := payload + more.value;
      } else {
        ReadNothing(deliveries);
        assert payload + [] == payload;
      }
      return Ok(Frame(buf[0], kind, flags / 4 % 2 == 1, flags / 8 % 2 == 1, total, payload));
    }
  }

  lemma ReadNothing(ds: seq<Delivery>)
    ensures ReadExact(ds, 0) == Outcome(Ok([]), ds)
  {
  }

  // ---- agreement with Framing.Parse -----------------------------------------------------------

  // All pieces still to come hold bytes.
  predicate Flowing(ds: seq<Delivery>) {
    forall k :: 0 <= k < |ds| ==> ds[k].Data? && ds[k].bytes != []
  }

  function Pending(ds: seq<Delivery>): Buf
    requires Flowing(ds)
  {
    if ds == [] then [] else ds[0].bytes + Pending(ds[1..])
  }

  lemma ReadTakes(ds: seq<Delivery>, max: nat)
    requires Flowing(ds) && max > 0
    ensures var r := Read(ds, max);
            && Flowing(r.left) && r.result.Ok?
            && Pending(ds) == r.result.value + Pending(r.left)
            && (r.result.value == [] <==> Pending(ds) == [])
  {
    if ds != [] && |ds[0].bytes| > max {
      var b := ds[0].bytes;
      var left := [Data(b[max..])] + ds[1..];
      assert left[1..] == ds[1..];
      Associative(b[..max], b[max..], Pending(ds[1..]));
      assert b == b[..max] + b[max..];
    }
  }

  // However the bytes are cut into pieces.
  lemma {:induction false} ReadExactTakes(ds: seq<Delivery>, n: nat)
    requires Flowing(ds)
    ensures var r := ReadExact(ds, n);
            && (r.result.Ok? <==> n <= |Pending(ds)|)
            && (r.result.Ok? ==> Flowing(r.left) && r.result.value == Pending(ds)[..n] && Pending(r.left) == Pending(ds)[n..])
    decreases n
  {
    hide Read, Pending;
    if n > 0 {
      ReadTakes(ds, n);
      var r := Read(ds, n);
      var got := r.result.value;
      if got != [] {
        ReadExactTakes(r.left, n - |got|);
        if n <= |got| + |Pending(r.left)| {
          Halves(got, Pending(r.left), n);
        }
      }
    }
  }

  lemma Halves(a: Buf, b: Buf, n: nat)
    requires |a| <= n <= |a| + |b|
    ensures (a + b)[..n] == a + b[..n - |a|] && (a + b)[n..] == b[n - |a|..]
  {
  }

  function FrameEnd(b: Buf): nat
    requires |b| >= 4
  {
    HeaderLength(b[1]) + PayloadLength(b)
  }

  lemma ParseParts(b: Buf)
    ensures Parse(b).Complete? <==> |b| >= 4 && |b| >= FrameEnd(b)
    ensures Parse(b).Complete? ==>
              && Parse(b).frame == FrameOf(b, b[HeaderLength(b[1])..FrameEnd(b)])
              && Parse(b).rest == b[FrameEnd(b)..]
  {
  }

  // The header of b is the header of its first piece.
  lemma SameHeader(first: Buf, tail: Buf, payload: Buf)
    requires CoversHeader(first)
    ensures var b := first + tail;
            && CoversHeader(b) && HeaderLength(b[1]) == HeaderLength(first[1]) && FrameEnd(b) == FrameEnd(first)
            && FrameOf(b, payload) == FrameOf(first, payload)
  {
    var b := first + tail;
    assert b[2..4] == first[2..4];
    if HeaderLength(first[1]) == 8 {
      assert b[4..8] == first[4..8];
    }
  }

  // What the payload is made of.
  lemma PayloadParts(first: Buf, tail: Buf, head: nat, end: nat)
    requires head <= |first| && head <= end <= |first| + |tail|
    ensures var have := first[head..head + Min(|first| - head, end - head)];
            && have + tail[..end - head - |have|] == (first + tail)[head..end]
            && tail[end - head - |have|..] == (first + tail)[if |first| >= end then |first| else end..]
  {
    var have := first[head..head + Min(|first| - head, end - head)];
    if |first| >= end {
      assert have == first[head..end] && tail[..0] == [] && tail[0..] == tail;
      assert have + [] == have;
      Halves(first, tail, |first|);
      assert (first + tail)[head..end] == first[head..end];
    } else {
      assert have == first[head..];
      Halves(first, tail, end);
      var all := first + tail[..end - |first|];
      assert (first + tail)[..end] == all;
      assert (first + tail)[head..end] == all[head..] == first[head..] + tail[..end - |first|];
    }
  }

  /**
   * Main result. Whatever the pieces, the reader returns a frame exactly when its first read
   * covers the header and the whole frame arrives; it is the frame Parse finds, and what is
   * then still to come starts after the frame or after the first read, whichever is later.
   */
  lemma ReaderAgrees(ds: seq<Delivery>)
    requires Flowing(ds)
    ensures var (b, first, r) := (Pending(ds), Read(ds, 4096).result, ReadOne(ds));
            && first.Ok?
            && (r.result.Ok? <==> CoversHeader(first.value) && Parse(b).Complete?)
            && (r.result.Ok? ==>
                  && r.result.value == Parse(b).frame && Flowing(r.left)
                  && Pending(r.left) == b[if |first.value| >= FrameEnd(b) then |first.value| else FrameEnd(b)..])
  {
    hide Read, ReadExact, Pending, Flowing, FrameOf, Parse, PayloadLength, HeaderLength;
    ReadTakes(ds, 4096);
    var first, left := Read(ds, 4096).result.value, Read(ds, 4096).left;
    var b, tail := Pending(ds), Pending(left);
    ParseParts(b);
    if CoversHeader(first) {
      var head, end := HeaderLength(first[1]), FrameEnd(first);
      SameHeader(first, tail, b[head..Min(end, |b|)]);
      PayloadGathered(first, left);
    }
  }

  // What the rest of the pieces adds to the first read.
  lemma PayloadGathered(first: Buf, left: seq<Delivery>)
    requires CoversHeader(first) && Flowing(left)
    ensures var head, end, b := HeaderLength(first[1]), FrameEnd(first), first + Pending(left);
            var have := first[head..head + Min(|first| - head, PayloadLength(first))];
            var r := ReadExact(left, PayloadLength(first) - |have|);
            && (r.result.Ok? <==> |b| >= end)
            && (r.result.Ok? ==> Flowing(r.left) && have + r.result.value == b[head..end]
                                 && Pending(r.left) == b[if |first| >= end then |first| else end..])
  {
    hide ReadExact, Pending, Flowing, PayloadLength, HeaderLength;
    var head, end, tail := HeaderLength(first[1]), FrameEnd(first), Pending(left);
    var have := first[head..head + Min(|first| - head, PayloadLength(first))];
    ReadExactTakes(left, end - head - |have|);
    if |first + tail| >= end {
      PayloadParts(first, tail, head, end);
    }
  }

  // So the reader leaves the parser's remainder exactly when its first read does not pass
  // the end of the frame.
  lemma RemainderKept(ds: seq<Delivery>)
    requires Flowing(ds) && ReadOne(ds).result.Ok?
    ensures Parse(Pending(ds)).Complete? && Flowing(ReadOne(ds).left)
    ensures Pending(ReadOne(ds).left) == Parse(Pending(ds)).rest
            <==> |Read(ds, 4096).result.value| <= FrameEnd(Pending(ds))
  {
    hide Read, ReadOne, Pending, Parse, FrameEnd;
    ReaderAgrees(ds);
    ReadTakes(ds, 4096);
    ParseParts(Pending(ds));
  }

  // Two frames delivered together: the second is lost.
  lemma OvershootLosesAFrame(f: Frame, g: Frame)
    requires WellFormed(f) && WellFormed(g) && |Encode(f)| + |Encode(g)| <= 4096
    ensures ReadOne([Data(Encode(f) + Encode(g))]) == Outcome(Ok(f), [])
  {
    hide Encode, ReadExact, Parse, FrameOf;
    var b := Encode(f) + Encode(g);
    var ds := [Data(b)];
    RoundTrip(f, Encode(g));
    ParseParts(b);
    assert Read(ds, 4096) == Outcome(Ok(b), []);
    assert Pending(ds) == b + Pending([]) == b;
    ReaderAgrees(ds);
    ReadNothing([]);
  }

  lemma {:induction false} ExactAligned(ds: seq<Delivery>, later: seq<Delivery>)
    requires Flowing(ds)
    ensures ReadExact(ds + later, |Pending(ds)|) == Outcome(Ok(Pending(ds)), later)
    decreases |ds|
  {
    if ds == [] {
      assert ds + later == later;
    } else {
      var n := |Pending(ds)|;
      assert (ds + later)[1..] == ds[1..] + later;
      assert Read(ds + later, n) == Outcome(Ok(ds[0].bytes), ds[1..] + later);
      ExactAligned(ds[1..], later);
    }
  }

  lemma OneAligned(f: Frame, ds: seq<Delivery>, later: seq<Delivery>)
    requires WellFormed(f) && Flowing(ds) && Pending(ds) == Encode(f)
    requires Read(ds, 4096).result.Ok? && CoversHeader(Read(ds, 4096).result.value)
    ensures ReadOne(ds + later) == Outcome(Ok(f), later)
  {
    hide Read, ReadExact, Pending, Encode, Parse, PayloadLength, HeaderLength, FrameOf;
    var first, left := Read(ds, 4096).result.value, Read(ds, 4096).left;
    ReadTakes(ds, 4096);
    ReadAppend(ds, later);
    RoundTrip(f, []);
    assert Encode(f) + [] == Encode(f);
    var b, tail := Pending(ds), Pending(left);
    ParseParts(b);
    var head, end := HeaderLength(first[1]), FrameEnd(first);
    SameHeader(first, tail, b[head..Min(end, |b|)]);
    PayloadParts(first, tail, head, end);
    assert |b| == end;
    ExactAligned(left, later);
    assert tail[..|tail|] == tail;
  }

  lemma ReadAppend(ds: seq<Delivery>, later: seq<Delivery>)
    requires Read(ds, 4096).result.Ok? && Read(ds, 4096).result.value != []
    ensures Read(ds + later, 4096).result == Read(ds, 4096).result
    ensures Read(ds + later, 4096).left == Read(ds, 4096).left + later
  {
    assert (ds + later)[1..] == ds[1..] + later;
  }

  function Flatten(groups: seq<seq<Delivery>>): seq<Delivery> {
    if groups == [] then [] else groups[0] + Flatten(groups[1..])
  }

  function ReadMany(ds: seq<Delivery>, n: nat): Outcome<seq<Frame>>
    decreases n
  {
    if n == 0 then Outcome(Ok([]), ds)
    else
      var r := ReadOne(ds);
      if r.result.Err? then Outcome(Err, r.left)
      else
        var rest := ReadMany(r.left, n - 1);
        if rest.result.Err? then rest else Outcome(Ok([r.result.value] + rest.result.value), rest.left)
  }

  // The pieces that carry one frame.
  predicate Carries(ds: seq<Delivery>, f: Frame) {
    && Flowing(ds) && WellFormed(f) && Pending(ds) == Encode(f)
    && Read(ds, 4096).result.Ok? && CoversHeader(Read(ds, 4096).result.value)
  }

  /** A sender whose pieces never straddle two frames is read back frame by frame. */
  lemma {:induction false} AlignedStream(fs: seq<Frame>, groups: seq<seq<Delivery>>, later: seq<Delivery>)
    requires |groups| == |fs| && forall k :: 0 <= k < |fs| ==> Carries(groups[k], fs[k])
    ensures ReadMany(Flatten(groups) + later, |fs|) == Outcome(Ok(fs), later)
    decreases |fs|
  {
    hide ReadOne, Encode, Flowing, WellFormed, Pending, Read, CoversHeader;
    if fs == [] {
      assert [] + later == later;
    } else {
      var rest := Flatten(groups[1..]) + later;
      assert Flatten(groups) + later == groups[0] + rest by { Associative(groups[0], Flatten(groups[1..]), later); }
      assert Carries(groups[0], fs[0]);
      OneAligned(fs[0], groups[0], rest);
      AlignedStream(fs[1..], groups[1..], later);
      assert fs == [fs[0]] + fs[1..];
    }
  }
}
