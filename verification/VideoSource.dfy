/** The video sources: the streaming splitter over screenrecord's output, and the test pattern. */
module VideoSource {
  import opened Bytes
  import opened Nal

  const U64_MAX: int := 0xFFFF_FFFF_FFFF_FFFF

  function SaturatingAdd(a: U64, b: U64): U64 {
    if a + b > U64_MAX then U64_MAX else a + b
  }

  datatype VideoFrame = VideoFrame(annexB: Buf, ptsUs: U64, keyframe: bool)

  // What one read of the child's stdout yields.
  datatype Read = Data(bytes: Buf) | Eof | Failed

  // ---- what the stream received so far determines -----------------------------

  // Units complete in S: the slice units of the batch grouping in front of the last start code.
  function CompleteUnits(S: Buf): seq<Buf> {
    if LastCode(S) < 0 then [] else SliceUnits(AccessUnits(S[..LastCode(S)]))
  }

  // First byte of S that belongs to no complete unit (and to no leading garbage once a
  // start code is known).
  function Cut(S: Buf): (t: nat)
    ensures t <= |S|
  {
    var l := LastCode(S);
    if l < 0 then 0
    else
      GroupedShape(S[..l]);
      l - |Grouped(S[..l]).current|
  }

  lemma CutIsCode(S: Buf)
    requires LastCode(S) >= 0
    ensures IsCode(S, Cut(S)) && Cut(S) <= LastCode(S)
    ensures S[Cut(S)..LastCode(S)] == Grouped(S[..LastCode(S)]).current
    ensures CompleteUnits(S) == Grouped(S[..LastCode(S)]).units
  {
    hide LastCode, Nals, IsCode, Grouped, SliceUnits, AccessUnits, NoSlice, WellFormedUnit;
    var l := LastCode(S);
    GroupedShape(S[..l]);
    SliceUnitsAreFlushed(S[..l]);
    CodeTake(S, l, Cut(S));
  }

  // Grouping the part in front of the cut leaves nothing pending.
  lemma {:induction false} NothingPendingAtCut(b: Buf)
    ensures var g := Grouped(b);
            |g.current| <= |b| && Grouped(b[..|b| - |g.current|]) == Grouping(g.units, [])
    decreases |b|
  {
    var g := Grouped(b);
    if g.current == [] {
      assert b[..|b|] == b;
    } else {
      var l := LastCode(b);
      var c := b[..l];
      var h := Grouped(c);
      GroupedStep(b);
      NothingPendingAtCut(c);
      assert g == Grouping(h.units, h.current + b[l..]);
      assert c[..l - |h.current|] == b[..|b| - |g.current|];
    }
  }

  // ---- one read ---------------------------------------------------------------

  // What next_frame does with `leftover` after a read: the units queued and what stays.
  function Drained(leftover: Buf): (r: (seq<Buf>, Buf))
  {
    var l := LastCode(leftover);
    if l < 0 then ([], leftover)
    else
      var g := Grouped(leftover[..l]);
      (g.units, g.current + leftover[l..])
  }

  // Appending input keeps the cut a start code and the part before it unchanged.
  lemma CutSurvives(S: Buf, c: Buf)
    requires LastCode(S) >= 0
    ensures IsCode(S + c, Cut(S)) && Cut(S) <= LastCode(S + c)
    ensures (S + c)[..Cut(S)] == S[..Cut(S)]
    ensures Grouped((S + c)[..Cut(S)]) == Grouping(CompleteUnits(S), [])
  {
    hide LastCode, Nals, IsCode, Cut, CompleteUnits;
    CutIsCode(S);
    var l, t := LastCode(S), Cut(S);
    CodeAppend(S, c, t);
    assert (S + c)[..t] == S[..t] == S[..l][..t];
    NothingPendingAtCut(S[..l]);
  }

  // Grouping the stretch in front of a later start code may restart at the old cut.
  lemma RestartAtCut(S: Buf, c: Buf)
    requires LastCode(S) >= 0
    ensures var l, t := LastCode(S + c), Cut(S);
            && t <= l
            && Grouped((S + c)[..l]).units == CompleteUnits(S) + Grouped((S + c)[t..l]).units
            && Grouped((S + c)[..l]).current == Grouped((S + c)[t..l]).current
  {
    hide LastCode, Nals;
    CutSurvives(S, c);
    var S', t := S + c, Cut(S);
    var l := LastCode(S');
    var b := S'[..l];
    assert b[..t] == S'[..t] && b[t..] == S'[t..l];
    if t < l {
      CodeTake(S', l, t);
      GroupedRestart(b, t);
    } else {
      GroupedEmpty();
      assert b == b[..t] && S'[t..l] == [];
    }
  }

  lemma GroupedEmpty()
    ensures Grouped([]) == Grouping([], [])
  {
    assert LastCode([]) == -1;
  }

  // The streaming step computes what the batch form computes on the longer stream.
  lemma StepMatchesBatch(S: Buf, c: Buf)
    ensures var (units, rest) := Drained(S[Cut(S)..] + c);
            CompleteUnits(S + c) == CompleteUnits(S) + units && rest == (S + c)[Cut(S + c)..]
  {
    hide LastCode, Nals, Grouped, SliceUnits, AccessUnits, IsCode;
    var S', t := S + c, Cut(S);
    var l := LastCode(S');
    assert S[t..] + c == S'[t..];
    if LastCode(S) < 0 {
      assert S'[t..] == S';
    } else {
      CutSurvives(S, c);
      LastCodeDrop(S', t);
      RestartAtCut(S, c);
    }
    if l >= 0 {
      CutIsCode(S');
      assert S'[t..][..l - t] == S'[t..l] && S'[t..][l - t..] == S'[l..];
      assert S'[Cut(S')..l] + S'[l..] == S'[Cut(S')..];
    }
  }

  // Conservation: complete units followed by the kept bytes are the stream from its first
  // start code on; before any start code everything is kept.
  lemma StreamKeepsBytes(S: Buf, first: int)
    requires IsCode(S, first) && forall i :: 0 <= i < first ==> !IsCode(S, i)
    ensures Concat(CompleteUnits(S)) + S[Cut(S)..] == S[first..]
  {
    hide LastCode, Nals, Grouped, IsCode, Cut, CompleteUnits, Concat;
    CodeInside(S, first);
    var l := LastCode(S);
    CutIsCode(S);
    var b := S[..l];
    var u, c := Grouped(b).units, Grouped(b).current;
    CodesInFront(S, first);
    assert S[Cut(S)..] == c + S[l..];
    if first < l {
      GroupedBytes(b, first);
      Associative(Concat(u), c, S[l..]);
      assert b[first..] + S[l..] == S[first..];
    } else {
      NoCodesNoUnits(b);
      ConcatNone();
      assert Concat(u) + (c + S[l..]) == S[l..];
    }
  }

  lemma NoCodesNoUnits(b: Buf)
    requires LastCode(b) == -1
    ensures Grouped(b) == Grouping([], [])
  {
    assert Nals(b) == [];
  }

  lemma CodesInFront(S: Buf, first: int)
    requires IsCode(S, first) && forall i :: 0 <= i < first ==> !IsCode(S, i)
    ensures var b := S[..LastCode(S)];
            && (forall i :: 0 <= i < first ==> !IsCode(b, i))
            && (if first < LastCode(S) then IsCode(b, first) else LastCode(b) == -1)
  {
    var l := LastCode(S);
    CodeTake(S, l, first);
    forall i | 0 <= i < first ensures !IsCode(S[..l], i) { CodeTake(S, l, i); }
  }

  // Parameter sets travel with the next slice: every unit is non-slice NALs closed by one slice.
  lemma UnitsEndInTheirSlice(S: Buf)
    ensures forall k :: 0 <= k < |CompleteUnits(S)| ==> WellFormedUnit(CompleteUnits(S)[k])
  {
    if LastCode(S) >= 0 {
      CutIsCode(S);
      GroupedShape(S[..LastCode(S)]);
    }
  }

  // In header bytes: every complete unit holds exactly one picture, its last NAL, and what
  // waits in front of the last start code holds none.
  lemma CompleteUnitsByHeader(S: Buf)
    ensures forall k :: 0 <= k < |CompleteUnits(S)| ==> ClosedByPicture(CompleteUnits(S)[k])
    ensures LastCode(S) >= 0 ==>
              && Cut(S) <= LastCode(S) && NoPicture(S[Cut(S)..LastCode(S)])
              && NalsOf(CompleteUnits(S)) + Nals(S[Cut(S)..LastCode(S)]) == Nals(S[..LastCode(S)])
  {
    hide LastCode, Nals, Grouped, ClosedByPicture, NoPicture, NalsOf, Cut, AccessUnits, SliceUnits;
    if LastCode(S) >= 0 {
      CutIsCode(S);
      UnitsByHeader(S[..LastCode(S)]);
    }
  }

  function Times(k: nat, step: nat): nat { k * step }

  lemma TimesStep(k: nat, step: nat)
    ensures Times(k + 1, step) == Times(k, step) + step
  {
  }

  lemma WrapAround(i: nat, n: nat)
    requires i < n
    ensures (i + 1) % n == if i + 1 == n then 0 else i + 1
  {
  }

  // Presentation time of the k-th frame.
  function PtsOf(k: nat, interval: U64): U64 {
    if Times(k, interval) > 0xFFFF_FFFF_FFFF_FFFF then 0xFFFF_FFFF_FFFF_FFFF else Times(k, interval)
  }

  lemma PtsStep(k: nat, interval: U64)
    ensures SaturatingAdd(PtsOf(k, interval), interval) == PtsOf(k + 1, interval)
    ensures PtsOf(k, interval) <= PtsOf(k + 1, interval)
  {
    assert Times(k + 1, interval) == Times(k, interval) + interval;
  }

  // Group what lies in front of the last start code; a last unit without a slice is taken
  // back and put in front of the bytes that stay.
  method Drain(buffer: Buf) returns (aus: seq<Buf>, leftover: Buf)
    ensures (aus, leftover) == Drained(buffer)
  {
    aus, leftover := [], buffer;
    var last := FindLastStartCode(buffer);
    if last.Some? {
      var completed := buffer[..last.value];
      leftover := buffer[last.value..];
      assert completed == [] ==> LastCode(completed) == -1;
      if completed != [] {
        aus := GroupAccessUnits(completed);
        if aus != [] {
          LastUnitSlice(completed);
          var hasSlice := AuHasSlice(aus[|aus| - 1]);
          if !hasSlice {
            leftover := aus[|aus| - 1] + leftover;
            aus := aus[..|aus| - 1];
          }
        }
      }
      assert [] + buffer[last.value..] == buffer[last.value..];
      assert aus == Grouped(completed).units;
      assert leftover == Grouped(completed).current + buffer[last.value..];
    }
  }

  lemma ReceiveKeepsInvariant(emitted: seq<Buf>, queued: seq<Buf>, S: Buf, chunk: Buf)
    requires emitted + queued == CompleteUnits(S)
    ensures var (units, rest) := Drained(S[Cut(S)..] + chunk);
            && emitted + (queued + units) == CompleteUnits(S + chunk)
            && rest == (S + chunk)[Cut(S + chunk)..]
  {
    hide CompleteUnits, Cut, Drained;
    StepMatchesBatch(S, chunk);
    Associative(emitted, queued, Drained(S[Cut(S)..] + chunk).0);
  }

  // A read that ends the wait for a frame.
  predicate NoData(read: Read) { !(read.Data? && read.bytes != []) }

  class ScreenRecordVideoSource {
    // Outcomes of the reads still to come; `None` once the source is closed.
    var stdout: Option<seq<Read>>
    var leftover: Buf
    var queued: seq<Buf>
    var ptsUs: U64
    const frameIntervalUs: U64

    ghost var taken: seq<Read>    // the reads made so far
    ghost var received: Buf       // the bytes they delivered
    ghost var emitted: seq<Buf>   // the access units handed out so far

    ghost predicate Valid()
      reads this`leftover, this`queued, this`ptsUs, this`taken, this`received, this`emitted
    {
      && received == DataOf(taken)
      && emitted + queued == CompleteUnits(received)
      && leftover == received[Cut(received)..]
      && ptsUs == PtsOf(|emitted|, frameIntervalUs)
    }

    constructor (script: seq<Read>, fps: U32)
      ensures Valid() && received == [] && taken == [] && emitted == [] && stdout == Some(script)
      ensures frameIntervalUs == 1_000_000 / (if fps > 1 then fps else 1)
    {
      stdout := Some(script);
      leftover := [];
      queued := [];
      ptsUs := 0;
      frameIntervalUs := 1_000_000 / (if fps > 1 then fps else 1);
      taken := [];
      received := [];
      emitted := [];
      new;
      assert LastCode([]) == -1;
    }

    // The work after one successful read.
    method Receive(chunk: Buf)
      requires Valid()
      modifies this`leftover, this`queued, this`received, this`taken
      ensures Valid() && taken == old(taken) + [Data(chunk)]
    {
      hide CompleteUnits, Cut, Drained, LastCode, PtsOf;
      ReceiveKeepsInvariant(emitted, queued, received, chunk);
      DataOfSnoc(taken, Data(chunk));
      UnitsAreNonEmpty(leftover + chunk);
      leftover := leftover + chunk;
      var aus: seq<Buf>;
      aus, leftover := Drain(leftover);
      AppendNonEmpty(aus);
      taken := taken + [Data(chunk)];
      received := received + chunk;
    }

    method AppendNonEmpty(aus: seq<Buf>)
      modifies this`queued
      ensures (forall k :: 0 <= k < |aus| ==> aus[k] != []) ==> queued == old(queued) + aus
    {
      for k := 0 to |aus|
        invariant (forall j :: 0 <= j < k ==> aus[j] != []) ==> queued == old(queued) + aus[..k]
      {
        assert aus[..k + 1] == aus[..k] + [aus[k]];
        if aus[k] != [] {
          queued := queued + [aus[k]];
        }
      }
      assert aus[..|aus|] == aus;
    }

    method NextFrame() returns (frame: Option<VideoFrame>)
      requires Valid()
      modifies this
      ensures Valid()
      ensures frame == None ==> emitted == old(emitted) && queued == []
      // it ends only when closed, out of reads, or on a read made now that brought nothing
      ensures frame == None ==>
                || stdout == None || stdout.value == []
                || (|taken| > |old(taken)| && NoData(taken[|taken| - 1]))
      ensures frame.Some? ==>
                && emitted == old(emitted) + [frame.value.annexB]
                && frame.value.ptsUs == PtsOf(|old(emitted)|, frameIntervalUs)
                && frame.value.keyframe == HasIdr(frame.value.annexB)
      // reads are taken whole and in order, and none once closed
      ensures stdout.Some? == old(stdout).Some?
      ensures stdout.Some? ==> taken + stdout.value == old(taken) + old(stdout).value
      ensures stdout == None ==> taken == old(taken)
    {
      hide Valid, PtsOf, HasIdr;
      while true
        invariant Valid() && emitted == old(emitted)
        invariant stdout.Some? == old(stdout).Some?
        invariant stdout.Some? ==> taken + stdout.value == old(taken) + old(stdout).value
        invariant stdout == None ==> taken == old(taken)
        invariant |taken| >= |old(taken)|
        decreases if stdout.Some? then |stdout.value| else 0
      {
        if queued != [] {
          frame := PopFront();
          return;
        }
        if stdout == None || stdout.value == [] {
          return None;
        }
        ghost var read, rest := stdout.value[0], stdout.value[1..];
        assert stdout.value == [read] + rest;
        Associative(taken, [read], rest);
        var more := ReadOnce();
        if !more {
          return None;
        }
      }
    }

    // End of file and a failed read end the wait; the bytes of any other are worked in.
    method ReadOnce() returns (more: bool)
      requires Valid() && stdout.Some? && stdout.value != []
      modifies this`stdout, this`leftover, this`queued, this`received, this`taken
      ensures Valid()
      ensures stdout == Some(old(stdout).value[1..]) && taken == old(taken) + [old(stdout).value[0]]
      ensures more <==> !NoData(old(stdout).value[0])
      ensures !more ==> queued == old(queued)
    {
      hide Valid;
      var read := stdout.value[0];
      stdout := Some(stdout.value[1..]);
      if read.Data? && read.bytes != [] {
        Receive(read.bytes);
        return true;
      }
      Record(read);
      return false;
    }

    ghost method Record(read: Read)
      requires Valid() && NoData(read)
      modifies this`taken
      ensures Valid() && taken == old(taken) + [read]
    {
      hide CompleteUnits, Cut, PtsOf, DataOf;
      DataOfSnoc(taken, read);
      taken := taken + [read];
      assert received + [] == received;
    }

    method PopFront() returns (frame: Option<VideoFrame>)
      requires Valid() && queued != []
      modifies this`queued, this`ptsUs, this`emitted
      ensures Valid()
      ensures frame.Some? && emitted == old(emitted) + [frame.value.annexB]
      ensures frame.value.annexB == old(queued)[0] && queued == old(queued)[1..]
      ensures frame.value.ptsUs == PtsOf(|old(emitted)|, frameIntervalUs)
      ensures frame.value.keyframe == HasIdr(frame.value.annexB)
    {
      var au := queued[0];
      assert emitted + queued == (emitted + [au]) + queued[1..];
      queued := queued[1..];
      var keyframe := AuHasIdr(au);
      var pts := ptsUs;
      PtsStep(|emitted|, frameIntervalUs);
      ptsUs := SaturatingAdd(ptsUs, frameIntervalUs);
      emitted := emitted + [au];
      return Some(VideoFrame(au, pts, keyframe));
    }

    method Close()
      requires Valid()
      modifies this`stdout
      ensures Valid() && stdout == None
    {
      stdout := None;
    }
  }

  lemma UnitsAreNonEmpty(buffer: Buf)
    ensures forall k :: 0 <= k < |Drained(buffer).0| ==> Drained(buffer).0[k] != []
  {
    if LastCode(buffer) >= 0 {
      GroupedShape(buffer[..LastCode(buffer)]);
      assert LastCode([]) == -1;
    }
  }

  // The bytes a script of reads delivers.
  function DataOf(script: seq<Read>): Buf {
    if script == [] then []
    else DataOf(script[..|script| - 1]) + if script[|script| - 1].Data? then script[|script| - 1].bytes else []
  }

  lemma DataOfSnoc(script: seq<Read>, read: Read)
    ensures DataOf(script + [read]) == DataOf(script) + if read.Data? then read.bytes else []
  {
    assert (script + [read])[..|script|] == script;
  }

  // The last unit grouped lacks a slice exactly when NALs are pending.
  lemma LastUnitSlice(b: Buf)
    requires AccessUnits(b) != []
    ensures var aus := AccessUnits(b);
            HasSlice(aus[|aus| - 1]) <==> Grouped(b).current == []
  {
    var g := Grouped(b);
    GroupedShape(b);
    if g.current == [] {
      var u := g.units[|g.units| - 1];
      assert AccessUnits(b)[|AccessUnits(b)| - 1] == u;
      assert WellFormedUnit(u);
      assert Nals(u)[|Nals(u)| - 1] in Nals(u);
    }
  }

  // Feeding a list of reads one by one: the units queued so far and the leftover.
  function Feed(chunks: seq<Buf>): (seq<Buf>, Buf) {
    if chunks == [] then ([], [])
    else
      var (units, leftover) := Feed(chunks[..|chunks| - 1]);
      var (more, rest) := Drained(leftover + chunks[|chunks| - 1]);
      (units + more, rest)
  }

  // However the stream is cut into reads, the streaming source yields the slice units of the
  // batch grouping of everything in front of the last start code, and keeps the rest.
  lemma {:induction false} StreamingEqualsBatch(chunks: seq<Buf>)
    ensures var S := Concat(chunks);
            Feed(chunks) == (CompleteUnits(S), S[Cut(S)..])
    decreases |chunks|
  {
    if chunks == [] {
      assert LastCode([]) == -1;
    } else {
      var front, chunk := chunks[..|chunks| - 1], chunks[|chunks| - 1];
      StreamingEqualsBatch(front);
      assert chunks == front + [chunk];
      ConcatAppend(front, [chunk]);
      ConcatOne(chunk);
      StepMatchesBatch(Concat(front), chunk);
    }
  }

  class TestPatternVideoSource {
    const accessUnits: seq<Buf>
    const frameIntervalUs: U64
    var nextIdx: nat
    var ptsUs: U64
    ghost var loops: nat    // completed passes over the pattern
    ghost var frames: nat   // frames emitted in all

    ghost predicate Valid()
      reads this
    {
      && (accessUnits != [] ==> nextIdx < |accessUnits| && frames == Times(loops, |accessUnits|) + nextIdx)
      && ptsUs == PtsOf(frames, frameIntervalUs)
    }

    constructor (stream: Buf)
      ensures Valid() && frames == 0 && accessUnits == AccessUnits(stream)
      ensures frameIntervalUs == 33_333
    {
      var aus := GroupAccessUnits(stream);
      accessUnits := aus;
      frameIntervalUs := 1_000_000 / 30;
      nextIdx := 0;
      ptsUs := 0;
      loops := 0;
      frames := 0;
    }

    // Every pass re-emits the whole pattern, parameter sets included; presentation times
    // keep growing across passes.
    method NextFrame() returns (frame: Option<VideoFrame>)
      requires Valid()
      modifies this
      ensures Valid()
      ensures accessUnits == [] ==> frame == None && frames == old(frames)
      ensures accessUnits != [] ==>
                && frames == old(frames) + 1
                && frame.Some? && frame.value.annexB == accessUnits[old(nextIdx)]
                && old(frames) == Times(old(loops), |accessUnits|) + old(nextIdx)
                && frame.value.ptsUs == PtsOf(old(frames), frameIntervalUs)
                && frame.value.keyframe == HasIdr(frame.value.annexB)
    {
      hide Times, PtsOf;
      if accessUnits == [] {
        return None;
      }
      var au := accessUnits[nextIdx];
      var keyframe := AuHasIdr(au);
      frame := Some(VideoFrame(au, ptsUs, keyframe));
      PtsStep(frames, frameIntervalUs);
      TimesStep(loops, |accessUnits|);
      WrapAround(nextIdx, |accessUnits|);
      if nextIdx + 1 == |accessUnits| {
        loops := loops + 1;
      }
      nextIdx := (nextIdx + 1) % |accessUnits|;
      ptsUs := SaturatingAdd(ptsUs, frameIntervalUs);
      frames := frames + 1;
    }
  }
}
