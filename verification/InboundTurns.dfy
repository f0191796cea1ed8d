/**
 * The control loop's inbound branch. The one-frame reader is a future that the loop's select
 * drops whenever an outbound branch completes first; bytes it has already taken go with it.
 */
module InboundTurns {
  import opened Bytes
  import opened Framing
  import opened ReadFrame

  // Where the reader stands: before its first read, or with part of the payload.
  datatype Reader = Fresh | Waiting(first: Buf, payload: Buf)

  datatype Inbound = Inbound(ds: seq<Delivery>, reader: Reader, frames: seq<Frame>, closed: bool)

  // One read of the reader completes, or an outbound branch does.
  datatype Turn = Poll | Outbound

  predicate Consistent(s: Inbound) {
    s.reader.Waiting? ==>
      CoversHeader(s.reader.first) && |s.reader.payload| < PayloadLength(s.reader.first)
  }

  function Collected(s: Inbound, first: Buf, payload: Buf): (r: Inbound)
    requires CoversHeader(first) && |payload| <= PayloadLength(first)
    ensures Consistent(r)
  {
    if |payload| == PayloadLength(first) then s.(reader := Fresh, frames := s.frames + [FrameOf(first, payload)])
    else s.(reader := Waiting(first, payload))
  }

  function OnTurn(s: Inbound, turn: Turn): (r: Inbound)
    requires Consistent(s)
    ensures Consistent(r)
  {
    if s.closed then s
    else match (turn, s.reader)
      case (Outbound, _) => s.(reader := Fresh)
      case (Poll, Fresh) =>
        var r := Read(s.ds, FIRST_READ);
        if r.result.Err? || !CoversHeader(r.result.value) then s.(ds := r.left, closed := true)
        else
          var first := r.result.value;
          var head := HeaderLength(first[1]);
          Collected(s.(ds := r.left), first, first[head..head + Min(|first| - head, PayloadLength(first))])
      case (Poll, Waiting(first, payload)) =>
        var r := Read(s.ds, PayloadLength(first) - |payload|);
        if r.result.Err? || r.result.value == [] then s.(ds := r.left, closed := true)
        else Collected(s.(ds := r.left), first, payload + r.result.value)
  }

  function Turns(s: Inbound, turns: seq<Turn>): (r: Inbound)
    requires Consistent(s)
    ensures Consistent(r)
    decreases |turns|
  {
    if turns == [] then s else Turns(OnTurn(s, turns[0]), turns[1..])
  }

  function Polls(s: Inbound, n: nat): (r: Inbound)
    requires Consistent(s)
    ensures Consistent(r)
    decreases n
  {
    if n == 0 then s else Polls(OnTurn(s, Poll), n - 1)
  }

  // ---- undisturbed, the reader is ReadOne ------------------------------------------------------

  // The reads that complete a payload; in front of each the reader is waiting.
  lemma {:induction false} PayloadPolls(s: Inbound, f: Outcome<Buf>) returns (n: nat)
    requires Consistent(s) && !s.closed && s.reader.Waiting?
    requires f == ReadExact(s.ds, PayloadLength(s.reader.first) - |s.reader.payload|) && f.result.Ok?
    ensures n > 0
    ensures var frame := FrameOf(s.reader.first, s.reader.payload + f.result.value);
            Polls(s, n) == Inbound(f.left, Fresh, s.frames + [frame], false)
    ensures forall j :: 0 <= j < n ==> Polls(s, j).reader.Waiting? && !Polls(s, j).closed && Polls(s, j).frames == s.frames
    decreases PayloadLength(s.reader.first) - |s.reader.payload|
  {
    hide PayloadLength, Read, FrameOf;
    var first, payload := s.reader.first, s.reader.payload;
    var need := PayloadLength(first) - |payload|;
    var r := Read(s.ds, need);
    var t := OnTurn(s, Poll);
    var rest := ReadExact(r.left, need - |r.result.value|);
    Associative(payload, r.result.value, rest.result.value);
    if |r.result.value| == need {
      n := 1;
      assert Polls(s, 1) == Polls(t, 0) == t;
      assert r.result.value + [] == r.result.value;
    } else {
      var m := PayloadPolls(t, rest);
      n := m + 1;
      forall j | 0 <= j < n
        ensures Polls(s, j).reader.Waiting? && !Polls(s, j).closed && Polls(s, j).frames == s.frames
      {
        if j > 0 {
          assert Polls(s, j) == Polls(t, j - 1);
        }
      }
    }
  }

  // A frame that the reader gets in one go comes out after some n reads; in between the
  // reader holds bytes of it.
  lemma FramePolls(s: Inbound) returns (n: nat)
    requires !s.closed && s.reader == Fresh && ReadOne(s.ds).result.Ok?
    ensures n > 0
    ensures Polls(s, n) == Inbound(ReadOne(s.ds).left, Fresh, s.frames + [ReadOne(s.ds).result.value], false)
    ensures forall j :: 0 < j < n ==> Polls(s, j).reader.Waiting? && !Polls(s, j).closed && Polls(s, j).frames == s.frames
  {
    hide PayloadLength, Read, FrameOf, ReadExact, HeaderLength;
    var r := Read(s.ds, FIRST_READ);
    var first := r.result.value;
    var t := OnTurn(s, Poll);
    if t.reader == Fresh {
      ReadNothing(r.left);
      n := 1;
      assert Polls(s, 1) == Polls(t, 0) == t;
      var head := HeaderLength(first[1]);
      var have := first[head..head + Min(|first| - head, PayloadLength(first))];
      assert have + [] == have;
    } else {
      var m := PayloadPolls(t, ReadExact(r.left, PayloadLength(first) - |t.reader.payload|));
      n := m + 1;
      forall j | 0 < j < n
        ensures Polls(s, j).reader.Waiting? && !Polls(s, j).closed && Polls(s, j).frames == s.frames
      {
        assert Polls(s, j) == Polls(t, j - 1);
      }
    }
  }

  // ---- when a frame survives -----------------------------------------------------------------------

  /**
   * A frame that arrives in pieces of its own takes n reads. An outbound branch that completes
   * after j of them is harmless if and only if j is 0 or n; otherwise the reader forgets the
   * bytes it took, and no frame has come of them.
   */
  lemma FrameSurvives(s: Inbound, f: Frame, ds: seq<Delivery>, later: seq<Delivery>) returns (n: nat)
    requires !s.closed && s.reader == Fresh && s.ds == ds + later && Carries(ds, f)
    ensures n > 0 && Polls(s, n) == Inbound(later, Fresh, s.frames + [f], false)
    ensures forall j :: 0 <= j <= n ==> (OnTurn(Polls(s, j), Outbound) == Polls(s, j) <==> j == 0 || j == n)
    ensures forall j :: 0 < j < n ==> OnTurn(Polls(s, j), Outbound).frames == s.frames
  {
    hide Carries, ReadOne;
    assert ReadOne(s.ds) == Outcome(Ok(f), later) by { CarriedFrame(f, ds, later); }
    n := FramePolls(s);
  }

  lemma CarriedFrame(f: Frame, ds: seq<Delivery>, later: seq<Delivery>)
    requires Carries(ds, f)
    ensures ReadOne(ds + later) == Outcome(Ok(f), later)
  {
    OneAligned(f, ds, later);
  }

  // A losing run: header and payload in two pieces, an outbound branch in between. The next
  // read takes the payload for a header.
  lemma LosingRun(f: Frame)
    requires WellFormed(f) && f.payload != []
    ensures Turns(Inbound([Data(Header(f)), Data(f.payload)], Fresh, [], false), [Poll, Outbound])
            == Inbound([Data(f.payload)], Fresh, [], false)
  {
    var s := Inbound([Data(Header(f)), Data(f.payload)], Fresh, [], false);
    var h := Header(f);
    assert Read(s.ds, FIRST_READ) == Outcome(Ok(h), [Data(f.payload)]);
    HeaderAlone(f);
    assert OnTurn(s, Poll).reader.Waiting?;
    assert [Poll, Outbound][1..] == [Outbound] && [Outbound][1..] == [];
    var t := OnTurn(s, Poll);
    assert OnTurn(t, Outbound) == Inbound([Data(f.payload)], Fresh, [], false);
    assert Turns(t, [Outbound]) == Turns(OnTurn(t, Outbound), []);
  }

  lemma HeaderAlone(f: Frame)
    requires WellFormed(f)
    ensures var h := Header(f);
            CoversHeader(h) && HeaderLength(h[1]) == |h| && PayloadLength(h) == |f.payload|
  {
    FlagsDecode(f);
    var h := Header(f);
    HeaderDecodes(f, []);
    var b := Encode(f) + [];
    assert h[1] == b[1] && h[2..4] == b[2..4];
  }

  // ---- whole runs -------------------------------------------------------------------------------------

  // No outbound branch completes while the reader holds bytes.
  predicate Undisturbed(s: Inbound, turns: seq<Turn>)
    requires Consistent(s)
    decreases |turns|
  {
    turns == [] || ((turns[0] == Outbound ==> s.reader == Fresh) && Undisturbed(OnTurn(s, turns[0]), turns[1..]))
  }

  function PollCount(turns: seq<Turn>): nat {
    if turns == [] then 0 else (if turns[0] == Poll then 1 else 0) + PollCount(turns[1..])
  }

  lemma {:induction false} UndisturbedIsPolls(s: Inbound, turns: seq<Turn>)
    requires Consistent(s) && Undisturbed(s, turns)
    ensures Turns(s, turns) == Polls(s, PollCount(turns))
    decreases |turns|
  {
    hide OnTurn;
    if turns != [] {
      UndisturbedIsPolls(OnTurn(s, turns[0]), turns[1..]);
      if turns[0] == Outbound {
        FreshStays(s);
      }
    }
  }

  lemma FreshStays(s: Inbound)
    requires s.reader == Fresh
    ensures OnTurn(s, Outbound) == s
  {
  }

  lemma {:induction false} PollsAdd(s: Inbound, m: nat, n: nat)
    requires Consistent(s)
    ensures Polls(s, m + n) == Polls(Polls(s, m), n)
    decreases m
  {
    hide OnTurn;
    if m > 0 {
      PollsAdd(OnTurn(s, Poll), m - 1, n);
    }
  }

  lemma {:induction false} AllPolls(s: Inbound, fs: seq<Frame>, groups: seq<seq<Delivery>>, later: seq<Delivery>)
    returns (n: nat)
    requires !s.closed && s.reader == Fresh && s.ds == Flatten(groups) + later
    requires |groups| == |fs| && forall k :: 0 <= k < |fs| ==> Carries(groups[k], fs[k])
    ensures Polls(s, n) == Inbound(later, Fresh, s.frames + fs, false)
    decreases |fs|
  {
    hide Carries, OnTurn;
    if fs == [] {
      n := 0;
      assert [] + later == later && s.frames + [] == s.frames;
    } else {
      var rest := Flatten(groups[1..]) + later;
      Associative(groups[0], Flatten(groups[1..]), later);
      var m := FrameSurvives(s, fs[0], groups[0], rest);
      var t := Polls(s, m);
      var k := AllPolls(t, fs[1..], groups[1..], later);
      n := m + k;
      PollsAdd(s, m, k);
      assert s.frames + [fs[0]] + fs[1..] == s.frames + fs;
    }
  }

  /**
   * Frames that arrive in pieces of their own are all received, in order, by a loop whose
   * outbound branches complete only between frames.
   */
  lemma UndisturbedFrames(fs: seq<Frame>, groups: seq<seq<Delivery>>, later: seq<Delivery>) returns (n: nat)
    requires |groups| == |fs| && forall k :: 0 <= k < |fs| ==> Carries(groups[k], fs[k])
    ensures forall turns ::
              var s := Inbound(Flatten(groups) + later, Fresh, [], false);
              Undisturbed(s, turns) && PollCount(turns) == n ==> Turns(s, turns) == Inbound(later, Fresh, fs, false)
  {
    hide Carries, OnTurn, Turns, Undisturbed, Polls;
    var s := Inbound(Flatten(groups) + later, Fresh, [], false);
    n := AllPolls(s, fs, groups, later);
    assert [] + fs == fs;
    forall turns | Undisturbed(s, turns) && PollCount(turns) == n
      ensures Turns(s, turns) == Inbound(later, Fresh, fs, false)
    {
      UndisturbedIsPolls(s, turns);
    }
  }
}
