/**
 * How far the pipeline's flow control reaches: when the cap holds and when it does not, when
 * acked frames give their slots back and when the stream stalls, with runs for both.
 */
module PipelineRuns {
  import opened Pipeline

  // A step of streamer i.
  predicate Own(e: Event, i: nat) { (Plain(e) || e.Pushed? || e.Incremented?) && e.i == i }

  // Events of streamer i alone.
  predicate OnlyBy(es: seq<Event>, i: nat) { forall k :: 0 <= k < |es| ==> Own(es[k], i) }

  // s after its current streamer sent n more frames.
  function SentMore(s: State, n: nat): State
    requires Shape(s)
  {
    var t := s.tallies[s.gen];
    SetTally(s, s.gen, t.(pushed := t.pushed + n)).(inFlight := s.inFlight + n)
  }

  // The second half of a streamer's turn: the frame goes out and the counter rises.
  lemma PushAndCount(s: State, i: nat)
    requires Ready(s, i)
    ensures Leads(Goto(s, i, Push), [Pushed(i)] + ([Incremented(i)] + []), SentMore(s, 1))
  {
    var p := Goto(s, i, Push);
    var q := Step(p, Pushed(i));
    var r := Step(q, Incremented(i));
    assert r.streamers == s.streamers;
    assert r.tallies == SentMore(s, 1).tallies;
    Then(q, Incremented(i), [], r);
    Then(p, Pushed(i), [Incremented(i)] + [], r);
  }

  // The first half: a streamer below the cap gets to its push.
  lemma Approach(s: State, i: nat, es: seq<Event>, t: State)
    requires Ready(s, i) && s.inFlight < s.max
    requires Leads(Goto(s, i, Push), es, t)
    ensures Leads(s, [PassCheck(i)] + ([CapFree(i)] + ([Fetched(i)] + es)), t)
  {
    hide Leads;
    assert Step(Goto(s, i, Fetch), Fetched(i)) == Goto(s, i, Push);
    Then(Goto(s, i, Fetch), Fetched(i), es, t);
    assert Step(Goto(s, i, CheckCap), CapFree(i)) == Goto(s, i, Fetch);
    Then(Goto(s, i, CheckCap), CapFree(i), [Fetched(i)] + es, t);
    Then(s, PassCheck(i), [CapFree(i)] + ([Fetched(i)] + es), t);
  }

  lemma Lap(s: State, i: nat) returns (es: seq<Event>)
    requires Ready(s, i) && s.inFlight < s.max
    ensures Leads(s, es, SentMore(s, 1)) && OnlyBy(es, i)
  {
    hide SentMore, Leads;
    PushAndCount(s, i);
    es := [Pushed(i)] + ([Incremented(i)] + []);
    Approach(s, i, es, SentMore(s, 1));
    es := [PassCheck(i)] + ([CapFree(i)] + ([Fetched(i)] + es));
  }

  lemma {:induction false} Laps(s: State, i: nat, n: nat) returns (es: seq<Event>)
    requires Ready(s, i) && s.inFlight + n <= s.max
    ensures Leads(s, es, SentMore(s, n)) && Ready(SentMore(s, n), i) && OnlyBy(es, i)
    decreases n
  {
    hide Step, Enabled;
    if n == 0 {
      es := [];
      assert SentMore(s, 0).tallies == s.tallies;
    } else {
      hide Leads;
      var first := Lap(s, i);
      var rest := Laps(SentMore(s, 1), i, n - 1);
      assert SentMore(SentMore(s, 1), n - 1).tallies == SentMore(s, n).tallies;
      LeadsOn(s, first, SentMore(s, 1), rest, SentMore(s, n));
      es := first + rest;
    }
  }

  // s after n acks for frames of the earlier generation g.
  function StaleAcked(s: State, g: nat, n: nat): State
    requires Shape(s) && g < s.gen && n <= s.inFlight
  {
    var t, c := s.tallies[g], s.tallies[s.gen];
    s.(tallies := s.tallies[g := t.(acked := t.acked + n)][s.gen := c.(freed := c.freed + n)],
       inFlight := s.inFlight - n)
  }

  lemma StaleAck(s: State, g: nat)
    requires Shape(s) && g < s.gen && s.inFlight > 0 && s.tallies[g].acked < s.tallies[g].pushed
    ensures Step(s, Ack(g)) == StaleAcked(s, g, 1)
  {
    assert Step(s, Ack(g)).tallies == StaleAcked(s, g, 1).tallies;
  }

  lemma {:induction false} StaleAcks(s: State, g: nat, n: nat) returns (es: seq<Event>)
    requires Shape(s) && g < s.gen && n <= s.inFlight && s.tallies[g].acked + n <= s.tallies[g].pushed
    ensures Leads(s, es, StaleAcked(s, g, n))
    decreases n
  {
    hide Step;
    if n == 0 {
      es := [];
      assert StaleAcked(s, g, 0).tallies == s.tallies;
    } else {
      hide Leads;
      var u := StaleAcked(s, g, 1);
      StaleAck(s, g);
      es := StaleAcks(u, g, n - 1);
      assert StaleAcked(u, g, n - 1).tallies == StaleAcked(s, g, n).tallies;
      Then(s, Ack(g), es, StaleAcked(s, g, n));
      es := [Ack(g)] + es;
    }
  }

  /**
   * start() resets the counter before it bumps the generation. In between the old streamer,
   * not yet cancelled, can send a second full allowance: the bound of FlowControl is reached.
   */
  lemma WindowOvershoot(max: nat) returns (es: seq<Event>, s: State)
    ensures Leads(Init(max), es, s)
    ensures s.gen == 1 && |s.tallies| == 2
    ensures s.tallies[1] == ZERO.(pushed := 2 * max, discarded := max)
  {
    hide Leads;
    Starting(Init(max));
    es := STARTING;
    var a := Restarted(Init(max));
    var first := Laps(a, 0, max);
    LeadsOn(Init(max), es, a, first, SentMore(a, max));
    es := es + first;
    var b := Step(SentMore(a, max), StartReset);
    var second := Laps(b, 0, max);
    s := SentMore(b, max);
    Then(SentMore(a, max), StartReset, second, s);
    LeadsOn(Init(max), es, SentMore(a, max), [StartReset] + second, s);
    es := es + ([StartReset] + second);
  }

  /**
   * A head unit that acks each frame it was sent, but the frames of a stopped generation
   * only after the next one filled its allowance, lets that one run to twice the cap.
   */
  lemma StaleAcksOvershoot(max: nat) returns (es: seq<Event>, s: State)
    ensures Leads(Init(max), es, s)
    ensures s.gen == 2 && |s.tallies| == 3
    ensures s.tallies[2] == ZERO.(pushed := 2 * max, freed := max)
    ensures s.tallies[1].acked == s.tallies[1].pushed == max && s.tallies[1].overAcked == 0
  {
    hide Leads;
    Starting(Init(max));
    es := STARTING;
    var a := Restarted(Init(max));
    var first := Laps(a, 0, max);
    var b := SentMore(a, max);
    LeadsOn(Init(max), es, a, first, b);
    es := es + first;
    Starting(b);
    var c := Restarted(b);
    LeadsOn(Init(max), es, b, STARTING, c);
    es := es + STARTING;
    var second := Laps(c, 1, max);
    var d := SentMore(c, max);
    LeadsOn(Init(max), es, c, second, d);
    es := es + second;
    var acks := StaleAcks(d, 1, max);
    var e := StaleAcked(d, 1, max);
    LeadsOn(Init(max), es, d, acks, e);
    es := es + acks;
    var third := Laps(e, 1, max);
    s := SentMore(e, max);
    LeadsOn(Init(max), es, e, third, s);
    es := es + third;
  }

  // ---- when the cap holds -----------------------------------------------------------------------

  // No frame beyond the cap is unacked in the current generation.
  predicate KeepsCap(s: State) {
    |s.tallies| == s.gen + 1 && s.tallies[s.gen].pushed <= s.tallies[s.gen].acked + s.max
  }

  // What the counter reaches when streamer i runs on by itself: a streamer past the cap check
  // increments once more, and one below the cap fills it.
  function Peak(s: State, i: nat): nat
    requires i < |s.streamers|
  {
    var n := s.inFlight + One(s.streamers[i].pc in {Fetch, Push, Inc});
    if n > s.max then n else s.max
  }

  // The frames it pushes until then.
  function Room(s: State, i: nat): (n: nat)
    requires i < |s.streamers|
  {
    Peak(s, i) - s.inFlight - One(s.streamers[i].pc == Inc)
  }

  lemma Onward(s: State, e: Event, es: seq<Event>, t: State, i: nat)
    requires Shape(s) && Enabled(s, e) && Leads(Step(s, e), es, t) && OnlyBy(es, i)
    requires Own(e, i)
    ensures Leads(s, [e] + es, t) && OnlyBy([e] + es, i)
  {
    Then(s, e, es, t);
  }

  // A live current streamer brings its turn to an end.
  lemma FinishTurn(s: State, i: nat) returns (es: seq<Event>, t: State)
    requires Shape(s) && LiveCurrent(s, i) && (s.streamers[i].pc in {CheckCap, Wait} ==> s.inFlight < s.max)
    ensures Leads(s, es, t) && OnlyBy(es, i) && Ready(t, i) && t.max == s.max && t.gen == s.gen
    ensures t.inFlight == s.inFlight + One(s.streamers[i].pc != CheckGen)
    ensures t.tallies[t.gen].acked == s.tallies[s.gen].acked
    ensures t.tallies[t.gen].pushed == s.tallies[s.gen].pushed + One(s.streamers[i].pc !in {CheckGen, Inc})
    decreases match s.streamers[i].pc case CheckGen => 0 case Inc => 1 case Push => 2 case Fetch => 3 case CheckCap => 4 case _ => 5
  {
    var e: Event;
    match s.streamers[i].pc {
      case CheckGen =>
        es, t := [], s;
        Still(s);
        return;
      case Inc => e := Incremented(i);
      case Push => e := Event.Pushed(i);
      case Fetch => e := Fetched(i);
      case CheckCap => e := CapFree(i);
      case Wait => e := Retry(i);
    }
    es, t := FinishTurn(Step(s, e), i);
    Onward(s, e, es, t, i);
    es := [e] + es;
  }

  // Running on by itself, the streamer gets as far as Peak says.
  lemma ReachesPeak(s: State, i: nat) returns (es: seq<Event>, t: State)
    requires Shape(s) && LiveCurrent(s, i)
    ensures Leads(s, es, t) && OnlyBy(es, i) && t.max == s.max && t.gen == s.gen && |t.tallies| == |s.tallies|
    ensures t.tallies[t.gen].acked == s.tallies[s.gen].acked
    ensures t.tallies[t.gen].pushed == s.tallies[s.gen].pushed + Room(s, i)
  {
    hide Leads, Enabled;
    if s.streamers[i].pc in {CheckGen, CheckCap, Wait} && s.inFlight >= s.max {
      es, t := [], s;
      Still(s);
    } else {
      var r;
      es, r := FinishTurn(s, i);
      t := r;
      if r.inFlight < r.max {
        t := SentMore(r, r.max - r.inFlight);
        var more := Laps(r, i, r.max - r.inFlight);
        LeadsOn(s, es, r, more, t);
        es := es + more;
      }
    }
  }

  // Between peaks: k is what the account adds to the counter.
  predicate Under(s: State, i: nat, acked: nat, peak: nat, k: int) {
    && Shape(s) && i < |s.streamers| && Current(s, i) && s.max <= peak
    && var t, pc := s.tallies[s.gen], s.streamers[i].pc;
       && t.acked == acked && t.pushed <= acked + peak + k
       && (Live(pc) ==> t.pushed == acked + s.inFlight + One(pc == Inc) + k
                        && s.inFlight + One(pc in {Fetch, Push, Inc}) <= peak)
  }

  lemma StepStaysUnder(s: State, e: Event, i: nat, acked: nat, peak: nat, k: int)
    requires Under(s, i, acked, peak, k) && Enabled(s, e)
    requires Own(e, i)
    ensures Under(Step(s, e), i, acked, peak, k) && Step(s, e).max == s.max
  {
  }

  lemma {:induction false} StaysUnder(s: State, es: seq<Event>, t: State, i: nat, acked: nat, peak: nat, k: int)
    requires Under(s, i, acked, peak, k) && Leads(s, es, t) && OnlyBy(es, i)
    ensures Under(t, i, acked, peak, k) && t.max == s.max
    decreases |es|
  {
    hide Under, Step, Enabled;
    if es != [] {
      StepStaysUnder(s, es[0], i, acked, peak, k);
      StaysUnder(Step(s, es[0]), es[1..], t, i, acked, peak, k);
    }
  }

  /**
   * The exact condition. In every reachable state, a live current streamer left to itself
   * keeps the cap for ever if and only if what others took off the counter is made up for by
   * what it failed to release, what it started from and what others put on it.
   */
  lemma CapExact(max: nat, es: seq<Event>, s: State, i: nat)
    requires Leads(Init(max), es, s) && LiveCurrent(s, i)
    ensures |s.tallies| == s.gen + 1
    ensures var t := s.tallies[s.gen];
            (forall fs, u :: OnlyBy(fs, i) && Leads(s, fs, u) ==> KeepsCap(u))
            <==> Peak(s, i) + t.freed + t.discarded <= max + t.lost + t.base + t.joined
  {
    hide Leads, OnlyBy, Inv;
    Account(max, es, s, i);
    Reached(max, es, s);
    var t := s.tallies[s.gen];
    var k := t.freed + t.discarded - t.lost - t.base - t.joined;
    if Peak(s, i) + k <= max {
      forall fs, u | OnlyBy(fs, i) && Leads(s, fs, u) ensures KeepsCap(u) {
        StaysUnder(s, fs, u, i, t.acked, Peak(s, i), k);
      }
    } else {
      var fs, u := ReachesPeak(s, i);
      assert !KeepsCap(u);
    }
  }

  lemma Reached(max: nat, es: seq<Event>, s: State)
    requires Leads(Init(max), es, s)
    ensures Inv(s) && Shape(s) && s.max == max
  {
    InitInv(max);
    RunKeepsInv(Init(max), es, s);
  }

  // At the start of a turn with the counter within the cap the condition is the bare balance.
  lemma CapExactAtTurn(max: nat, es: seq<Event>, s: State, i: nat)
    requires Leads(Init(max), es, s) && Ready(s, i) && s.inFlight <= max
    ensures var t := s.tallies[s.gen];
            (forall fs, u :: OnlyBy(fs, i) && Leads(s, fs, u) ==> KeepsCap(u))
            <==> t.freed + t.discarded <= t.lost + t.base + t.joined
  {
    hide Leads;
    CapExact(max, es, s, i);
    Reached(max, es, s);
  }

  // ---- a head unit and a caller that keep the cap ---------------------------------------------------

  // No ack of another generation lowers the counter, and no start meets a streamer still at
  // work for the current one.
  predicate Harmless(s: State, e: Event) {
    && (e.Ack? && e.gen != s.gen ==> s.inFlight == 0)
    && (e.StartReset? ==> !HasLive(s))
  }

  ghost predicate Orderly(s: State, es: seq<Event>)
    decreases |es|
  {
    es == [] || (Shape(s) && Enabled(s, es[0]) && Harmless(s, es[0]) && Orderly(Step(s, es[0]), es[1..]))
  }

  predicate NothingTaken(s: State) {
    forall g :: 0 <= g < |s.tallies| ==> s.tallies[g].freed == 0 && s.tallies[g].discarded == 0
  }

  lemma {:induction false} OrderlyTakesNothing(s: State, es: seq<Event>, t: State)
    requires NothingTaken(s) && Leads(s, es, t) && Orderly(s, es)
    ensures NothingTaken(t)
    decreases |es|
  {
    hide NothingTaken, Step, Enabled, Harmless;
    if es != [] {
      HarmlessTakesNothing(s, es[0]);
      OrderlyTakesNothing(Step(s, es[0]), es[1..], t);
    }
  }

  lemma HarmlessTakesNothing(s: State, e: Event)
    requires Shape(s) && Enabled(s, e) && Harmless(s, e) && NothingTaken(s)
    ensures NothingTaken(Step(s, e))
  {
    hide HasLive;
    var t := Step(s, e);
    forall g | 0 <= g < |t.tallies| ensures t.tallies[g].freed == 0 && t.tallies[g].discarded == 0 {
      if g < |s.tallies| {
        assert s.tallies[g].freed == 0 && s.tallies[g].discarded == 0;
      }
    }
  }

  /** Along such a run the cap holds throughout; a cancelled streamer may add its one frame. */
  lemma OrderlyKeepsCap(max: nat, es: seq<Event>, s: State)
    requires Leads(Init(max), es, s) && Orderly(Init(max), es)
    ensures KeepsCap(s)
    ensures forall g :: 0 <= g < s.gen ==> s.tallies[g].pushed <= s.tallies[g].acked + max + s.tallies[g].latePushed
  {
    hide Leads, Orderly;
    OrderlyTakesNothing(Init(max), es, s);
    FlowControl(max, es, s);
    Reached(max, es, s);
  }

  // ---- slots and stalls --------------------------------------------------------------------------------

  /**
   * In every run: once every frame of the current generation is acked, its streamer is at the
   * cap if and only if acks that found the counter at zero, the counter it started from and
   * increments by cancelled streamers outweigh, by the cap, what was taken off elsewhere.
   */
  lemma StallExact(max: nat, es: seq<Event>, s: State, i: nat)
    requires Leads(Init(max), es, s) && LiveCurrent(s, i)
    ensures |s.tallies| == s.gen + 1
    ensures var t := s.tallies[s.gen];
            t.acked == t.pushed ==>
              (s.inFlight >= max <==>
               t.lost + t.base + t.joined >= max + t.freed + t.discarded + One(s.streamers[i].pc == Inc))
  {
    hide Leads;
    Account(max, es, s, i);
  }

  /**
   * In every run the counter exceeds the unacked frames of a live current streamer by at most
   * one lost slot, next to what it started from, what cancelled streamers added and acks for
   * frames never sent.
   */
  lemma SlotsComeBack(max: nat, es: seq<Event>, s: State, i: nat)
    requires Leads(Init(max), es, s) && LiveCurrent(s, i)
    ensures |s.tallies| == s.gen + 1
    ensures var t := s.tallies[s.gen];
            s.inFlight + t.acked + One(s.streamers[i].pc == Inc) <= t.pushed + 1 + t.base + t.joined + t.overAcked
  {
    hide Leads;
    Account(max, es, s, i);
    Reached(max, es, s);
    assert StreamerOk(s, s.streamers[i]);
  }

  lemma GoesToWait(s: State, i: nat)
    requires Ready(s, i) && s.inFlight >= s.max
    ensures Leads(s, [PassCheck(i)] + ([CapFull(i)] + []), Goto(s, i, Wait))
  {
    assert Step(Goto(s, i, CheckCap), CapFull(i)) == Goto(s, i, Wait);
    Then(Goto(s, i, CheckCap), CapFull(i), [], Goto(s, i, Wait));
    Then(s, PassCheck(i), [CapFull(i)] + [], Goto(s, i, Wait));
  }


  // Streamers of k generations, each with its one frame acked and not yet counted.
  predicate Parked(s: State, k: nat) {
    && Shape(s) && s.gen == k && |s.streamers| == k && s.handle == Idle && s.inFlight == 0
    && (forall j :: 0 <= j < k ==> s.streamers[j] == Streamer(j + 1, Inc))
    && (forall g :: 0 <= g <= k ==> Settled(s.tallies[g]))
  }

  // Every frame is acked, and no ack was for a frame never sent.
  predicate Settled(t: Tally) { t.acked == t.pushed && t.overAcked == 0 }

  // A restarted pipeline pushes one frame and has it acked before it is counted.
  lemma ParkOne(s: State, k: nat) returns (es: seq<Event>, t: State)
    requires Parked(s, k) && s.max > 0
    ensures Leads(s, es, t) && Parked(t, k + 1) && t.max == s.max
  {
    Starting(s);
    var a := Restarted(s);
    t := EarlyAck(a, k);
    hide Leads;
    Approach(a, k, [Event.Pushed(k)] + ([Ack(a.gen)] + []), t);
    es := [PassCheck(k)] + ([CapFree(k)] + ([Fetched(k)] + ([Event.Pushed(k)] + ([Ack(a.gen)] + []))));
    LeadsOn(s, STARTING, a, es, t);
    es := STARTING + es;
  }

  lemma EarlyAck(a: State, i: nat) returns (t: State)
    requires Ready(a, i) && a.inFlight == 0 && Settled(a.tallies[a.gen])
    ensures Leads(Goto(a, i, Push), [Event.Pushed(i)] + ([Ack(a.gen)] + []), t)
    ensures t.streamers == Goto(a, i, Inc).streamers && t.(streamers := a.streamers, tallies := a.tallies) == a
    ensures |t.tallies| == |a.tallies| && Settled(t.tallies[a.gen])
    ensures forall g :: 0 <= g < a.gen ==> t.tallies[g] == a.tallies[g]
  {
    var p := Goto(a, i, Push);
    var q := Step(p, Event.Pushed(i));
    t := Step(q, Ack(a.gen));
    Still(t);
    Then(q, Ack(a.gen), [], t);
    Then(p, Event.Pushed(i), [Ack(a.gen)] + [], t);
  }

  lemma {:induction false} Park(max: nat, k: nat) returns (es: seq<Event>, s: State)
    requires max > 0
    ensures Leads(Init(max), es, s) && Parked(s, k) && s.max == max
    decreases k
  {
    if k == 0 {
      es, s := [], Init(max);
    } else {
      hide Leads;
      var front, a := Park(max, k - 1);
      var more;
      more, s := ParkOne(a, k - 1);
      LeadsOn(Init(max), front, a, more, s);
      es := front + more;
    }
  }

  // The first j of them counted.
  predicate Counted(s: State, k: nat, j: nat) {
    && j <= k && Shape(s) && s.gen == k && |s.streamers| == k && s.handle == Idle && s.inFlight == j
    && (forall h :: 0 <= h < k ==> s.streamers[h] == Streamer(h + 1, if h < j then CheckGen else Inc))
    && (forall g :: 0 <= g <= k ==> Settled(s.tallies[g]))
  }

  lemma {:induction false} CountAll(s: State, k: nat, j: nat) returns (es: seq<Event>, t: State)
    requires Counted(s, k, j)
    ensures Leads(s, es, t) && Counted(t, k, k) && t.max == s.max
    decreases k - j
  {
    if j == k {
      es, t := [], s;
    } else {
      var u := Step(s, Incremented(j));
      assert Counted(u, k, j + 1);
      hide Leads;
      es, t := CountAll(u, k, j + 1);
      Then(s, Incremented(j), es, t);
      es := [Incremented(j)] + es;
    }
  }

  /**
   * The stall is real for every cap: a run after which every frame of every generation is
   * acked, no ack was excessive, and the current streamer waits at the cap.
   */
  lemma EarlyAcksStall(max: nat) returns (es: seq<Event>, s: State)
    requires max > 0
    ensures Leads(Init(max), es, s)
    ensures s.inFlight == s.max == max && s.handle == Idle && |s.tallies| == s.gen + 1
    ensures |s.streamers| == max && LiveCurrent(s, max - 1) && s.streamers[max - 1].pc == Wait
    ensures forall g :: 0 <= g <= s.gen ==> Settled(s.tallies[g])
  {
    hide Leads;
    var a, b;
    es, a := Park(max, max);
    var count;
    count, b := CountAll(a, max, 0);
    LeadsOn(Init(max), es, a, count, b);
    es := es + count;
    GoesToWait(b, max - 1);
    s := Goto(b, max - 1, Wait);
    LeadsOn(Init(max), es, b, [PassCheck(max - 1)] + ([CapFull(max - 1)] + []), s);
    es := es + ([PassCheck(max - 1)] + ([CapFull(max - 1)] + []));
  }

  /** Only an ack, a start or a stop ends such a wait, however many streamers are about. */
  lemma {:induction false} StallHolds(s: State, es: seq<Event>, t: State, i: nat)
    requires Inv(s) && Leads(s, es, t)
    requires LiveCurrent(s, i) && s.streamers[i].pc in {Wait, CheckCap} && s.inFlight >= s.max
    requires forall k :: 0 <= k < |es| ==> !ByHandle(es[k]) && !es[k].Ack?
    ensures t.gen == s.gen && LiveCurrent(t, i) && t.streamers[i].pc in {Wait, CheckCap} && t.inFlight >= t.max
    ensures |t.tallies| == |s.tallies| && t.tallies[t.gen].pushed == s.tallies[s.gen].pushed
    decreases |es|
  {
    hide Inv;
    if es != [] {
      WaitingStep(s, es[0], i);
      StepKeepsInv(s, es[0]);
      StallHolds(Step(s, es[0]), es[1..], t, i);
    }
  }

  lemma WaitingStep(s: State, e: Event, i: nat)
    requires Inv(s) && Enabled(s, e) && !ByHandle(e) && !e.Ack?
    requires LiveCurrent(s, i) && s.streamers[i].pc in {Wait, CheckCap} && s.inFlight >= s.max
    ensures var t := Step(s, e);
            && t.gen == s.gen && t.max == s.max && t.inFlight >= s.inFlight && |t.tallies| == |s.tallies|
            && LiveCurrent(t, i) && t.streamers[i].pc in {Wait, CheckCap}
            && t.tallies[t.gen].pushed == s.tallies[s.gen].pushed
  {
    hide StreamerOk, Bounded, HandleOk;
  }

  // ---- when at most one slot is lost -----------------------------------------------------------------------

  predicate AnyLive(s: State) {
    exists i :: 0 <= i < |s.streamers| && Live(s.streamers[i].pc)
  }

  // Every start finds all earlier streamers gone.
  ghost predicate Patient(s: State, es: seq<Event>)
    decreases |es|
  {
    es == [] || (Shape(s) && Enabled(s, es[0]) && (es[0].StartReset? ==> !AnyLive(s)) && Patient(Step(s, es[0]), es[1..]))
  }

  // Then a live current streamer is alone, and started from zero.
  predicate Alone(s: State) {
    && Shape(s)
    && (s.handle in {Subscribing, Sending, Spawning} ==>
          s.inFlight == 0 && forall i :: 0 <= i < |s.streamers| ==> !Live(s.streamers[i].pc))
    && (s.handle == Spawning ==> s.tallies[s.gen].base == 0 && s.tallies[s.gen].joined == 0)
    && forall i :: 0 <= i < |s.streamers| && LiveCurrent(s, i) ==>
         && s.tallies[s.gen].base == 0 && s.tallies[s.gen].joined == 0
         && forall j :: 0 <= j < |s.streamers| && j != i ==> !Live(s.streamers[j].pc)
  }

  lemma {:induction false} PatientStaysAlone(s: State, es: seq<Event>, t: State)
    requires Inv(s) && Alone(s) && Leads(s, es, t) && Patient(s, es)
    ensures Alone(t)
    decreases |es|
  {
    hide Alone, AnyLive, Step, Enabled, StreamerOk, Bounded, HandleOk, Ordered;
    if es != [] {
      AloneStep(s, es[0]);
      StepKeepsInv(s, es[0]);
      PatientStaysAlone(Step(s, es[0]), es[1..], t);
    }
  }

  lemma AloneHandle(s: State, e: Event)
    requires Alone(s) && Enabled(s, e) && ByHandle(e) && (e.StartReset? ==> !AnyLive(s))
    ensures Alone(Step(s, e))
  {
    hide HasLive;
    var t := Step(s, e);
    forall k | 0 <= k < |t.streamers| && LiveCurrent(t, k)
      ensures t.tallies[t.gen].base == 0 && t.tallies[t.gen].joined == 0
      ensures forall j :: 0 <= j < |t.streamers| && j != k ==> !Live(t.streamers[j].pc)
    {
      if !e.Spawn? {
        assert t.gen == s.gen && LiveCurrent(s, k);
      }
    }
    if e.StartReset? {
      assert forall k :: 0 <= k < |t.streamers| ==> !Live(s.streamers[k].pc);
    }
  }

  lemma AloneAck(s: State, g: nat)
    requires Alone(s) && Enabled(s, Ack(g))
    ensures Alone(Step(s, Ack(g)))
  {
    var t := Step(s, Ack(g));
    forall k | 0 <= k < |t.streamers| && LiveCurrent(t, k) ensures LiveCurrent(s, k) {
    }
  }

  // One streamer moves and does not come back to life.
  lemma StreamerMoves(s: State, e: Event)
    requires Shape(s) && Enabled(s, e) && (Plain(e) || e.Pushed? || e.Incremented?)
    ensures var t := Step(s, e);
            && Shape(t) && t.gen == s.gen && t.handle == s.handle
            && t.streamers == s.streamers[e.i := t.streamers[e.i]] && t.streamers[e.i].gen == s.streamers[e.i].gen
            && (Live(t.streamers[e.i].pc) ==> Live(s.streamers[e.i].pc))
            && t.tallies[t.gen].base == s.tallies[s.gen].base
            && (t.tallies[t.gen].joined == s.tallies[s.gen].joined || (Live(s.streamers[e.i].pc) && !Current(s, e.i)))
            && (t.inFlight == s.inFlight || Live(s.streamers[e.i].pc))
  {
    hide HasLive;
  }

  lemma AloneStreamer(s: State, e: Event)
    requires Alone(s) && Enabled(s, e) && (Plain(e) || e.Pushed? || e.Incremented?)
    ensures Alone(Step(s, e))
  {
    StreamerMoves(s, e);
    var i := e.i;
    assert i < |s.streamers|;
    var t := Step(s, e);
    hide Step, Enabled, Live;
    forall k | 0 <= k < |t.streamers| && LiveCurrent(t, k)
      ensures t.tallies[t.gen].base == 0 && t.tallies[t.gen].joined == 0
      ensures forall j :: 0 <= j < |t.streamers| && j != k ==> !Live(t.streamers[j].pc)
    {
      assert LiveCurrent(s, k);
    }
  }

  lemma AloneStep(s: State, e: Event)
    requires Shape(s) && Alone(s) && Enabled(s, e) && (e.StartReset? ==> !AnyLive(s))
    ensures Alone(Step(s, e))
  {
    hide Alone, Step, AnyLive;
    if ByHandle(e) {
      AloneHandle(s, e);
    } else if e.Ack? {
      AloneAck(s, e.gen);
    } else {
      AloneStreamer(s, e);
    }
  }

  /**
   * If starts wait for earlier streamers to go and no frame is acked twice, the counter
   * exceeds the unacked frames by at most one: with a cap of two or more nothing stalls.
   */
  lemma PatientLosesOneSlot(max: nat, es: seq<Event>, s: State, i: nat)
    requires Leads(Init(max), es, s) && Patient(Init(max), es) && LiveCurrent(s, i)
    ensures |s.tallies| == s.gen + 1
    ensures s.tallies[s.gen].overAcked == 0 ==> s.inFlight + s.tallies[s.gen].acked <= s.tallies[s.gen].pushed + 1
  {
    hide Leads, Patient;
    InitInv(max);
    Reached(max, es, s);
    PatientStaysAlone(Init(max), es, s);
    SlotsComeBack(max, es, s, i);
  }

  // ---- progress ----------------------------------------------------------------------------------------------

  function OwnSteps(es: seq<Event>, i: nat): nat {
    if es == [] then 0 else One(Own(es[0], i)) + OwnSteps(es[1..], i)
  }

  // Steps of its own a live current streamer is from its next push, the push included.
  function StepsToPush(pc: Pc): nat {
    match pc
    case Push => 1
    case Fetch => 2
    case CheckCap => 3
    case CheckGen | Wait => 4
    case Inc => 5
    case Exited | Gone => 0
  }

  // The generation stays, and streamer i finds room under the cap, a frame and an open queue.
  predicate Favourable(e: Event, i: nat) {
    && !e.SendStart? && !e.StopSend?
    && e != CapFull(i) && e != Exhausted(i) && e != QueueClosed(i)
  }

  lemma OthersLeave(s: State, e: Event, i: nat)
    requires Shape(s) && Enabled(s, e) && i < |s.streamers| && !Own(e, i)
    ensures Shape(Step(s, e)) && i < |Step(s, e).streamers| && Step(s, e).streamers[i] == s.streamers[i]
    ensures !e.SendStart? && !e.StopSend? ==> Step(s, e).gen == s.gen
  {
    hide HasLive, HasReceivers;
  }

  lemma OwnStep(s: State, e: Event, i: nat)
    requires Shape(s) && Enabled(s, e) && LiveCurrent(s, i) && Favourable(e, i) && Own(e, i) && !e.Pushed?
    ensures Shape(Step(s, e)) && LiveCurrent(Step(s, e), i)
    ensures StepsToPush(Step(s, e).streamers[i].pc) + 1 == StepsToPush(s.streamers[i].pc)
  {
  }

  lemma FavourableStep(s: State, e: Event, i: nat)
    requires Shape(s) && Enabled(s, e) && LiveCurrent(s, i) && Favourable(e, i) && e != Event.Pushed(i)
    ensures Shape(Step(s, e)) && LiveCurrent(Step(s, e), i)
    ensures StepsToPush(Step(s, e).streamers[i].pc) + One(Own(e, i)) <= StepsToPush(s.streamers[i].pc)
  {
    hide Step, Enabled, Shape;
    if Own(e, i) {
      OwnStep(s, e, i);
    } else {
      OthersLeave(s, e, i);
    }
  }

  /**
   * Progress, in any company: while the generation lasts, a live current streamer that finds
   * room, frames and an open queue pushes within five steps of its own.
   */
  lemma {:induction false} Progress(s: State, es: seq<Event>, t: State, i: nat)
    requires Shape(s) && Leads(s, es, t) && LiveCurrent(s, i)
    requires forall k :: 0 <= k < |es| ==> Favourable(es[k], i)
    requires OwnSteps(es, i) >= StepsToPush(s.streamers[i].pc)
    ensures StepsToPush(s.streamers[i].pc) <= 5 && Count(es, Event.Pushed(i)) >= 1
    decreases |es|
  {
    hide Step, Enabled, Shape;
    if es != [] && es[0] != Event.Pushed(i) {
      FavourableStep(s, es[0], i);
      Progress(Step(s, es[0]), es[1..], t, i);
    }
  }

  lemma StaysBelow(s: State, e: Event, i: nat)
    requires Shape(s) && Enabled(s, e) && LiveCurrent(s, i) && Own(e, i)
    requires e != Event.Pushed(i) && e != Exhausted(i) && e != QueueClosed(i)
    requires s.inFlight + One(s.streamers[i].pc == Inc) < s.max
    ensures Favourable(e, i) && i < |Step(s, e).streamers| && Step(s, e).max == s.max
    ensures Step(s, e).inFlight + One(Step(s, e).streamers[i].pc == Inc) < s.max
  {
    StreamerStepFields(s, e);
    hide Step;
  }

  // Below the cap a streamer left to itself finds room.
  lemma {:induction false} ProgressAlone(s: State, es: seq<Event>, t: State, i: nat)
    requires Shape(s) && Leads(s, es, t) && LiveCurrent(s, i) && OnlyBy(es, i)
    requires s.inFlight + One(s.streamers[i].pc == Inc) < s.max
    requires forall k :: 0 <= k < |es| ==> es[k] != Exhausted(i) && es[k] != QueueClosed(i)
    requires |es| >= StepsToPush(s.streamers[i].pc)
    ensures Count(es, Event.Pushed(i)) >= 1
    decreases |es|
  {
    if es != [] && es[0] != Event.Pushed(i) {
      StaysBelow(s, es[0], i);
      hide Step, Enabled, Shape;
      FavourableStep(s, es[0], i);
      ProgressAlone(Step(s, es[0]), es[1..], t, i);
    }
  }
}
