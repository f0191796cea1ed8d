/**
 * The video pipeline: one handle that starts and stops generations, and any number of
 * streamer tasks that share its flow-control counter. Each event is one atomic step, so
 * every interleaving of the handle, the streamers and the head unit's acks is a sequence
 * of events.
 */
module Pipeline {

  // Where a streamer task stands. A task that returned still holds its generation
  // receiver until it is dropped.
  datatype Pc = CheckGen | CheckCap | Wait | Fetch | Push | Inc | Exited | Gone

  datatype Streamer = Streamer(gen: nat, pc: Pc)

  // Where the handle stands inside start() or stop().
  datatype HandlePc = Idle | Subscribing | Sending | Spawning | Stopping

  /** What an observer counts for one generation; no step depends on it. */
  datatype Tally = Tally(
    pushed: nat,      // frames its streamer put on the outbound queue
    acked: nat,       // acks for its frames
    overAcked: nat,   // those that arrived when every frame pushed so far was acked already
    lost: nat,        // those that found the counter at zero while it was current
    freed: nat,       // acks for frames of other generations that lowered the counter while it was current
    base: nat,        // the counter when it became current
    joined: nat,      // increments by cancelled streamers while it was current
    discarded: nat,   // in-flight count a starting handle threw away while its streamer lived
    latePushed: nat,  // frames pushed after it was cancelled
    lateIncs: nat)    // increments made after it was cancelled

  const ZERO: Tally := Tally(0, 0, 0, 0, 0, 0, 0, 0, 0, 0)

  datatype State = State(
    max: nat,
    gen: nat,
    inFlight: nat,
    streamers: seq<Streamer>,
    handle: HandlePc,
    tallies: seq<Tally>,   // by generation
    late: nat)             // increments by cancelled streamers since the last reset

  function Init(max: nat): State { State(max, 0, 0, [], Idle, [ZERO], 0) }

  datatype Event =
    | StartReset | Subscribe | SendStart | Spawn
    | StopSend | StopReset
    | Ack(gen: nat)
    | PassCheck(i: nat) | SeeCancel(i: nat)
    | CapFree(i: nat) | CapFull(i: nat) | Retry(i: nat) | WaitCancel(i: nat)
    | Fetched(i: nat) | Exhausted(i: nat)
    | Pushed(i: nat) | QueueClosed(i: nat)
    | Incremented(i: nat)
    | Release(i: nat)

  predicate HasReceivers(s: State) {
    || s.handle in {Sending, Spawning}
    || exists i :: 0 <= i < |s.streamers| && s.streamers[i].pc != Gone
  }

  predicate StandsAt(s: State, i: nat, pc: Pc) { i < |s.streamers| && s.streamers[i].pc == pc }

  predicate Current(s: State, i: nat)
    requires i < |s.streamers|
  {
    s.streamers[i].gen == s.gen
  }

  predicate Live(pc: Pc) { pc != Exited && pc != Gone }

  // The current generation's streamer is still at work.
  predicate HasLive(s: State) {
    exists i :: 0 <= i < |s.streamers| && Live(s.streamers[i].pc) && Current(s, i)
  }

  predicate Enabled(s: State, e: Event) {
    match e
    case StartReset => s.handle == Idle
    case Subscribe => s.handle == Subscribing
    case SendStart => s.handle == Sending
    case Spawn => s.handle == Spawning
    case StopSend => s.handle == Idle
    case StopReset => s.handle == Stopping
    case Ack(g) => g <= s.gen
    case PassCheck(i) => StandsAt(s, i, CheckGen) && Current(s, i)
    case SeeCancel(i) => StandsAt(s, i, CheckGen) && !Current(s, i)
    case CapFree(i) => StandsAt(s, i, CheckCap) && s.inFlight < s.max
    case CapFull(i) => StandsAt(s, i, CheckCap) && s.inFlight >= s.max
    case Retry(i) => StandsAt(s, i, Wait)
    case WaitCancel(i) => StandsAt(s, i, Wait) && !Current(s, i)
    case Fetched(i) => StandsAt(s, i, Fetch)
    case Exhausted(i) => StandsAt(s, i, Fetch)
    case Pushed(i) => StandsAt(s, i, Push)
    case QueueClosed(i) => StandsAt(s, i, Push)
    case Incremented(i) => StandsAt(s, i, Inc)
    case Release(i) => StandsAt(s, i, Exited)
  }

  function One(b: bool): nat { if b then 1 else 0 }

  function Goto(s: State, i: nat, pc: Pc): State
    requires i < |s.streamers|
  {
    s.(streamers := s.streamers[i := s.streamers[i].(pc := pc)])
  }

  function SetTally(s: State, g: nat, t: Tally): State
    requires g < |s.tallies|
  {
    s.(tallies := s.tallies[g := t])
  }

  // What an ack for a frame of generation g adds to the tallies.
  function Acked(s: State, g: nat): State
    requires |s.tallies| == s.gen + 1 && g <= s.gen
  {
    var t := s.tallies[g];
    var u := SetTally(s, g, t.(acked := t.acked + 1, overAcked := t.overAcked + One(t.acked >= t.pushed)));
    var c := u.tallies[s.gen];
    SetTally(u, s.gen, if g == s.gen then c.(lost := c.lost + One(s.inFlight == 0))
                       else c.(freed := c.freed + One(s.inFlight > 0)))
  }

  // The generation watch takes a new value; the new generation's counts start afresh.
  function Bump(s: State): State {
    s.(gen := s.gen + 1, tallies := s.tallies + [ZERO.(base := s.inFlight)])
  }

  // Every generation that exists has a tally.
  predicate Shape(s: State) {
    && |s.tallies| == s.gen + 1
    && forall i :: 0 <= i < |s.streamers| ==> s.streamers[i].gen <= s.gen
  }

  function Step(s: State, e: Event): State
    requires Shape(s) && Enabled(s, e)
  {
    match e
    case StartReset =>
      var t := s.tallies[s.gen];
      SetTally(s, s.gen, t.(discarded := t.discarded + if HasLive(s) then s.inFlight else 0))
      .(inFlight := 0, late := 0, handle := Subscribing)
    case Subscribe => s.(handle := Sending)
    case SendStart => Bump(s).(handle := Spawning)
    case Spawn => s.(streamers := s.streamers + [Streamer(s.gen, CheckGen)], handle := Idle)
    case StopSend => (if HasReceivers(s) then Bump(s) else s).(handle := Stopping)
    case StopReset => s.(inFlight := 0, late := 0, handle := Idle)
    case Ack(g) => Acked(s, g).(inFlight := if s.inFlight > 0 then s.inFlight - 1 else 0)
    case PassCheck(i) => Goto(s, i, CheckCap)
    case SeeCancel(i) => Goto(s, i, Exited)
    case CapFree(i) => Goto(s, i, Fetch)
    case CapFull(i) => Goto(s, i, Wait)
    case Retry(i) => Goto(s, i, CheckCap)
    case WaitCancel(i) => Goto(s, i, Exited)
    case Fetched(i) => Goto(s, i, Push)
    case Exhausted(i) => Goto(s, i, Exited)
    case Pushed(i) =>
      var g := s.streamers[i].gen;
      var t := s.tallies[g];
      SetTally(Goto(s, i, Inc), g,
               t.(pushed := t.pushed + 1, latePushed := t.latePushed + One(g != s.gen)))
    case QueueClosed(i) => Goto(s, i, Exited)
    case Incremented(i) =>
      var g := s.streamers[i].gen;
      var t := s.tallies[g];
      var u := SetTally(Goto(s, i, CheckGen), g, t.(lateIncs := t.lateIncs + One(g != s.gen)));
      var c := u.tallies[s.gen];
      SetTally(u, s.gen, c.(joined := c.joined + One(g != s.gen)))
      .(inFlight := s.inFlight + 1, late := s.late + One(g != s.gen))
    case Release(i) => Goto(s, i, Gone)
  }

  // ---- the invariant ------------------------------------------------------------------

  // Streamers are spawned in generation order, so no two share one.
  ghost predicate Ordered(s: State) {
    forall i, j :: 0 <= i < j < |s.streamers| ==> s.streamers[i].gen < s.streamers[j].gen
  }

  // The account of a generation: the counter, and what left it, is what entered it.
  predicate Balanced(s: State, t: Tally, pending: nat) {
    s.inFlight + t.acked + t.freed + t.discarded + pending == t.pushed + t.lost + t.base + t.joined
  }

  // A live current streamer; a frame is pending between its push and its increment.
  predicate Accounted(s: State, pc: Pc, t: Tally) {
    && Balanced(s, t, One(pc == Inc))
    && (pc in {Fetch, Push} ==> t.pushed < s.max + t.acked + t.freed + t.discarded)
    && (pc in {Fetch, Push, Inc} ==> s.inFlight < s.max + s.late)
    && t.lost <= t.freed + t.discarded + 1 + t.overAcked
    && t.latePushed == 0 && t.lateIncs == 0
  }

  // A cancelled streamer has at most one push and one increment left.
  predicate Cancelled(pc: Pc, latePushed: nat, lateIncs: nat) {
    && latePushed + One(pc in {CheckCap, Wait, Fetch, Push}) <= 1
    && lateIncs + One(pc in {CheckCap, Wait, Fetch, Push, Inc}) <= 1
  }

  predicate StreamerOk(s: State, w: Streamer)
    requires Shape(s) && w.gen <= s.gen
  {
    var t := s.tallies[w.gen];
    && (w.pc in {Fetch, Push, Inc} ==> s.max > 0)
    && if w.gen < s.gen then Cancelled(w.pc, t.latePushed, t.lateIncs)
       else if Live(w.pc) then Accounted(s, w.pc, t)
       else t.latePushed == 0 && t.lateIncs == 0
  }

  predicate Bounded(max: nat, t: Tally) {
    && t.pushed <= max + t.acked + t.freed + t.discarded + t.latePushed
    && t.acked <= t.pushed + t.overAcked
  }

  predicate HandleOk(s: State)
    requires Shape(s)
  {
    && (s.handle == Spawning ==>
          && Balanced(s, s.tallies[s.gen], 0)
          && s.tallies[s.gen].pushed == 0 && s.tallies[s.gen].lateIncs == 0
          && s.tallies[s.gen].lost <= s.tallies[s.gen].overAcked
          && forall i :: 0 <= i < |s.streamers| ==> s.streamers[i].gen < s.gen)
    && (s.handle == Stopping ==>
          forall i :: 0 <= i < |s.streamers| && Live(s.streamers[i].pc) ==> s.streamers[i].gen < s.gen)
    && (s.handle !in {Subscribing, Sending} ==> s.tallies[s.gen].discarded == 0)
  }

  ghost predicate Inv(s: State) {
    && Shape(s) && Ordered(s) && HandleOk(s)
    && s.inFlight <= s.max + s.late
    && (forall i :: 0 <= i < |s.streamers| ==> StreamerOk(s, s.streamers[i]))
    && (forall g :: 0 <= g < |s.tallies| ==> Bounded(s.max, s.tallies[g]))
    && s.tallies[s.gen].latePushed == 0
  }

  lemma InitInv(max: nat)
    ensures Inv(Init(max))
  {
  }

  // The current tally after n increments by cancelled streamers.
  function Joined(ts: seq<Tally>, g: nat, n: nat): seq<Tally>
    requires g < |ts|
  {
    ts[g := ts[g].(joined := ts[g].joined + n)]
  }

  // One streamer moves; its own tally may change. A cancelled one may add n to the counter.
  lemma Moved(s: State, t: State, i: nat, pc: Pc, tally: Tally, n: nat)
    requires Inv(s) && i < |s.streamers|
    requires var w := s.streamers[i];
             && t == s.(streamers := s.streamers[i := w.(pc := pc)],
                        tallies := Joined(s.tallies[w.gen := tally], s.gen, n),
                        inFlight := t.inFlight, late := t.late)
             && (Live(pc) ==> Live(w.pc))
             && tally.discarded == s.tallies[w.gen].discarded
             && StreamerOk(t, w.(pc := pc))
             && (if Current(s, i) then n == 0 else t.inFlight == s.inFlight + n && t.late == s.late + n)
    requires t.inFlight <= t.max + t.late && Bounded(s.max, tally)
    ensures Inv(t)
  {
    hide Cancelled, Live;
    var w := s.streamers[i];
    forall j | 0 <= j < |t.streamers| ensures StreamerOk(t, t.streamers[j]) {
      if j != i {
        var v := s.streamers[j];
        assert StreamerOk(s, v);
        assert v.gen != w.gen;
      }
    }
    forall j, k | 0 <= j < k < |t.streamers| ensures t.streamers[j].gen < t.streamers[k].gen {
      assert s.streamers[j].gen < s.streamers[k].gen;
    }
    forall g | 0 <= g < |t.tallies| ensures Bounded(t.max, t.tallies[g]) {
      assert Bounded(s.max, s.tallies[g]);
    }
  }

  lemma PlainStepKeepsInv(s: State, i: nat, pc: Pc)
    requires Inv(s) && i < |s.streamers| && (Live(pc) ==> Live(s.streamers[i].pc))
    requires StreamerOk(Goto(s, i, pc), s.streamers[i].(pc := pc))
    ensures Inv(Goto(s, i, pc))
  {
    hide StreamerOk, Bounded;
    var g := s.streamers[i].gen;
    assert Joined(s.tallies[g := s.tallies[g]], s.gen, 0) == s.tallies;
    Moved(s, Goto(s, i, pc), i, pc, s.tallies[g], 0);
  }

  // Steps of a streamer that touch neither the counter nor a tally.
  predicate Plain(e: Event) {
    || e.PassCheck? || e.SeeCancel? || e.CapFree? || e.CapFull? || e.Retry? || e.WaitCancel?
    || e.Fetched? || e.Exhausted? || e.QueueClosed? || e.Release?
  }

  lemma PlainKeepsInv(s: State, e: Event)
    requires Inv(s) && Enabled(s, e) && Plain(e)
    ensures Inv(Step(s, e))
  {
    hide Bounded, Ordered, HandleOk;
    var i := e.i;
    var w := s.streamers[i];
    assert StreamerOk(s, w);
    PlainStepKeepsInv(s, i, Step(s, e).streamers[i].pc);
  }

  lemma PushedKeepsInv(s: State, i: nat)
    requires Inv(s) && Enabled(s, Pushed(i))
    ensures Inv(Step(s, Pushed(i)))
  {
    hide Ordered, HandleOk;
    var w := s.streamers[i];
    var t := Step(s, Pushed(i));
    assert StreamerOk(s, w) && Bounded(s.max, s.tallies[w.gen]);
    assert Joined(t.tallies, s.gen, 0) == t.tallies;
    Moved(s, t, i, Inc, t.tallies[w.gen], 0);
  }

  lemma IncrementedKeepsInv(s: State, i: nat)
    requires Inv(s) && Enabled(s, Incremented(i))
    ensures Inv(Step(s, Incremented(i)))
  {
    hide Ordered, HandleOk;
    var w := s.streamers[i];
    var t := Step(s, Incremented(i));
    var n := One(w.gen != s.gen);
    var tally := s.tallies[w.gen].(lateIncs := s.tallies[w.gen].lateIncs + n);
    assert StreamerOk(s, w) && Bounded(s.max, s.tallies[w.gen]);
    assert t.tallies == Joined(s.tallies[w.gen := tally], s.gen, n);
    Moved(s, t, i, CheckGen, tally, n);
  }

  lemma AckKeepsStreamerOk(s: State, g: nat, w: Streamer)
    requires Shape(s) && Enabled(s, Ack(g)) && w.gen <= s.gen && StreamerOk(s, w)
    requires forall h :: 0 <= h < |s.tallies| ==> Bounded(s.max, s.tallies[h])
    ensures StreamerOk(Step(s, Ack(g)), w)
  {
    hide Cancelled;
    assert Bounded(s.max, s.tallies[g]);
  }

  lemma AckKeepsInv(s: State, g: nat)
    requires Inv(s) && Enabled(s, Ack(g))
    ensures Inv(Step(s, Ack(g)))
  {
    hide StreamerOk;
    var t := Step(s, Ack(g));
    forall j | 0 <= j < |t.streamers| ensures StreamerOk(t, t.streamers[j]) {
      AckKeepsStreamerOk(s, g, s.streamers[j]);
    }
    forall h | 0 <= h < |t.tallies| ensures Bounded(t.max, t.tallies[h]) {
      assert Bounded(s.max, s.tallies[h]);
    }
  }

  predicate ByHandle(e: Event) {
    e.StartReset? || e.Subscribe? || e.SendStart? || e.Spawn? || e.StopSend? || e.StopReset?
  }

  lemma ResetKeepsInv(s: State, e: Event)
    requires Inv(s) && Enabled(s, e) && (e.StartReset? || e.StopReset?)
    ensures Inv(Step(s, e))
  {
    var t := Step(s, e);
    forall j | 0 <= j < |t.streamers| ensures StreamerOk(t, t.streamers[j]) {
      assert StreamerOk(s, s.streamers[j]);
    }
    forall h | 0 <= h < |t.tallies| ensures Bounded(t.max, t.tallies[h]) {
      assert Bounded(s.max, s.tallies[h]);
    }
  }

  // A new generation turns the current streamer into a cancelled one.
  lemma BumpKeepsInv(s: State, h: HandlePc)
    requires Inv(s) && h in {Spawning, Stopping}
    ensures Inv(Bump(s).(handle := h))
  {
    var t := Bump(s).(handle := h);
    forall j | 0 <= j < |t.streamers| ensures StreamerOk(t, t.streamers[j]) {
      assert StreamerOk(s, s.streamers[j]);
    }
  }

  lemma StopWithoutReceivers(s: State)
    requires Inv(s) && s.handle == Idle && !HasReceivers(s)
    ensures Inv(s.(handle := Stopping))
  {
    var t := s.(handle := Stopping);
    forall j | 0 <= j < |t.streamers| ensures StreamerOk(t, t.streamers[j]) && t.streamers[j].pc == Gone {
      assert StreamerOk(s, s.streamers[j]);
    }
  }

  lemma SubscribeKeepsInv(s: State)
    requires Inv(s) && s.handle == Subscribing
    ensures Inv(s.(handle := Sending))
  {
    var t := s.(handle := Sending);
    forall j | 0 <= j < |t.streamers| ensures StreamerOk(t, t.streamers[j]) {
      assert StreamerOk(s, s.streamers[j]);
    }
  }

  lemma SpawnKeepsInv(s: State)
    requires Inv(s) && s.handle == Spawning
    ensures Inv(Step(s, Spawn))
  {
    var t := Step(s, Spawn);
    forall j | 0 <= j < |t.streamers| ensures StreamerOk(t, t.streamers[j]) {
      if j < |s.streamers| {
        assert StreamerOk(s, s.streamers[j]);
      }
    }
  }

  lemma HandleStepsKeepInv(s: State, e: Event)
    requires Inv(s) && Enabled(s, e) && ByHandle(e)
    ensures Inv(Step(s, e))
  {
    hide StreamerOk, Bounded, Ordered;
    match e
    case StartReset => ResetKeepsInv(s, e);
    case Subscribe => SubscribeKeepsInv(s);
    case SendStart => BumpKeepsInv(s, Spawning);
    case Spawn => SpawnKeepsInv(s);
    case StopSend =>
      if HasReceivers(s) {
        BumpKeepsInv(s, Stopping);
      } else {
        StopWithoutReceivers(s);
      }
    case StopReset => ResetKeepsInv(s, e);
  }

  lemma StepKeepsInv(s: State, e: Event)
    requires Inv(s) && Enabled(s, e)
    ensures Inv(Step(s, e)) && Step(s, e).max == s.max && Step(s, e).gen >= s.gen
  {
    hide Ordered, HandleOk, StreamerOk, Bounded;
    match e
    case Ack(g) => AckKeepsInv(s, g);
    case Pushed(i) => PushedKeepsInv(s, i);
    case Incremented(i) => IncrementedKeepsInv(s, i);
    case _ => if ByHandle(e) { HandleStepsKeepInv(s, e); } else { PlainKeepsInv(s, e); }
  }

  // ---- runs ------------------------------------------------------------------------------

  // The events es happen one after the other and lead from s to t.
  ghost predicate Leads(s: State, es: seq<Event>, t: State)
    decreases |es|
  {
    if es == [] then s == t
    else Shape(s) && Enabled(s, es[0]) && Leads(Step(s, es[0]), es[1..], t)
  }

  lemma {:induction false} RunKeepsInv(s: State, es: seq<Event>, t: State)
    requires Inv(s) && Leads(s, es, t)
    ensures Inv(t) && t.max == s.max
    decreases |es|
  {
    hide Inv, Step, Enabled;
    if es != [] {
      StepKeepsInv(s, es[0]);
      RunKeepsInv(Step(s, es[0]), es[1..], t);
    }
  }

  predicate LiveCurrent(s: State, i: nat) {
    i < |s.streamers| && s.streamers[i].gen == s.gen && Live(s.streamers[i].pc)
  }

  /**
   * The account of a live current streamer, in every run: its unacked frames are the counter
   * and its pending increment, plus what acks of other generations and a starting handle took
   * off the counter, minus what its own acks failed to take off it and what others put on it.
   */
  lemma Account(max: nat, es: seq<Event>, s: State, i: nat)
    requires Leads(Init(max), es, s) && LiveCurrent(s, i)
    ensures |s.tallies| == s.gen + 1
    ensures var t := s.tallies[s.gen];
            t.pushed - t.acked
            == s.inFlight + One(s.streamers[i].pc == Inc) + t.freed + t.discarded - t.lost - t.base - t.joined
  {
    InitInv(max);
    RunKeepsInv(Init(max), es, s);
    assert StreamerOk(s, s.streamers[i]);
  }

  /**
   * Flow control, in every run. While a generation is current, its frames not yet acked never
   * number more than the cap, the acks of other generations that lowered the counter, and the
   * count a starting handle threw away; the last is zero except between the counter reset and
   * the generation bump of that start. Afterwards the one frame a cancelled streamer may still
   * push adds to it.
   */
  lemma FlowControl(max: nat, es: seq<Event>, s: State)
    requires Leads(Init(max), es, s)
    ensures |s.tallies| == s.gen + 1
    ensures var t := s.tallies[s.gen];
            && t.pushed <= t.acked + max + t.freed + t.discarded
            && (s.handle !in {Subscribing, Sending} ==> t.discarded == 0)
    ensures forall g :: 0 <= g < s.gen ==>
              var t := s.tallies[g];
              t.pushed <= t.acked + max + t.freed + t.discarded + t.latePushed
  {
    InitInv(max);
    RunKeepsInv(Init(max), es, s);
    forall g | 0 <= g < |s.tallies| ensures Bounded(s.max, s.tallies[g]) {
    }
  }

  /**
   * Cancellation, in every run: no two streamers share a generation, a cancelled one pushes
   * and increments at most once more, and so the counter exceeds the cap by at most the
   * cancelled streamers' increments since the last reset.
   */
  lemma Cancellation(max: nat, es: seq<Event>, s: State)
    requires Leads(Init(max), es, s)
    ensures |s.tallies| == s.gen + 1 && forall i :: 0 <= i < |s.streamers| ==> s.streamers[i].gen <= s.gen
    ensures forall i, j :: 0 <= i < j < |s.streamers| ==> s.streamers[i].gen < s.streamers[j].gen
    ensures forall i :: 0 <= i < |s.streamers| ==>
              var t := s.tallies[s.streamers[i].gen];
              t.latePushed <= 1 && t.lateIncs <= 1
    ensures s.inFlight <= max + s.late
  {
    InitInv(max);
    RunKeepsInv(Init(max), es, s);
    forall i | 0 <= i < |s.streamers|
      ensures s.tallies[s.streamers[i].gen].latePushed <= 1 && s.tallies[s.streamers[i].gen].lateIncs <= 1
    {
      assert StreamerOk(s, s.streamers[i]);
    }
  }

  // Stopping leaves no live streamer uncancelled, whether or not the watch took a new value.
  lemma StopCancels(max: nat, es: seq<Event>, s: State)
    requires Leads(Init(max), es, s) && s.handle == Stopping
    ensures forall i :: 0 <= i < |s.streamers| && Live(s.streamers[i].pc) ==> s.streamers[i].gen < s.gen
  {
    InitInv(max);
    RunKeepsInv(Init(max), es, s);
  }

  // ---- what a cancelled streamer can still do, counted on the run itself -------------------

  function Count(es: seq<Event>, e: Event): nat {
    if es == [] then 0 else One(es[0] == e) + Count(es[1..], e)
  }

  lemma StreamerAfterStep(s: State, e: Event, i: nat)
    requires Shape(s) && Enabled(s, e) && i < |s.streamers|
    ensures i < |Step(s, e).streamers| && Step(s, e).gen >= s.gen
    ensures Step(s, e).streamers[i].gen == s.streamers[i].gen
    ensures var (p, q) := (s.streamers[i].pc, Step(s, e).streamers[i].pc);
            s.streamers[i].gen < s.gen ==>
              && One(q in {CheckCap, Wait, Fetch, Push}) + One(e == Pushed(i)) <= One(p in {CheckCap, Wait, Fetch, Push})
              && One(q in {CheckCap, Wait, Fetch, Push, Inc}) + One(e == Incremented(i)) <= One(p in {CheckCap, Wait, Fetch, Push, Inc})
  {
  }

  /** From any state on, a streamer whose generation is over pushes and increments at most once. */
  lemma {:induction false} AtMostOneMoreFrame(s: State, es: seq<Event>, t: State, i: nat)
    requires Leads(s, es, t) && i < |s.streamers| && s.streamers[i].gen < s.gen
    ensures Count(es, Pushed(i)) <= One(s.streamers[i].pc in {CheckCap, Wait, Fetch, Push})
    ensures Count(es, Incremented(i)) <= One(s.streamers[i].pc in {CheckCap, Wait, Fetch, Push, Inc})
    decreases |es|
  {
    hide Step, Enabled;
    if es != [] {
      StreamerAfterStep(s, es[0], i);
      AtMostOneMoreFrame(Step(s, es[0]), es[1..], t, i);
    }
  }

  // ---- putting runs together ------------------------------------------------------------------

  lemma {:induction false} LeadsOn(s: State, es: seq<Event>, t: State, fs: seq<Event>, u: State)
    requires Leads(s, es, t) && Leads(t, fs, u)
    ensures Leads(s, es + fs, u)
    decreases |es|
  {
    hide Step, Enabled, Shape;
    if es == [] {
      assert es + fs == fs;
    } else {
      LeadsOn(Step(s, es[0]), es[1..], t, fs, u);
      assert (es + fs)[1..] == es[1..] + fs;
    }
  }

  lemma Then(s: State, e: Event, es: seq<Event>, t: State)
    requires Shape(s) && Enabled(s, e) && Leads(Step(s, e), es, t)
    ensures Leads(s, [e] + es, t)
  {
    hide Step, Enabled, Shape;
    assert ([e] + es)[1..] == es;
  }

  predicate Ready(s: State, i: nat) { Shape(s) && StandsAt(s, i, CheckGen) && Current(s, i) }

  // s after an undisturbed start().
  function Restarted(s: State): State
    requires Shape(s)
  {
    var t := s.tallies[s.gen];
    s.(gen := s.gen + 1, inFlight := 0, late := 0, handle := Idle,
       tallies := s.tallies[s.gen := t.(discarded := t.discarded + if HasLive(s) then s.inFlight else 0)] + [ZERO],
       streamers := s.streamers + [Streamer(s.gen + 1, CheckGen)])
  }

  const STARTING: seq<Event> := [StartReset] + ([Subscribe] + ([SendStart] + ([Spawn] + [])))

  lemma Still(s: State)
    ensures Leads(s, [], s)
  {
  }

  lemma StartEnds(s: State)
    requires Shape(s) && s.handle == Idle
    ensures Step(Step(Step(Step(s, StartReset), Subscribe), SendStart), Spawn) == Restarted(s)
    ensures Ready(Restarted(s), |s.streamers|)
  {
    hide HasLive;
  }

  lemma Starting(s: State)
    requires Shape(s) && s.handle == Idle
    ensures Leads(s, STARTING, Restarted(s))
    ensures Ready(Restarted(s), |s.streamers|)
  {
    hide Leads, HasLive, Restarted;
    StartEnds(s);
    var a := Step(s, StartReset);
    var b := Step(a, Subscribe);
    var c := Step(b, SendStart);
    Still(Restarted(s));
    Then(c, Spawn, [], Restarted(s));
    Then(b, SendStart, [Spawn] + [], Restarted(s));
    Then(a, Subscribe, [SendStart] + ([Spawn] + []), Restarted(s));
    Then(s, StartReset, [Subscribe] + ([SendStart] + ([Spawn] + [])), Restarted(s));
  }

  // ---- the shared state, changed in place ----------------------------------------------------

  // Where a step leaves its streamer.
  function Leaves(e: Event): Pc {
    match e
    case PassCheck(_) => CheckCap
    case CapFree(_) => Fetch
    case CapFull(_) => Wait
    case Retry(_) => CheckCap
    case Fetched(_) => Push
    case Pushed(_) => Inc
    case Incremented(_) => CheckGen
    case Release(_) => Gone
    case _ => Exited
  }

  lemma StreamerStepFields(s: State, e: Event)
    requires Shape(s) && Enabled(s, e) && (Plain(e) || e.Pushed? || e.Incremented?)
    ensures var t := Step(s, e);
            && t.max == s.max && t.gen == s.gen && t.handle == s.handle
            && t.streamers == s.streamers[e.i := s.streamers[e.i].(pc := Leaves(e))]
            && t.inFlight == s.inFlight + One(e.Incremented?)
  {
  }

  class VideoPipeline {
    const maxInFlight: nat
    var generation: nat
    var inFlight: nat
    var tasks: seq<Streamer>
    ghost var tallies: seq<Tally>
    ghost var late: nat

    ghost function View(): State
      reads this
    {
      State(maxInFlight, generation, inFlight, tasks, Idle, tallies, late)
    }

    constructor (max: nat)
      ensures View() == Init(max) && Inv(View())
    {
      maxInFlight := max;
      generation, inFlight, tasks := 0, 0, [];
      tallies, late := [ZERO], 0;
    }

    ghost method Observe(s: State)
      requires s.max == maxInFlight && s.gen == generation && s.inFlight == inFlight && s.streamers == tasks
      requires s.handle == Idle
      modifies this`tallies, this`late
      ensures View() == s
    {
      tallies, late := s.tallies, s.late;
    }

    /** Reset, subscribe, bump, spawn. */
    method Start()
      requires Inv(View())
      modifies this
      ensures Inv(View())
      ensures Leads(old(View()), STARTING, View())
      ensures inFlight == 0 && generation == old(generation) + 1
      ensures tasks == old(tasks) + [Streamer(generation, CheckGen)]
    {
      ghost var s := View();
      inFlight := 0;
      var newGen := generation + 1;
      generation := newGen;
      tasks := tasks + [Streamer(newGen, CheckGen)];
      Starting(s);
      RunKeepsInv(s, STARTING, Restarted(s));
      Observe(Restarted(s));
    }

    /** Sending on a watch channel without receivers leaves its value alone. */
    method Stop()
      requires Inv(View())
      modifies this
      ensures Inv(View())
      ensures View() == Step(Step(old(View()), StopSend), StopReset)
      ensures inFlight == 0 && tasks == old(tasks)
      ensures forall i :: 0 <= i < |tasks| && Live(tasks[i].pc) ==> tasks[i].gen < generation
    {
      ghost var s := View();
      StepKeepsInv(s, StopSend);
      StepKeepsInv(Step(s, StopSend), StopReset);
      var newGen := generation + 1;
      if exists i :: 0 <= i < |tasks| && tasks[i].pc != Gone {
        generation := newGen;
      }
      inFlight := 0;
      Observe(Step(Step(s, StopSend), StopReset));
    }

    /** One slot is released; the frame acked belongs to generation g. */
    method OnMediaAck(ghost g: nat)
      requires Inv(View()) && g <= generation
      modifies this
      ensures Inv(View()) && View() == Step(old(View()), Ack(g))
      ensures inFlight == if old(inFlight) > 0 then old(inFlight) - 1 else 0
    {
      ghost var s := View();
      StepKeepsInv(s, Ack(g));
      if inFlight > 0 {
        inFlight := inFlight - 1;
      }
      Observe(Step(s, Ack(g)));
    }

    /**
     * One atomic step of streamer task i. The arguments say what the outside does: the wait
     * is ended by the watch rather than the timer, the source has a frame, the queue is open.
     */
    method StreamerStep(i: nat, woken: bool, hasFrame: bool, queueOpen: bool) returns (e: Event)
      requires Inv(View()) && i < |tasks| && tasks[i].pc != Gone
      modifies this
      ensures Enabled(old(View()), e) && View() == Step(old(View()), e)
      ensures Inv(View()) && (Plain(e) || e.Pushed? || e.Incremented?) && e.i == i
      // what each place does, and what the outside decides
      ensures match old(tasks[i].pc)
              case CheckGen => tasks[i].pc == if generation != tasks[i].gen then Exited else CheckCap
              case CheckCap => tasks[i].pc == if inFlight >= maxInFlight then Wait else Fetch
              case Wait => tasks[i].pc == if woken && generation != tasks[i].gen then Exited else CheckCap
              case Fetch => tasks[i].pc == if hasFrame then Push else Exited
              case Push => tasks[i].pc == if queueOpen then Inc else Exited
              case Inc => tasks[i].pc == CheckGen
              case Exited => tasks[i].pc == Gone
      ensures e.Pushed? <==> old(tasks[i].pc) == Push && queueOpen
      ensures inFlight == old(inFlight) + if old(tasks[i].pc) == Inc then 1 else 0
      // and nothing else
      ensures tasks == old(tasks)[i := tasks[i]] && tasks[i].gen == old(tasks[i].gen)
      ensures generation == old(generation)
    {
      ghost var s := View();
      assert Shape(s);
      hide Inv, HasLive, HasReceivers, Step;
      var w := tasks[i];
      var pc := w.pc;
      match w.pc {
        case CheckGen =>
          if generation != w.gen { e, pc := SeeCancel(i), Exited; } else { e, pc := PassCheck(i), CheckCap; }
        case CheckCap =>
          if inFlight >= maxInFlight { e, pc := CapFull(i), Wait; } else { e, pc := CapFree(i), Fetch; }
        case Wait =>
          if woken && generation != w.gen { e, pc := WaitCancel(i), Exited; } else { e, pc := Retry(i), CheckCap; }
        case Fetch =>
          if hasFrame { e, pc := Fetched(i), Push; } else { e, pc := Exhausted(i), Exited; }
        case Push =>
          if queueOpen { e, pc := Pushed(i), Inc; } else { e, pc := QueueClosed(i), Exited; }
        case Inc =>
          inFlight := inFlight + 1;
          e, pc := Incremented(i), CheckGen;
        case Exited =>
          e, pc := Release(i), Gone;
      }
      tasks := tasks[i := w.(pc := pc)];
      StepKeepsInv(s, e);
      StreamerStepFields(s, e);
      Observe(Step(s, e));
    }
  }
}
