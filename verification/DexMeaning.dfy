/**
 * The rewrite preserves meaning: the patched code run in any environment behaves, step for
 * step, like the original code run where the target field reads 35.
 */
module DexMeaning {
  import opened Bytes
  import opened DexInsns

  datatype State<W> = State(pc: nat, regs: map<nat, int>, world: W)

  datatype Outcome<W> = Running(state: State<W>) | Halted(state: State<W>) | Undecodable(pc: nat)

  function Signed16(x: nat): int { if x < 0x8000 then x else x - 0x1_0000 }

  function Signed32(x: nat): int { if x < 0x8000_0000 then x else x - 0x1_0000_0000 }

  function InsnBytes(c: Buf, i: nat): Buf {
    var u := Units(c, i);
    if u == None then [] else c[i..if i + 2 * u.value <= |c| then i + 2 * u.value else |c|]
  }

  // fill-array-data, packed-switch and sparse-switch name a payload by a signed 32-bit
  // distance in code units from the instruction.
  predicate RefersToPayload(c: Buf, i: nat) {
    Units(c, i).Some? && c[i] in {0x26, 0x2b, 0x2c}
  }

  function PayloadOffset(c: Buf, i: nat): int
    requires RefersToPayload(c, i)
  {
    i + 2 * Signed32(FromLE(c[i + 2..i + 6]))
  }

  function PayloadBytes(c: Buf, i: nat): Buf {
    if RefersToPayload(c, i) && PayloadOffset(c, i) >= 0 then InsnBytes(c, PayloadOffset(c, i)) else []
  }

  // One step. `sget` and `const/16` are spelled out; `statics` answers reads of static
  // fields by `sget`. Every other instruction is an arbitrary function `other` of its own
  // bytes, the payload it refers to and the state.
  function Exec<W>(c: Buf, statics: (W, nat) -> int, other: (Buf, Buf, State<W>) -> Outcome<W>,
                   s: State<W>): Outcome<W>
  {
    if Units(c, s.pc) == None then Undecodable(s.pc)
    else if c[s.pc] == SGET then
      var v := statics(s.world, FromLE(c[s.pc + 2..s.pc + 4]));
      Running(State(s.pc + 4, s.regs[c[s.pc + 1] := v], s.world))
    else if c[s.pc] == CONST_16 then
      var v := Signed16(FromLE(c[s.pc + 2..s.pc + 4]));
      Running(State(s.pc + 4, s.regs[c[s.pc + 1] := v], s.world))
    else other(InsnBytes(c, s.pc), PayloadBytes(c, s.pc), s)
  }

  function Run<W>(c: Buf, statics: (W, nat) -> int, other: (Buf, Buf, State<W>) -> Outcome<W>,
                  o: Outcome<W>, steps: nat): Outcome<W>
    decreases steps
  {
    if steps == 0 || !o.Running? then o
    else Run(c, statics, other, Exec(c, statics, other, o.state), steps - 1)
  }

  // The environment in which the target field reads 35.
  function Clamped<W>(statics: (W, nat) -> int, target: U32): (W, nat) -> int {
    (w: W, f: nat) => if f == target then 35 else statics(w, f)
  }

  // ---- what the code must satisfy ---------------------------------------------

  predicate HasOpcode(c: Buf, i: int, op: U8) { 0 <= i < |c| && c[i] == op }

  // Opcode 0x60 is the only sget form that reads the target field.
  predicate OnlySgetReads(c: Buf, target: U32) {
    forall i :: i in Slots(c, 0, target) ==> HasOpcode(c, i, SGET)
  }

  // Payload references lead to walked payload pseudo-instructions.
  predicate PayloadRefsWalked(c: Buf) {
    forall i :: i in Walk(c, 0) && RefersToPayload(c, i) ==>
      PayloadOffset(c, i) >= 0 && PayloadOffset(c, i) in Walk(c, 0) && HasOpcode(c, PayloadOffset(c, i), 0)
  }

  // Every instruction the run reaches within the given number of steps is a walked one.
  predicate StaysOnWalk<W>(c: Buf, statics: (W, nat) -> int,
                           other: (Buf, Buf, State<W>) -> Outcome<W>, o: Outcome<W>, steps: nat)
    decreases steps
  {
    steps == 0 || !o.Running?
    || (o.state.pc in Walk(c, 0)
        && StaysOnWalk(c, statics, other, Exec(c, statics, other, o.state), steps - 1))
  }

  // ---- walked instructions are disjoint ----------------------------------------

  lemma {:induction false} WalkedDisjoint(c: Buf, i: nat, a: nat, b: nat)
    requires a in Walk(c, i) && b in Walk(c, i) && a < b
    ensures Units(c, a).Some? && a + 2 * Units(c, a).value <= b
    decreases |c| - i
  {
    hide Units;
    var j := i + 2 * Units(c, i).value;
    WalkedDecode(c, i, a);
    if a == i {
      WalkedDecode(c, j, b);
    } else {
      WalkedDecode(c, i, b);
      WalkedDisjoint(c, j, a, b);
    }
  }

  // A walked instruction that is not patched keeps all its bytes.
  lemma UnpatchedBytes(c: Buf, target: U32, i: nat)
    requires i in Walk(c, 0) && i !in Slots(c, 0, target)
    ensures var d := Rewrite(c, 0, target);
            && Units(c, i).Some? && Units(d, i) == Units(c, i) && InsnBytes(d, i) == InsnBytes(c, i)
            && (forall k :: i <= k < |c| && k < i + 2 * Units(c, i).value ==> d[k] == c[k])
  {
    hide Units, Matches, Rewrite, Slots, Walk;
    WalkedDecode(c, 0, i);
    var d, slots := Rewrite(c, 0, target), Slots(c, 0, target);
    var e := i + 2 * Units(c, i).value;
    forall k | i <= k < |c| && k < e ensures d[k] == c[k] {
      if InSlot(slots, k) {
        var s :| s in slots && s <= k < s + 4;
        SlotsAreMatches(c, 0, target, s);
        MatchIsFourBytes(c, s, target);
        if s < i { WalkedDisjoint(c, 0, s, i); } else { WalkedDisjoint(c, 0, i, s); }
      }
      RewriteOutside(c, 0, target, k);
    }
    HeadDecides(c, d, i, target);
  }

  lemma MatchIsFourBytes(c: Buf, s: nat, target: U32)
    requires Matches(c, s, target)
    ensures Units(c, s) == Some(2)
  {
    PatchKeepsLength(c, s, target);
  }

  // ---- step for step ------------------------------------------------------------

  lemma PatchedStep<W>(c: Buf, target: U32, statics: (W, nat) -> int,
                       other: (Buf, Buf, State<W>) -> Outcome<W>, s: State<W>)
    requires s.pc in Slots(c, 0, target) && HasOpcode(c, s.pc, SGET)
    ensures Exec(Rewrite(c, 0, target), statics, other, s) == Exec(c, Clamped(statics, target), other, s)
  {
    hide Rewrite, Walk, Slots;
    var d := Rewrite(c, 0, target);
    RewriteInside(c, 0, target, s.pc);
    SlotsAreMatches(c, 0, target, s.pc);
    SameWalk(c, 0, target);
    WalkedDecode(d, 0, s.pc);
    var lit := d[s.pc + 2..s.pc + 4];
    assert lit == [35, 0] == LE(35, 2);
    PowersOf256();
    LERoundTrip(35, 2);
  }

  lemma UnpatchedStep<W>(c: Buf, target: U32, statics: (W, nat) -> int,
                         other: (Buf, Buf, State<W>) -> Outcome<W>, s: State<W>)
    requires s.pc in Walk(c, 0) && s.pc !in Slots(c, 0, target) && PayloadRefsWalked(c)
    ensures Exec(Rewrite(c, 0, target), statics, other, s) == Exec(c, Clamped(statics, target), other, s)
  {
    hide Rewrite, Walk, Slots, PayloadUnits, OpcodeUnits;
    var d, i := Rewrite(c, 0, target), s.pc;
    WalkedDecode(c, 0, i);
    UnpatchedBytes(c, target, i);
    if c[i] == SGET || c[i] == CONST_16 {
      TwoUnits(c, i);
      assert d[i + 2..i + 4] == c[i + 2..i + 4];
      if c[i] == SGET {
        SlotsAreMatches(c, 0, target, i);
      }
    } else {
      SamePayload(c, target, i);
    }
  }

  lemma TwoUnits(c: Buf, i: nat)
    requires Units(c, i).Some? && c[i] in {SGET, CONST_16}
    ensures Units(c, i) == Some(2) && i + 4 <= |c|
  {
  }

  lemma SamePayload(c: Buf, target: U32, i: nat)
    requires i in Walk(c, 0) && i !in Slots(c, 0, target) && PayloadRefsWalked(c)
    ensures PayloadBytes(Rewrite(c, 0, target), i) == PayloadBytes(c, i)
  {
    hide Rewrite, Walk, Slots, PayloadUnits;
    var d := Rewrite(c, 0, target);
    WalkedDecode(c, 0, i);
    UnpatchedBytes(c, target, i);
    assert d[i] == c[i];
    if RefersToPayload(c, i) {
      assert Units(c, i) == Some(3) && i + 6 <= |c|;
      assert d[i + 2..i + 6] == c[i + 2..i + 6];
      var t := PayloadOffset(c, i);
      SlotsAreMatches(c, 0, target, t);
      UnpatchedBytes(c, target, t);
    }
  }

  // Main result: every run of the original that stays on walked instructions is matched,
  // step for step, by the patched code.
  lemma {:induction false} MeaningPreserved<W>(c: Buf, target: U32, statics: (W, nat) -> int,
      other: (Buf, Buf, State<W>) -> Outcome<W>, o: Outcome<W>, steps: nat)
    requires OnlySgetReads(c, target) && PayloadRefsWalked(c)
    requires StaysOnWalk(c, Clamped(statics, target), other, o, steps)
    ensures Run(Rewrite(c, 0, target), statics, other, o, steps) ==
            Run(c, Clamped(statics, target), other, o, steps)
    decreases steps
  {
    hide Rewrite, Walk, Slots, Exec, PayloadRefsWalked;
    if steps > 0 && o.Running? {
      if o.state.pc in Slots(c, 0, target) {
        PatchedStep(c, target, statics, other, o.state);
      } else {
        UnpatchedStep(c, target, statics, other, o.state);
      }
      MeaningPreserved(c, target, statics, other, Exec(c, Clamped(statics, target), other, o.state), steps - 1);
    }
  }

  // Code whose instructions only ever pass control to walked instructions.
  ghost predicate ClosedCode<W(!new)>(c: Buf, other: (Buf, Buf, State<W>) -> Outcome<W>) {
    && (forall i :: i in Walk(c, 0) && (HasOpcode(c, i, SGET) || HasOpcode(c, i, CONST_16)) ==> i + 4 in Walk(c, 0))
    && (forall s: State<W> :: s.pc in Walk(c, 0) ==>
          var o := other(InsnBytes(c, s.pc), PayloadBytes(c, s.pc), s);
          o.Running? ==> o.state.pc in Walk(c, 0))
  }

  // All that is asked of a body and of where a run of it begins.
  ghost predicate Amenable<W(!new)>(c: Buf, target: U32, other: (Buf, Buf, State<W>) -> Outcome<W>, start: nat) {
    OnlySgetReads(c, target) && PayloadRefsWalked(c) && ClosedCode(c, other) && start in Walk(c, 0)
  }

  lemma {:induction false} ClosedCodeStaysOnWalk<W(!new)>(c: Buf, statics: (W, nat) -> int,
      other: (Buf, Buf, State<W>) -> Outcome<W>, o: Outcome<W>, steps: nat)
    requires ClosedCode(c, other) && (o.Running? ==> o.state.pc in Walk(c, 0))
    ensures StaysOnWalk(c, statics, other, o, steps)
    decreases steps
  {
    hide Walk, Units, PayloadBytes, InsnBytes;
    if steps > 0 && o.Running? {
      WalkedDecode(c, 0, o.state.pc);
      ClosedCodeStaysOnWalk(c, statics, other, Exec(c, statics, other, o.state), steps - 1);
    }
  }

  // For closed code the match holds for runs of any length from any walked instruction.
  lemma ClosedCodeMeaningPreserved<W(!new)>(c: Buf, target: U32, statics: (W, nat) -> int,
      other: (Buf, Buf, State<W>) -> Outcome<W>, s: State<W>, steps: nat)
    requires Amenable(c, target, other, s.pc)
    ensures Run(Rewrite(c, 0, target), statics, other, Running(s), steps) ==
            Run(c, Clamped(statics, target), other, Running(s), steps)
  {
    ClosedCodeStaysOnWalk(c, Clamped(statics, target), other, Running(s), steps);
    MeaningPreserved(c, target, statics, other, Running(s), steps);
  }

  // The opcode condition is needed: a matching instruction of another sget form is patched
  // too, and then a semantics exists (one that stops at it) that tells the codes apart.
  lemma OtherFormsChangeMeaning<W>(c: Buf, target: U32, statics: (W, nat) -> int, s: State<W>)
    requires s.pc in Slots(c, 0, target) && !HasOpcode(c, s.pc, SGET)
    ensures var stop := (insn: Buf, payload: Buf, t: State<W>) => Halted(t);
            Run(Rewrite(c, 0, target), statics, stop, Running(s), 1) !=
            Run(c, Clamped(statics, target), stop, Running(s), 1)
  {
    hide Rewrite, Walk, Slots;
    var d := Rewrite(c, 0, target);
    RewriteInside(c, 0, target, s.pc);
    SlotsAreMatches(c, 0, target, s.pc);
    SameWalk(c, 0, target);
    WalkedDecode(d, 0, s.pc);
    var stop := (insn: Buf, payload: Buf, t: State<W>) => Halted(t);
    assert Exec(d, statics, stop, s).Running?;
    assert Exec(c, Clamped(statics, target), stop, s).Halted?;
  }
}
