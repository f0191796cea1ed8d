/**
 * The in-place instruction rewrite: every `sget` of one static field becomes a
 * `const/16` of the same length.
 */
module DexInsns {
  import opened Bytes

  const CLAMPED_SDK_INT: U16 := 35
  const SGET: U8 := 0x60
  const CONST_16: U8 := 0x13

  /** Instruction formats of the Dalvik bytecode specification; the first digit of a format's
      name is its length in 16-bit code units. */
  datatype Format =
    | F00x | F10x | F10t | F11n | F11x | F12x
    | F20bc | F20t | F21c | F21h | F21s | F21t | F22b | F22c | F22cs | F22s | F22t | F22x | F23x
    | F30t | F31c | F31i | F31t | F32x | F35c | F35mi | F3rc | F3rmi
    | F45cc | F4rcc
    | F51l

  function FormatUnits(f: Format): (n: nat)
    ensures 1 <= n <= 5
  {
    match f
    case F00x | F10x | F10t | F11n | F11x | F12x => 1
    case F20bc | F20t | F21c | F21h | F21s | F21t | F22b | F22c | F22cs | F22s | F22t | F22x | F23x => 2
    case F30t | F31c | F31i | F31t | F32x | F35c | F35mi | F3rc | F3rmi => 3
    case F45cc | F4rcc => 4
    case F51l => 5
  }

  // The format of an opcode, None for an unused one. 0xe3 to 0xf2 are the opcodes that only
  // the on-device optimiser writes.
  function FormatOf(op: U8): Option<Format> {
    if op < 0x40 then LowFormat(op)
    else if op < 0x79 then AccessFormat(op)
    else if op < 0xe3 then ArithmeticFormat(op)
    else HighFormat(op)
  }

  // Moves, returns, constants, objects, jumps, switches and comparisons.
  function LowFormat(op: U8): Option<Format> {
    if op == 0x00 then Some(F10x)
    else if op in {0x01, 0x04, 0x07} then Some(F12x)
    else if op in {0x02, 0x05, 0x08} then Some(F22x)
    else if op in {0x03, 0x06, 0x09} then Some(F32x)
    else if op == 0x0e then Some(F10x)
    else if op <= 0x11 then Some(F11x)
    else if op == 0x12 then Some(F11n)
    else if op in {0x13, 0x16} then Some(F21s)
    else if op in {0x14, 0x17} then Some(F31i)
    else if op in {0x15, 0x19} then Some(F21h)
    else if op == 0x18 then Some(F51l)
    else if op == 0x1b then Some(F31c)
    else if op in {0x1a, 0x1c, 0x1f, 0x22} then Some(F21c)
    else if op in {0x1d, 0x1e, 0x27} then Some(F11x)
    else if op in {0x20, 0x23} then Some(F22c)
    else if op == 0x21 then Some(F12x)
    else if op == 0x24 then Some(F35c)
    else if op == 0x25 then Some(F3rc)
    else if op in {0x26, 0x2b, 0x2c} then Some(F31t)
    else if op == 0x28 then Some(F10t)
    else if op == 0x29 then Some(F20t)
    else if op == 0x2a then Some(F30t)
    else if op <= 0x31 then Some(F23x)
    else if op <= 0x37 then Some(F22t)
    else if op <= 0x3d then Some(F21t)
    else None
  }

  // Array, instance and static accesses, and calls.
  function AccessFormat(op: U8): Option<Format> {
    if op <= 0x43 then None
    else if op <= 0x51 then Some(F23x)
    else if op <= 0x5f then Some(F22c)
    else if op <= 0x6d then Some(F21c)
    else if op <= 0x72 then Some(F35c)
    else if op == 0x73 then None
    else Some(F3rc)
  }

  function ArithmeticFormat(op: U8): Option<Format> {
    if op <= 0x7a then None
    else if op <= 0x8f then Some(F12x)
    else if op <= 0xaf then Some(F23x)
    else if op <= 0xcf then Some(F12x)
    else if op <= 0xd7 then Some(F22s)
    else Some(F22b)
  }

  function HighFormat(op: U8): Option<Format> {
    if op in {0xe5, 0xe6, 0xea, 0xeb} then Some(F21c)
    else if op <= 0xe9 then Some(F22c)
    else if op == 0xec then Some(F00x)
    else if op == 0xed then Some(F20bc)
    else if op == 0xee then Some(F35mi)
    else if op == 0xef then Some(F3rmi)
    else if op == 0xf0 then Some(F35c)
    else if op == 0xf1 then Some(F10x)
    else if op == 0xf2 then Some(F22cs)
    else if op <= 0xf9 then None
    else if op == 0xfa then Some(F45cc)
    else if op == 0xfb then Some(F4rcc)
    else if op == 0xfc then Some(F35c)
    else if op == 0xfd then Some(F3rc)
    else Some(F21c)
  }

  // Instruction length in code units, 0 for an unused opcode.
  function OpcodeUnits(op: U8): (n: nat)
    ensures n <= 5
  {
    var f := FormatOf(op);
    if f == None then 0 else FormatUnits(f.value)
  }

  // The same lengths as the table lists them, sixteen opcodes a row.
  function TableRow(high: nat): (row: seq<nat>)
    ensures |row| == 16
  {
    match high
    case 0x0 => [1, 1, 2, 3, 1, 2, 3, 1, 2, 3, 1, 1, 1, 1, 1, 1]
    case 0x1 => [1, 1, 1, 2, 3, 2, 2, 3, 5, 2, 2, 3, 2, 1, 1, 2]
    case 0x2 => [2, 1, 2, 2, 3, 3, 3, 1, 1, 2, 3, 3, 3, 2, 2, 2]
    case 0x3 => [2, 2, 2, 2, 2, 2, 2, 2, 2, 2, 2, 2, 2, 2, 0, 0]
    case 0x4 => [0, 0, 0, 0, 2, 2, 2, 2, 2, 2, 2, 2, 2, 2, 2, 2]
    case 0x5 => [2, 2, 2, 2, 2, 2, 2, 2, 2, 2, 2, 2, 2, 2, 2, 2]
    case 0x6 => [2, 2, 2, 2, 2, 2, 2, 2, 2, 2, 2, 2, 2, 2, 3, 3]
    case 0x7 => [3, 3, 3, 0, 3, 3, 3, 3, 3, 0, 0, 1, 1, 1, 1, 1]
    case 0x8 => [1, 1, 1, 1, 1, 1, 1, 1, 1, 1, 1, 1, 1, 1, 1, 1]
    case 0x9 => [2, 2, 2, 2, 2, 2, 2, 2, 2, 2, 2, 2, 2, 2, 2, 2]
    case 0xa => [2, 2, 2, 2, 2, 2, 2, 2, 2, 2, 2, 2, 2, 2, 2, 2]
    case 0xb => [1, 1, 1, 1, 1, 1, 1, 1, 1, 1, 1, 1, 1, 1, 1, 1]
    case 0xc => [1, 1, 1, 1, 1, 1, 1, 1, 1, 1, 1, 1, 1, 1, 1, 1]
    case 0xd => [2, 2, 2, 2, 2, 2, 2, 2, 2, 2, 2, 2, 2, 2, 2, 2]
    case 0xe => [2, 2, 2, 2, 2, 2, 2, 2, 2, 2, 2, 2, 1, 2, 3, 3]
    case _ => [3, 1, 2, 0, 0, 0, 0, 0, 0, 0, 4, 4, 3, 3, 2, 2]
  }

  predicate Nibble(n: nat) {
    n in {0, 1, 2, 3, 4, 5, 6, 7, 8, 9, 10, 11, 12, 13, 14, 15}
  }

  lemma LowestRows(high: nat, low: nat)
    requires high < 2 && Nibble(low)
    ensures TableRow(high)[low] == OpcodeUnits(16 * high + low)
  {
    match high case 0 => case 1 =>
  }

  lemma LowerRows(high: nat, low: nat)
    requires 2 <= high < 8 && Nibble(low)
    ensures TableRow(high)[low] == OpcodeUnits(16 * high + low)
  {
    match high case 2 => case 3 => case 4 => case 5 => case 6 => case 7 =>
  }

  lemma UpperRows(high: nat, low: nat)
    requires 8 <= high < 16 && Nibble(low)
    ensures TableRow(high)[low] == OpcodeUnits(16 * high + low)
  {
    match high case 8 => case 9 => case 10 => case 11 => case 12 => case 13 => case 14 => case 15 =>
  }

  // Every entry of the table is the length of its opcode's format.
  lemma TableIsFormats(high: nat, low: nat)
    requires high < 16 && low < 16
    ensures TableRow(high)[low] == OpcodeUnits(16 * high + low)
  {
    hide TableRow, OpcodeUnits;
    if high < 2 {
      LowestRows(high, low);
    } else if high < 8 {
      LowerRows(high, low);
    } else {
      UpperRows(high, low);
    }
  }

  // Length of a nop or of one of the three payload tables (packed-switch, sparse-switch,
  // fill-array-data); None when its size field is cut off.
  function PayloadUnits(c: Buf, i: nat): (u: Option<nat>)
    requires i + 2 <= |c|
    ensures u.Some? ==> u.value > 0
  {
    match c[i + 1]
    case 0x01 => if i + 4 > |c| then None else Some(4 + 2 * FromLE(c[i + 2..i + 4]))
    case 0x02 => if i + 4 > |c| then None else Some(2 + 4 * FromLE(c[i + 2..i + 4]))
    case 0x03 =>
      if i + 8 > |c| then None
      else Some(4 + (FromLE(c[i + 4..i + 8]) * FromLE(c[i + 2..i + 4]) + 1) / 2)
    case _ => Some(1)
  }

  // Code units the walk steps over at i; None where it stops.
  function Units(c: Buf, i: nat): (u: Option<nat>)
    ensures u.Some? ==> u.value > 0 && i + 2 <= |c|
  {
    if i + 2 > |c| then None
    else if c[i] == 0 then PayloadUnits(c, i)
    else
      var n := OpcodeUnits(c[i]);
      if n == 0 then Some(1) else if i + 2 * n > |c| then None else Some(n)
  }

  // Offsets of the instructions the linear walk visits from i on.
  function Walk(c: Buf, i: nat): seq<nat>
    decreases |c| - i
  {
    var u := Units(c, i);
    if u == None then [] else [i] + Walk(c, i + 2 * u.value)
  }

  // A walked sget-family instruction that reads the target field.
  predicate Matches(c: Buf, i: nat, target: U32) {
    Units(c, i).Some? && 0x60 <= c[i] <= 0x66 && FromLE(c[i + 2..i + 4]) == target
  }

  function Slots(c: Buf, i: nat, target: U32): seq<nat>
    decreases |c| - i
  {
    var u := Units(c, i);
    if u == None then []
    else (if Matches(c, i, target) then [i] else []) + Slots(c, i + 2 * u.value, target)
  }

  // const/16 vAA, #35 over the four bytes at i.
  function Patch(c: Buf, i: nat): (d: Buf)
    requires i + 4 <= |c|
    ensures |d| == |c|
  {
    c[i := CONST_16][i + 2 := CLAMPED_SDK_INT % 256][i + 3 := CLAMPED_SDK_INT / 256]
  }

  // The walk that patches as it goes, reading the bytes it has already changed.
  function Rewrite(c: Buf, i: nat, target: U32): (d: Buf)
    ensures |d| == |c|
    decreases |c| - i
  {
    var u := Units(c, i);
    if u == None then c
    else Rewrite(if Matches(c, i, target) then Patch(c, i) else c, i + 2 * u.value, target)
  }

  // ---- the walk is undisturbed ----------------------------------------------

  predicate AgreeFrom(c: Buf, d: Buf, i: nat) {
    |c| == |d| && forall k :: i <= k < |c| ==> c[k] == d[k]
  }

  lemma UnitsLocal(c: Buf, d: Buf, i: nat, target: U32)
    requires AgreeFrom(c, d, i)
    ensures Units(c, i) == Units(d, i)
    ensures Matches(c, i, target) <==> Matches(d, i, target)
  {
    if i + 4 <= |c| {
      assert c[i + 2..i + 4] == d[i + 2..i + 4];
    }
    if i + 8 <= |c| {
      assert c[i + 4..i + 8] == d[i + 4..i + 8];
    }
  }

  lemma {:induction false} WalkLocal(c: Buf, d: Buf, i: nat, target: U32)
    requires AgreeFrom(c, d, i)
    ensures Walk(c, i) == Walk(d, i)
    ensures Slots(c, i, target) == Slots(d, i, target)
    decreases |c| - i
  {
    hide Units, Matches;
    UnitsLocal(c, d, i, target);
    var u := Units(c, i);
    if u.Some? {
      WalkLocal(c, d, i + 2 * u.value, target);
    }
  }

  lemma PatchKeepsLength(c: Buf, i: nat, target: U32)
    requires Matches(c, i, target)
    ensures i + 4 <= |c| && Units(c, i) == Some(2)
    ensures Units(Patch(c, i), i) == Some(2) && !Matches(Patch(c, i), i, target)
    ensures AgreeFrom(c, Patch(c, i), i + 4)
  {
    assert c[i] <= 0x66;
  }

  lemma SgetUnits(c: Buf, i: nat)
    ensures Units(c, i).Some? && 0x60 <= c[i] <= 0x66 ==> Units(c, i) == Some(2)
  {
  }

  // Decoding an instruction looks only at its own bytes.
  lemma HeadDecides(c: Buf, d: Buf, i: nat, target: U32)
    requires |c| == |d| && Units(c, i).Some?
    requires forall k :: i <= k < i + 2 * Units(c, i).value && k < |c| ==> c[k] == d[k]
    ensures Units(d, i) == Units(c, i) && (Matches(d, i, target) <==> Matches(c, i, target))
  {
    SgetUnits(c, i);
    hide OpcodeUnits;
    if c[i] == 0 && 0x01 <= c[i + 1] <= 0x03 {
      assert c[i + 2..i + 4] == d[i + 2..i + 4];
      if c[i + 1] == 0x03 {
        assert c[i + 4..i + 8] == d[i + 4..i + 8];
      }
    } else if 0x60 <= c[i] <= 0x66 {
      assert c[i + 2..i + 4] == d[i + 2..i + 4];
    }
  }

  // Rewriting from i on leaves everything in front of i alone.
  lemma {:induction false} RewriteKeepsFront(c: Buf, i: nat, target: U32, k: nat)
    requires k < i && k < |c|
    ensures Rewrite(c, i, target)[k] == c[k]
    decreases |c| - i
  {
    var u := Units(c, i);
    if u.Some? {
      RewriteKeepsFront(if Matches(c, i, target) then Patch(c, i) else c, i + 2 * u.value, target, k);
    }
  }

  // One step of the patching walk.
  function Stepped(c: Buf, i: nat, target: U32): Buf {
    if Matches(c, i, target) then PatchKeepsLength(c, i, target); Patch(c, i) else c
  }

  lemma SteppedDecode(c: Buf, i: nat, target: U32)
    requires Units(c, i).Some?
    ensures var j := i + 2 * Units(c, i).value;
            && Rewrite(c, i, target) == Rewrite(Stepped(c, i, target), j, target)
            && AgreeFrom(c, Stepped(c, i, target), j)
            && Walk(Stepped(c, i, target), j) == Walk(c, j)
            && Slots(Stepped(c, i, target), j, target) == Slots(c, j, target)
    ensures Units(Stepped(c, i, target), i) == Units(c, i)
    ensures !Matches(Stepped(c, i, target), i, target)
    ensures forall k :: 0 <= k < |c| && !(Matches(c, i, target) && i <= k < i + 4) ==>
                          Stepped(c, i, target)[k] == c[k]
  {
    if Matches(c, i, target) {
      PatchKeepsLength(c, i, target);
      WalkLocal(c, Patch(c, i), i + 4, target);
    }
  }

  // Rewriting the rest keeps how the instruction at i decodes.
  lemma RewriteKeepsDecode(q: Buf, i: nat, target: U32)
    requires Units(q, i).Some?
    ensures var d := Rewrite(q, i + 2 * Units(q, i).value, target);
            Units(d, i) == Units(q, i) && (Matches(d, i, target) <==> Matches(q, i, target))
  {
    hide Units, Matches, Rewrite;
    var j := i + 2 * Units(q, i).value;
    forall k | i <= k < j && k < |q| ensures Rewrite(q, j, target)[k] == q[k] {
      RewriteKeepsFront(q, j, target, k);
    }
    HeadDecides(q, Rewrite(q, j, target), i, target);
  }

  lemma WalkStep(c: Buf, i: nat, target: U32)
    requires Units(c, i).Some?
    ensures var j := i + 2 * Units(c, i).value;
            && Walk(c, i) == [i] + Walk(c, j)
            && Slots(c, i, target) ==
               (if Matches(c, i, target) then [i] else []) + Slots(c, j, target)
  {
  }

  lemma WalkStops(c: Buf, i: nat, target: U32)
    requires Units(c, i) == None
    ensures Walk(c, i) == [] && Slots(c, i, target) == [] && Rewrite(c, i, target) == c
  {
  }

  // The walk over the patched code visits the same offsets and finds no match.
  lemma {:induction false} SameWalk(c: Buf, i: nat, target: U32)
    ensures Walk(Rewrite(c, i, target), i) == Walk(c, i)
    ensures Slots(Rewrite(c, i, target), i, target) == []
    decreases |c| - i
  {
    hide Units, Matches, Stepped, Rewrite, Walk, Slots;
    if Units(c, i) == None {
      WalkStops(c, i, target);
    } else {
      var q := Stepped(c, i, target);
      SteppedDecode(c, i, target);
      SameWalk(q, i + 2 * Units(c, i).value, target);
      RewriteKeepsDecode(q, i, target);
      WalkStep(c, i, target);
      WalkStep(Rewrite(c, i, target), i, target);
    }
  }

  predicate InSlot(slots: seq<nat>, k: int) {
    exists s :: s in slots && s <= k < s + 4
  }

  lemma SlotFirst(c: Buf, i: nat, target: U32, k: int)
    requires Units(c, i).Some? && !InSlot(Slots(c, i, target), k)
    ensures !InSlot(Slots(c, i + 2 * Units(c, i).value, target), k)
    ensures Matches(c, i, target) ==> !(i <= k < i + 4)
  {
    var all, j := Slots(c, i, target), i + 2 * Units(c, i).value;
    var rest := Slots(c, j, target);
    if Matches(c, i, target) {
      assert i in all;
    }
    forall s | s in rest ensures s in all {
    }
  }

  // Bytes outside the matching instructions keep their value, payload bytes included.
  lemma {:induction false} RewriteOutside(c: Buf, i: nat, target: U32, k: nat)
    requires k < |c| && !InSlot(Slots(c, i, target), k)
    ensures Rewrite(c, i, target)[k] == c[k]
    decreases |c| - i
  {
    hide Units, Matches;
    if Units(c, i).Some? {
      SlotFirst(c, i, target, k);
      SteppedDecode(c, i, target);
      RewriteOutside(Stepped(c, i, target), i + 2 * Units(c, i).value, target, k);
    }
  }

  predicate IsConst16(c: Buf, d: Buf, s: nat) {
    && s + 4 <= |c| == |d|
    && d[s] == CONST_16 && d[s + 1] == c[s + 1] && d[s + 2] == 35 && d[s + 3] == 0
  }

  // A matching instruction becomes const/16 of the same register with literal 35.
  lemma {:induction false} RewriteInside(c: Buf, i: nat, target: U32, s: nat)
    requires s in Slots(c, i, target)
    ensures i <= s && IsConst16(c, Rewrite(c, i, target), s)
    decreases |c| - i
  {
    hide Units, Matches;
    var j := i + 2 * Units(c, i).value;
    var q := Stepped(c, i, target);
    SteppedDecode(c, i, target);
    if s == i && Matches(c, i, target) {
      PatchKeepsLength(c, i, target);
      forall k | i <= k < j ensures Rewrite(q, j, target)[k] == q[k] {
        RewriteKeepsFront(q, j, target, k);
      }
    } else {
      RewriteInside(q, j, target, s);
    }
  }

  // ---- main results -----------------------------------------------------------

  // In-place exactness: same walk; each matching sget becomes const/16 of the same
  // register with literal 35; nothing else changes; a second pass finds nothing.
  lemma RewriteExact(c: Buf, target: U32)
    ensures var d := Rewrite(c, 0, target);
            && Walk(d, 0) == Walk(c, 0)
            && (forall s :: s in Slots(c, 0, target) ==> IsConst16(c, d, s))
            && (forall k :: 0 <= k < |c| && !InSlot(Slots(c, 0, target), k) ==> d[k] == c[k])
            && Slots(d, 0, target) == [] && Rewrite(d, 0, target) == d
  {
    var d := Rewrite(c, 0, target);
    SameWalk(c, 0, target);
    NothingToRewrite(d, 0, target);
    forall s | s in Slots(c, 0, target) ensures IsConst16(c, d, s) {
      RewriteInside(c, 0, target, s);
    }
    forall k | 0 <= k < |c| && !InSlot(Slots(c, 0, target), k) ensures d[k] == c[k] {
      RewriteOutside(c, 0, target, k);
    }
  }

  lemma {:induction false} NothingToRewrite(c: Buf, i: nat, target: U32)
    requires Slots(c, i, target) == []
    ensures Rewrite(c, i, target) == c
    decreases |c| - i
  {
    hide Units, Matches;
    var u := Units(c, i);
    if u.Some? {
      NothingToRewrite(c, i + 2 * u.value, target);
    }
  }

  // The slots are exactly the walked instructions that match.
  lemma {:induction false} SlotsAreMatches(c: Buf, i: nat, target: U32, k: nat)
    ensures k in Slots(c, i, target) <==> k in Walk(c, i) && Matches(c, k, target)
    decreases |c| - i
  {
    hide Units, Matches;
    var u := Units(c, i);
    if u.Some? {
      SlotsAreMatches(c, i + 2 * u.value, target, k);
    }
  }

  lemma {:induction false} WalkedDecode(c: Buf, i: nat, k: nat)
    requires k in Walk(c, i)
    ensures Units(c, k).Some? && i <= k
    decreases |c| - i
  {
    var u := Units(c, i);
    if k != i {
      WalkedDecode(c, i + 2 * u.value, k);
    }
  }

  // A field index beyond 16 bits is never referenced by an instruction.
  lemma {:induction false} WideTargetNeverMatches(c: Buf, i: nat, target: U32)
    requires target >= 0x1_0000
    ensures Slots(c, i, target) == []
    decreases |c| - i
  {
    var u := Units(c, i);
    if u.Some? {
      if 0x60 <= c[i] <= 0x66 {
        FromLEBound(c[i + 2..i + 4]);
        PowersOf256();
      }
      WideTargetNeverMatches(c, i + 2 * u.value, target);
    }
  }

  // ---- the loop ---------------------------------------------------------------

  datatype PatchResult = PatchResult(patches: nat, bytesRewritten: nat)

  function Count(r: PatchResult, n: nat): PatchResult {
    PatchResult(r.patches + n, r.bytesRewritten + 4 * n)
  }

  function Splice(b: Buf, lo: nat, part: Buf): (r: Buf)
    requires lo + |part| <= |b|
    ensures |r| == |b|
  {
    b[..lo] + part + b[lo + |part|..]
  }

  method TableEntry(op: U8) returns (n: nat)
    ensures n == OpcodeUnits(op)
  {
    hide TableRow, OpcodeUnits;
    TableIsFormats(op / 16, op % 16);
    assert 16 * (op / 16) + op % 16 == op;
    n := TableRow(op / 16)[op % 16];
  }

  // The length decision of one iteration.
  method StepUnits(insns: Buf, i: nat) returns (u: Option<nat>)
    requires i + 2 <= |insns|
    ensures u == Units(insns, i)
  {
    var opcode := insns[i];
    if opcode == 0x00 {
      var ident := insns[i + 1];
      if ident == 0x01 || ident == 0x02 {
        if i + 4 > |insns| { return None; }
        var size := FromLE(insns[i + 2..i + 4]);
        return Some(if ident == 0x01 then 4 + 2 * size else 2 + 4 * size);
      }
      if ident == 0x03 {
        if i + 8 > |insns| { return None; }
        var width := FromLE(insns[i + 2..i + 4]);
        var size := FromLE(insns[i + 4..i + 8]);
        return Some(4 + (size * width + 1) / 2);
      }
      return Some(1);
    }
    var units := TableEntry(opcode);
    if units == 0 { return Some(1); }
    if i + 2 * units > |insns| { return None; }
    return Some(units);
  }

  method ReadsField(insns: Buf, i: nat, target: U32) returns (r: bool)
    requires Units(insns, i).Some?
    ensures r == Matches(insns, i, target)
  {
    r := 0x60 <= insns[i] <= 0x66 && FromLE(insns[i + 2..i + 4]) == target;
  }

  method PatchAt(dex: array<U8>, lo: nat, hi: nat, i: nat)
    requires lo <= hi <= dex.Length && i + 4 <= hi - lo
    modifies dex
    ensures dex[lo..hi] == Patch(old(dex[lo..hi]), i)
    ensures dex[..lo] == old(dex[..lo]) && dex[hi..] == old(dex[hi..])
  {
    var vAA := dex[lo + i + 1];
    dex[lo + i] := CONST_16;
    dex[lo + i + 1] := vAA;
    dex[lo + i + 2] := CLAMPED_SDK_INT % 256;
    dex[lo + i + 3] := CLAMPED_SDK_INT / 256;
  }

  method RewriteSgetInInsns(dex: array<U8>, lo: nat, hi: nat, target: U32, before: PatchResult)
    returns (out: PatchResult)
    requires lo <= hi <= dex.Length
    modifies dex
    ensures dex[..] == Splice(old(dex[..]), lo, Rewrite(old(dex[lo..hi]), 0, target))
    ensures out == Count(before, |Slots(old(dex[lo..hi]), 0, target)|)
  {
    hide Units, Matches, Patch, FromLE;
    ghost var was := dex[lo..hi];
    out := before;
    var i, n := 0, hi - lo;
    while i + 2 <= n
      invariant Rewrite(dex[lo..hi], i, target) == Rewrite(was, 0, target)
      invariant Count(out, |Slots(dex[lo..hi], i, target)|) == Count(before, |Slots(was, 0, target)|)
      invariant dex[..lo] == old(dex[..lo]) && dex[hi..] == old(dex[hi..])
      decreases n - i
    {
      var insns := dex[lo..hi];
      var units := StepUnits(insns, i);
      if units == None { break; }
      var isTarget := ReadsField(insns, i, target);
      if isTarget {
        PatchKeepsLength(insns, i, target);
        SteppedDecode(insns, i, target);
        PatchAt(dex, lo, hi, i);
        out := Count(out, 1);
      }
      i := i + units.value * 2;
    }
    assert dex[..] == dex[..lo] + dex[lo..hi] + dex[hi..];
  }
}
