/**
 * Instruction arrays from structured items: instructions of the lengths their formats give,
 * and the three payload tables of the Dalvik bytecode specification. The walk visits exactly
 * the items, and the rewrite acts on them.
 */
module DexItems {
  import opened Bytes
  import opened DexInsns

  datatype Item =
    | Insn(op: U8, arg: U8, units: seq<U16>)
    | PackedSwitch(firstKey: U32, targets: seq<U32>)
    | SparseSwitch(keys: seq<U32>, targets: seq<U32>)
    | ArrayData(width: U16, elements: seq<Buf>)

  // Code units behind the first one.
  function MoreUnits(op: U8): nat {
    var f := FormatOf(op);
    if f == None then 0 else FormatUnits(f.value) - 1
  }

  predicate WellFormed(x: Item) {
    match x
    case Insn(op, arg, units) => |units| == MoreUnits(op) && (op == 0 ==> arg !in {1, 2, 3})
    case PackedSwitch(_, targets) => |targets| < 0x1_0000
    case SparseSwitch(keys, targets) => |keys| == |targets| < 0x1_0000
    case ArrayData(width, elements) => |elements| < 0x1_0000_0000 && Uniform(elements, width)
  }

  predicate Uniform(elements: seq<Buf>, width: nat) { forall k :: 0 <= k < |elements| ==> |elements[k]| == width }

  function Halves(us: seq<U16>): (s: Buf)
    ensures |s| == 2 * |us|
  {
    if us == [] then [] else LE(us[0], 2) + Halves(us[1..])
  }

  function Words(ws: seq<U32>): (s: Buf)
    ensures |s| == 4 * |ws|
  {
    if ws == [] then [] else LE(ws[0], 4) + Words(ws[1..])
  }

  function Encode(x: Item): (s: Buf)
    ensures |s| % 2 == 0 && |s| > 0
  {
    match x
    case Insn(op, arg, units) => [op, arg] + Halves(units)
    case PackedSwitch(firstKey, targets) => [0x00, 0x01] + (LE(|targets|, 2) + (LE(firstKey, 4) + Words(targets)))
    case SparseSwitch(keys, targets) => [0x00, 0x02] + (LE(|keys|, 2) + (Words(keys) + Words(targets)))
    case ArrayData(width, elements) =>
      var data := Concat(elements);
      [0x00, 0x03] + (LE(width, 2) + (LE(|elements|, 4) + (data + if |data| % 2 == 0 then [] else [0])))
  }

  function EncodeItems(xs: seq<Item>): Buf {
    if xs == [] then [] else Encode(xs[0]) + EncodeItems(xs[1..])
  }

  predicate AllWellFormed(xs: seq<Item>) { forall k :: 0 <= k < |xs| ==> WellFormed(xs[k]) }

  // Where the items stand, by the bytes in front of them.
  function Offsets(xs: seq<Item>, i: nat): seq<nat> {
    if xs == [] then [] else [i] + Offsets(xs[1..], i + |Encode(xs[0])|)
  }

  // One of the seven static-get instructions, on the target field.
  predicate Gets(x: Item, target: U32) {
    x.Insn? && x.op in {0x60, 0x61, 0x62, 0x63, 0x64, 0x65, 0x66} && |x.units| > 0 && x.units[0] == target
  }

  // const/16 vAA, #35 in its place.
  function Clamp(x: Item, target: U32): Item {
    if Gets(x, target) then Insn(0x13, x.arg, [35]) else x
  }

  function ClampAll(xs: seq<Item>, target: U32): seq<Item> {
    if xs == [] then [] else [Clamp(xs[0], target)] + ClampAll(xs[1..], target)
  }

  function GetOffsets(xs: seq<Item>, i: nat, target: U32): seq<nat> {
    if xs == [] then []
    else (if Gets(xs[0], target) then [i] else []) + GetOffsets(xs[1..], i + |Encode(xs[0])|, target)
  }

  // ---- one item ------------------------------------------------------------------------------

  lemma {:induction false} ElementsSize(elements: seq<Buf>, width: nat)
    requires Uniform(elements, width)
    ensures |Concat(elements)| == |elements| * width
    decreases |elements|
  {
    if elements != [] {
      ElementsSize(elements[1..], width);
      assert |elements| * width == width + (|elements| - 1) * width;
    }
  }

  // The first bytes of what stands at i.
  lemma HeadAt(c: Buf, i: nat, a: U8, b: U8, rest: Buf)
    requires At(c, i, [a, b] + rest)
    ensures i + 2 <= |c| && c[i] == a && c[i + 1] == b && At(c, i + 2, rest)
  {
    AtSplit(c, i, [a, b], rest);
    assert c[i] == c[i..i + 2][0] && c[i + 1] == c[i..i + 2][1];
  }

  lemma InsnUnits(c: Buf, i: nat, x: Item)
    requires x.Insn? && WellFormed(x) && At(c, i, Encode(x))
    ensures Units(c, i) == Some(|Encode(x)| / 2)
  {
    hide LE, FromLE, FormatOf, FormatUnits, Halves;
    HeadAt(c, i, x.op, x.arg, Halves(x.units));
    if x.op == 0 {
      NopFormat();
    } else {
      hide PayloadUnits;
      assert OpcodeUnits(x.op) == if FormatOf(x.op) == None then 0 else 1 + |x.units|;
    }
  }

  lemma NopFormat()
    ensures MoreUnits(0) == 0
  {
  }

  lemma PackedUnits(c: Buf, i: nat, x: Item)
    requires x.PackedSwitch? && WellFormed(x) && At(c, i, Encode(x))
    ensures Units(c, i) == Some(|Encode(x)| / 2) && c[i] == 0
  {
    hide LE, FromLE, OpcodeUnits, At, Words;
    var rest := LE(x.firstKey, 4) + Words(x.targets);
    HeadAt(c, i, 0x00, 0x01, LE(|x.targets|, 2) + rest);
    HalfAt(c, i + 2, |x.targets|, rest);
  }

  lemma SparseUnits(c: Buf, i: nat, x: Item)
    requires x.SparseSwitch? && WellFormed(x) && At(c, i, Encode(x))
    ensures Units(c, i) == Some(|Encode(x)| / 2) && c[i] == 0
  {
    hide LE, FromLE, OpcodeUnits, At, Words;
    var rest := Words(x.keys) + Words(x.targets);
    HeadAt(c, i, 0x00, 0x02, LE(|x.keys|, 2) + rest);
    HalfAt(c, i + 2, |x.keys|, rest);
  }

  lemma ArrayHead(c: Buf, i: nat, x: Item)
    requires x.ArrayData? && WellFormed(x) && At(c, i, Encode(x))
    ensures i + 8 <= |c| && c[i] == 0 && c[i + 1] == 3
    ensures FromLE(c[i + 2..i + 4]) == x.width && FromLE(c[i + 4..i + 8]) == |x.elements|
  {
    hide LE, FromLE, At, Concat, Uniform;
    var data := Concat(x.elements);
    var tail := data + if |data| % 2 == 0 then [] else [0];
    HeadAt(c, i, 0x00, 0x03, LE(x.width, 2) + (LE(|x.elements|, 4) + tail));
    HalfAt(c, i + 2, x.width, LE(|x.elements|, 4) + tail);
    WordAt(c, i + 4, |x.elements|, tail);
  }

  lemma ArraySize(x: Item)
    requires x.ArrayData? && WellFormed(x)
    ensures |Encode(x)| / 2 == 4 + (|x.elements| * x.width + 1) / 2
  {
    hide LE, Concat;
    ElementsSize(x.elements, x.width);
    RoundUp(|Concat(x.elements)|);
  }

  lemma RoundUp(n: nat)
    ensures (8 + (n + if n % 2 == 0 then 0 else 1)) / 2 == 4 + (n + 1) / 2
  {
  }

  lemma ArrayUnits(c: Buf, i: nat, x: Item)
    requires x.ArrayData? && WellFormed(x) && At(c, i, Encode(x))
    ensures Units(c, i) == Some(|Encode(x)| / 2) && c[i] == 0
  {
    hide FromLE, OpcodeUnits, Encode, WellFormed;
    ArrayHead(c, i, x);
    ArraySize(x);
  }

  // The walk steps over an item by the length of its bytes.
  lemma ItemUnits(c: Buf, i: nat, x: Item)
    requires WellFormed(x) && At(c, i, Encode(x))
    ensures Units(c, i) == Some(|Encode(x)| / 2) && i + 2 <= |c|
  {
    hide Units, Encode, WellFormed;
    match x
    case Insn(_, _, _) => InsnUnits(c, i, x);
    case PackedSwitch(_, _) => PackedUnits(c, i, x);
    case SparseSwitch(_, _) => SparseUnits(c, i, x);
    case ArrayData(_, _) => ArrayUnits(c, i, x);
  }

  lemma PayloadBegins(c: Buf, i: nat, x: Item)
    requires !x.Insn? && WellFormed(x) && At(c, i, Encode(x))
    ensures i < |c| && c[i] == 0
  {
    hide Units, WellFormed, Encode;
    ItemUnits(c, i, x);
    match x
    case PackedSwitch(_, _) => PackedUnits(c, i, x);
    case SparseSwitch(_, _) => SparseUnits(c, i, x);
    case ArrayData(_, _) => ArrayUnits(c, i, x);
  }

  lemma InsnMatches(c: Buf, i: nat, x: Item, target: U32)
    requires x.Insn? && WellFormed(x) && At(c, i, Encode(x))
    ensures Matches(c, i, target) <==> Gets(x, target)
  {
    InsnUnits(c, i, x);
    hide LE, FromLE, Units;
    HeadAt(c, i, x.op, x.arg, Halves(x.units));
    if 0x60 <= x.op <= 0x66 {
      StaticFormat(x.op);
      HalfAt(c, i + 2, x.units[0], Halves(x.units[1..]));
    }
  }

  lemma StaticFormat(op: U8)
    requires 0x60 <= op <= 0x66
    ensures MoreUnits(op) == 1
  {
  }

  // It matches exactly when it is a static get on the target field.
  lemma ItemMatches(c: Buf, i: nat, x: Item, target: U32)
    requires WellFormed(x) && At(c, i, Encode(x))
    ensures Matches(c, i, target) <==> Gets(x, target)
  {
    if x.Insn? {
      InsnMatches(c, i, x, target);
    } else {
      PayloadBegins(c, i, x);
    }
  }

  // ---- the whole array ----------------------------------------------------------------------------

  /**
   * For any list of items, the walk over their bytes visits exactly the items' offsets, and the
   * patched slots are exactly the static gets of the target field.
   */
  lemma {:induction false} ItemsWalk(c: Buf, i: nat, xs: seq<Item>, target: U32)
    requires AllWellFormed(xs) && At(c, i, EncodeItems(xs)) && i + |EncodeItems(xs)| == |c|
    ensures Walk(c, i) == Offsets(xs, i)
    ensures Slots(c, i, target) == GetOffsets(xs, i, target)
    decreases |xs|
  {
    hide Units, Matches, Encode, WellFormed, Gets;
    if xs == [] {
      assert Units(c, i) == None by { NoUnits(c, i); }
    } else {
      var j := i + |Encode(xs[0])|;
      AtSplit(c, i, Encode(xs[0]), EncodeItems(xs[1..]));
      ItemUnits(c, i, xs[0]);
      ItemMatches(c, i, xs[0], target);
      WalkStep(c, i, target);
      ItemsWalk(c, j, xs[1..], target);
    }
  }

  lemma NoUnits(c: Buf, i: nat)
    requires i == |c|
    ensures Units(c, i) == None
  {
  }

  // What one step of the rewrite leaves where an item stood.
  lemma SteppedItem(c: Buf, i: nat, x: Item, target: U32)
    requires WellFormed(x) && At(c, i, Encode(x))
    ensures var d, j := Stepped(c, i, target), i + |Encode(x)|;
            |d| == |c| && d[..j] == c[..i] + Encode(Clamp(x, target)) && d[j..] == c[j..]
  {
    hide Matches, Units, WellFormed, Encode, Patch;
    ItemMatches(c, i, x, target);
    var j := i + |Encode(x)|;
    if Gets(x, target) {
      PatchKeepsLength(c, i, target);
      GetBytes(x, target);
      ConstBytes(x.arg);
      GetHead(c, i, x);
      PatchedBytes(c, i);
    } else {
      assert c[..j] == c[..i] + c[i..j];
    }
  }

  lemma GetHead(c: Buf, i: nat, x: Item)
    requires x.Insn? && At(c, i, Encode(x))
    ensures i + 2 <= |c| && c[i + 1] == x.arg
  {
    HeadAt(c, i, x.op, x.arg, Halves(x.units));
  }

  lemma PatchedBytes(c: Buf, i: nat)
    requires i + 4 <= |c|
    ensures Patch(c, i)[..i + 4] == c[..i] + [0x13, c[i + 1], 35, 0] && Patch(c, i)[i + 4..] == c[i + 4..]
  {
  }

  lemma GetBytes(x: Item, target: U32)
    requires WellFormed(x) && Gets(x, target)
    ensures |Encode(x)| == 4
  {
    StaticFormat(x.op);
  }

  lemma ConstBytes(arg: U8)
    ensures Encode(Insn(0x13, arg, [35])) == [0x13, arg, 35, 0]
  {
    var us: seq<U16> := [35];
    assert us[1..] == [];
    assert Halves(us) == LE(35, 2) + [] == [35, 0];
  }

  lemma {:induction false} RewriteFrom(c: Buf, i: nat, xs: seq<Item>, target: U32)
    requires AllWellFormed(xs) && At(c, i, EncodeItems(xs)) && i + |EncodeItems(xs)| == |c|
    ensures Rewrite(c, i, target) == c[..i] + EncodeItems(ClampAll(xs, target))
    decreases |xs|
  {
    hide Units, Matches, Encode, WellFormed, Clamp, Stepped, Rewrite;
    if xs == [] {
      NoUnits(c, i);
      WalkStops(c, i, target);
      assert c[..i] + [] == c;
    } else {
      var x, rest := xs[0], xs[1..];
      var j := i + |Encode(x)|;
      AtSplit(c, i, Encode(x), EncodeItems(rest));
      ItemUnits(c, i, x);
      SteppedDecode(c, i, target);
      SteppedItem(c, i, x, target);
      var d := Stepped(c, i, target);
      assert d[j..j + |EncodeItems(rest)|] == d[j..] == c[j..] == c[j..j + |EncodeItems(rest)|];
      RewriteFrom(d, j, rest, target);
      var y, ys := Clamp(x, target), ClampAll(rest, target);
      assert ([y] + ys)[1..] == ys;
      Associative(c[..i], Encode(y), EncodeItems(ys));
    }
  }

  /**
   * Main result: the rewrite turns each static get of the target field into const/16 of the
   * same register with literal 35 and leaves every other item, payload tables included, as it
   * stands.
   */
  lemma RewriteItems(xs: seq<Item>, target: U32)
    requires AllWellFormed(xs)
    ensures Rewrite(EncodeItems(xs), 0, target) == EncodeItems(ClampAll(xs, target))
    ensures Walk(EncodeItems(xs), 0) == Offsets(xs, 0)
  {
    var c := EncodeItems(xs);
    hide EncodeItems, Rewrite, Walk;
    assert c[0..0 + |c|] == c;
    RewriteFrom(c, 0, xs, target);
    ItemsWalk(c, 0, xs, target);
    assert c[..0] + EncodeItems(ClampAll(xs, target)) == EncodeItems(ClampAll(xs, target));
  }

  // No byte of a payload table is ever in a slot: every slot is the four bytes of a static get.
  lemma {:induction false} SlotsAreGets(xs: seq<Item>, i: nat, target: U32, s: nat)
    requires AllWellFormed(xs) && s in GetOffsets(xs, i, target)
    ensures exists k :: 0 <= k < |xs| && Gets(xs[k], target) && s == i + |EncodeItems(xs[..k])| && |Encode(xs[k])| == 4
    decreases |xs|
  {
    hide Encode, WellFormed, Gets;
    if Gets(xs[0], target) && s == i {
      GetBytes(xs[0], target);
      assert xs[..0] == [];
    } else {
      SlotsAreGets(xs[1..], i + |Encode(xs[0])|, target, s);
      var k :| 0 <= k < |xs[1..]| && Gets(xs[1..][k], target)
               && s == i + |Encode(xs[0])| + |EncodeItems(xs[1..][..k])| && |Encode(xs[1..][k])| == 4;
      assert xs[..k + 1][1..] == xs[1..][..k];
      assert xs[k + 1] == xs[1..][k];
    }
  }
}
