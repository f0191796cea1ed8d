/**
 * The Annex-B splitter (section B.1 of ITU-T H.264): start codes, NAL units and
 * access units of a whole buffer.
 */
module Nal {
  import opened Bytes

  // ---- start codes: what the two scanners look for --------------------------

  predicate LongCode(b: Buf, i: int) {
    0 <= i && i + 4 <= |b| && b[i] == 0 && b[i + 1] == 0 && b[i + 2] == 0 && b[i + 3] == 1
  }

  predicate ShortCode(b: Buf, i: int) {
    0 <= i && i + 3 <= |b| && b[i] == 0 && b[i + 1] == 0 && b[i + 2] == 1
  }

  // A start code begins at i: every 00 00 01 belongs to exactly one, which also
  // takes the zero byte just before it if there is one.
  predicate IsCode(b: Buf, i: int) {
    LongCode(b, i) || (ShortCode(b, i) && !(i > 0 && b[i - 1] == 0))
  }

  function PrefixLen(b: Buf, i: int): nat {
    if LongCode(b, i) then 4 else 3
  }

  function LastCodeBelow(b: Buf, n: nat): (r: int)
    requires n <= |b|
    ensures -1 <= r < n
    ensures r >= 0 ==> IsCode(b, r)
    ensures forall i :: r < i < n ==> !IsCode(b, i)
  {
    if n == 0 then -1 else if IsCode(b, n - 1) then n - 1 else LastCodeBelow(b, n - 1)
  }

  // Position of the last start code, -1 if there is none.
  function LastCode(b: Buf): (r: int)
    ensures -1 <= r < |b|
    ensures r >= 0 ==> IsCode(b, r)
    ensures forall i :: r < i < |b| ==> !IsCode(b, i)
  {
    LastCodeBelow(b, |b|)
  }

  lemma LastCodeIs(b: Buf, r: int)
    requires IsCode(b, r)
    requires forall i :: r < i < |b| ==> !IsCode(b, i)
    ensures LastCode(b) == r
  {
  }

  // ---- how start codes behave under cutting and appending -------------------

  lemma CodesDoNotOverlap(b: Buf, i: int, j: int)
    requires IsCode(b, i) && IsCode(b, j) && i < j
    ensures i + PrefixLen(b, i) <= j
  {
  }

  lemma CodeInside(b: Buf, i: int)
    requires IsCode(b, i)
    ensures 0 <= i && i + 3 <= |b|
  {
  }

  // Cutting in front of a start code keeps exactly the earlier ones.
  lemma CodeTake(b: Buf, e: int, i: int)
    requires 0 <= e <= |b| && (e == |b| || IsCode(b, e))
    ensures IsCode(b[..e], i) <==> i < e && IsCode(b, i)
  {
    if 0 <= i < e && e < |b| && IsCode(b, i) {
      CodesDoNotOverlap(b, i, e);
    }
  }

  // Dropping everything in front of a start code keeps exactly the later ones.
  lemma CodeDrop(b: Buf, s: int, i: int)
    requires 0 <= s <= |b| && (s == 0 || s == |b| || IsCode(b, s))
    ensures IsCode(b[s..], i) <==> i >= 0 && IsCode(b, s + i)
  {
    var c := b[s..];
    assert forall k :: 0 <= k < |c| ==> c[k] == b[s + k];
  }

  // More input never removes a start code, and never adds one before the last.
  lemma CodeAppend(b: Buf, c: Buf, i: int)
    ensures IsCode(b, i) ==> IsCode(b + c, i)
    ensures IsCode(b + c, i) && i <= LastCode(b) ==> IsCode(b, i)
  {
    var d := b + c;
    assert forall k :: 0 <= k < |b| ==> d[k] == b[k];
    var r := LastCode(b);
    if IsCode(d, i) && i <= r {
      assert IsCode(d, r);
      if i < r {
        CodesDoNotOverlap(d, i, r);
      }
    }
  }

  // ---- NAL units -----------------------------------------------------------

  // Each NAL unit runs from its start code to the next one or the end.
  function Nals(b: Buf): (ns: seq<Buf>)
  {
    var l := LastCode(b);
    if l < 0 then [] else Nals(b[..l]) + [b[l..]]
  }

  lemma LastCodeDrop(b: Buf, s: int)
    requires 0 <= s && IsCode(b, s)
    ensures LastCode(b[s..]) == LastCode(b) - s >= 0
  {
    var r := LastCode(b) - s;
    CodeDrop(b, s, r);
    forall i | r < i < |b[s..]| ensures !IsCode(b[s..], i) {
      CodeDrop(b, s, i);
    }
  }

  lemma OneNal(b: Buf)
    requires LastCode(b) == 0
    ensures Nals(b) == [b]
  {
    assert b[..0] == [] && b[0..] == b;
    assert Nals([]) == [];
  }

  // Splitting is compositional at every start code.
  lemma {:induction false} SplitAt(b: Buf, s: int)
    requires IsCode(b, s)
    ensures Nals(b) == Nals(b[..s]) + Nals(b[s..])
    decreases |b|
  {
    hide IsCode, LastCode;
    CodeInside(b, s);
    var l := LastCode(b);
    var tail := b[s..];
    LastCodeDrop(b, s);
    assert tail[l - s..] == b[l..];
    if l == s {
      OneNal(tail);
    } else {
      CodeTake(b, l, s);
      SplitAt(b[..l], s);
      assert b[..l][..s] == b[..s];
      assert b[..l][s..] == tail[..l - s];
    }
  }

  function NalTypeFrom(nal: Buf, i: nat): (t: U8)
    ensures t < 32
    decreases |nal| - i
  {
    if i + 3 >= |nal| then 0
    else if nal[i] == 0 && nal[i + 1] == 0 && nal[i + 2] == 1 then nal[i + 3] % 32
    else if LongCode(nal, i) && i + 4 < |nal| then nal[i + 4] % 32
    else NalTypeFrom(nal, i + 1)
  }

  function NalType(nal: Buf): U8 { NalTypeFrom(nal, 0) }

  // On a NAL unit cut by the splitter the search finds its own header: the byte
  // right after the start code, or 0 when the unit is empty (section 7.4.1).
  lemma NalTypeIsHeader(nal: Buf)
    requires IsCode(nal, 0)
    ensures NalType(nal) ==
            if |nal| > PrefixLen(nal, 0) then nal[PrefixLen(nal, 0)] % 32 else 0
  {
    if |nal| == 4 && LongCode(nal, 0) {
      assert NalTypeFrom(nal, 1) == 0;
    }
  }

  const SLICE_NON_IDR: U8 := 1
  const SLICE_IDR: U8 := 5

  predicate IsSliceType(t: U8) { t == SLICE_NON_IDR || t == SLICE_IDR }

  predicate IsSlice(nal: Buf) { IsSliceType(NalType(nal)) }

  predicate HasSlice(au: Buf) { exists n :: n in Nals(au) && IsSlice(n) }

  predicate HasIdr(au: Buf) { exists n :: n in Nals(au) && NalType(n) == SLICE_IDR }

  // ---- access units --------------------------------------------------------

  // `units` are the flushed access units, `current` the NALs waiting for a slice.
  datatype Grouping = Grouping(units: seq<Buf>, current: Buf)

  function AddNal(g: Grouping, n: Buf): Grouping {
    if IsSlice(n) then Grouping(g.units + [g.current + n], [])
    else Grouping(g.units, g.current + n)
  }

  function GroupFrom(g: Grouping, ns: seq<Buf>): Grouping {
    if ns == [] then g else AddNal(GroupFrom(g, ns[..|ns| - 1]), ns[|ns| - 1])
  }

  function Grouped(b: Buf): Grouping { GroupFrom(Grouping([], []), Nals(b)) }

  // What the batch grouping returns for a whole buffer.
  function AccessUnits(b: Buf): seq<Buf> {
    var g := Grouped(b);
    g.units + if g.current != [] then [g.current] else []
  }

  function SliceUnits(units: seq<Buf>): seq<Buf> {
    if units == [] then []
    else (if HasSlice(units[0]) then [units[0]] else []) + SliceUnits(units[1..])
  }

  lemma {:induction false} GroupFromAppend(g: Grouping, xs: seq<Buf>, ys: seq<Buf>)
    ensures GroupFrom(g, xs + ys) == GroupFrom(GroupFrom(g, xs), ys)
    decreases |ys|
  {
    if ys == [] {
      assert xs + ys == xs;
    } else {
      var zs := xs + ys;
      assert zs[..|zs| - 1] == xs + ys[..|ys| - 1];
      GroupFromAppend(g, xs, ys[..|ys| - 1]);
    }
  }

  // Units already flushed do not influence later ones.
  lemma {:induction false} GroupFromShift(u: seq<Buf>, c: Buf, ns: seq<Buf>)
    ensures GroupFrom(Grouping(u, c), ns) ==
            (var g := GroupFrom(Grouping([], c), ns); Grouping(u + g.units, g.current))
    decreases |ns|
  {
    if ns == [] {
      assert u + [] == u;
    } else {
      GroupFromShift(u, c, ns[..|ns| - 1]);
    }
  }

  lemma GroupedStep(b: Buf)
    requires LastCode(b) >= 0
    ensures Grouped(b) == AddNal(Grouped(b[..LastCode(b)]), b[LastCode(b)..])
  {
    var l := LastCode(b);
    var ns := Nals(b);
    assert ns[..|ns| - 1] == Nals(b[..l]);
  }

  // An access unit is a run of non-slice NALs closed by one slice.
  predicate WellFormedUnit(au: Buf) {
    var ns := Nals(au);
    && ns != []
    && IsSlice(ns[|ns| - 1])
    && forall k :: 0 <= k < |ns| - 1 ==> !IsSlice(ns[k])
  }

  predicate NoSlice(b: Buf) { forall k :: 0 <= k < |Nals(b)| ==> !IsSlice(Nals(b)[k]) }

  // The pending NALs are a suffix of the buffer that begins at a start code.
  predicate PendingSuffix(b: Buf, c: Buf) {
    && |c| <= |b|
    && c == b[|b| - |c|..]
    && (c != [] ==> IsCode(b, |b| - |c|))
    && NoSlice(c)
  }

  // Extending a pending suffix by the last NAL of b.
  lemma ExtendPending(b: Buf, c: Buf)
    requires LastCode(b) >= 0 && PendingSuffix(b[..LastCode(b)], c)
    ensures var l := LastCode(b);
            var x := c + b[l..];
            && x == b[|b| - |x|..] && IsCode(b, |b| - |x|)
            && Nals(x) == Nals(c) + [b[l..]]
  {
    var l := LastCode(b);
    var s := l - |c|;
    var x := c + b[l..];
    if c != [] {
      CodeTake(b, l, s);
    }
    assert x == b[s..];
    LastCodeDrop(b, s);
    assert x[..|c|] == c && x[|c|..] == b[l..];
  }

  // One more NAL either closes a well-formed unit or stays pending.
  lemma AddNalShape(b: Buf, c: Buf)
    requires LastCode(b) >= 0 && PendingSuffix(b[..LastCode(b)], c)
    ensures var n := b[LastCode(b)..];
            if IsSlice(n) then WellFormedUnit(c + n) else PendingSuffix(b, c + n)
  {
    ExtendPending(b, c);
  }

  lemma NothingPending(b: Buf)
    ensures PendingSuffix(b, [])
  {
    assert LastCode([]) == -1;
    assert b[|b|..] == [];
  }

  lemma {:induction false} GroupedShape(b: Buf)
    ensures PendingSuffix(b, Grouped(b).current)
    ensures forall k :: 0 <= k < |Grouped(b).units| ==> WellFormedUnit(Grouped(b).units[k])
    decreases |b|
  {
    var l := LastCode(b);
    NothingPending(b);
    if l < 0 {
      assert Nals(b) == [] && Grouped(b) == Grouping([], []);
    } else {
      GroupedShape(b[..l]);
      var g := Grouped(b[..l]);
      AddNalShape(b, g.current);
      GroupedStep(b);
    }
  }

  lemma {:induction false} SliceUnitsAppend(xs: seq<Buf>, ys: seq<Buf>)
    ensures SliceUnits(xs + ys) == SliceUnits(xs) + SliceUnits(ys)
  {
    hide HasSlice;
    if xs == [] {
      assert xs + ys == ys;
    } else {
      SliceUnitsAppend(xs[1..], ys);
      assert (xs + ys)[0] == xs[0] && (xs + ys)[1..] == xs[1..] + ys;
      Associative(if HasSlice(xs[0]) then [xs[0]] else [], SliceUnits(xs[1..]), SliceUnits(ys));
    }
  }

  lemma {:induction false} SliceUnitsAll(xs: seq<Buf>)
    requires forall k :: 0 <= k < |xs| ==> WellFormedUnit(xs[k])
    ensures SliceUnits(xs) == xs
  {
    if xs != [] {
      var ns := Nals(xs[0]);
      assert ns[|ns| - 1] in ns;
      SliceUnitsAll(xs[1..]);
    }
  }

  // The slice-containing units of a buffer are exactly the flushed ones.
  lemma SliceUnitsAreFlushed(b: Buf)
    ensures SliceUnits(AccessUnits(b)) == Grouped(b).units
  {
    var g := Grouped(b);
    GroupedShape(b);
    SliceUnitsAll(g.units);
    if g.current == [] {
      assert AccessUnits(b) == g.units;
    } else {
      SliceUnitsAppend(g.units, [g.current]);
      assert !HasSlice(g.current);
      assert [g.current][1..] == [];
      assert SliceUnits([g.current]) == [];
    }
  }

  // Grouping may restart at the first byte of the pending NALs.
  lemma GroupedRestart(b: Buf, s: int)
    requires IsCode(b, s) && Grouped(b[..s]).current == []
    ensures Grouped(b).units == Grouped(b[..s]).units + Grouped(b[s..]).units
    ensures Grouped(b).current == Grouped(b[s..]).current
  {
    SplitAt(b, s);
    GroupFromAppend(Grouping([], []), Nals(b[..s]), Nals(b[s..]));
    GroupFromShift(Grouped(b[..s]).units, [], Nals(b[s..]));
  }

  // ---- what closes a unit, in header bytes ------------------------------------------

  // The NAL's header byte, behind its own start code, says coded slice: type 1 or 5
  // (section 7.4.1).
  predicate IsPicture(nal: Buf) {
    var p := if |nal| >= 4 && nal[..4] == [0, 0, 0, 1] then 4 else 3;
    |nal| > p && nal[p] % 32 in {1, 5}
  }

  lemma {:induction false} NalsBeginWithCode(b: Buf)
    ensures forall n :: n in Nals(b) ==> IsCode(n, 0)
    decreases |b|
  {
    var l := LastCode(b);
    if l >= 0 {
      NalsBeginWithCode(b[..l]);
      CodeDrop(b, l, 0);
    }
  }

  lemma SliceIsPicture(nal: Buf)
    requires IsCode(nal, 0)
    ensures IsSlice(nal) <==> IsPicture(nal)
  {
    hide NalType;
    NalTypeIsHeader(nal);
    if LongCode(nal, 0) {
      assert nal[..4] == [0, 0, 0, 1];
    }
  }

  lemma SlicesArePictures(b: Buf)
    ensures forall k :: 0 <= k < |Nals(b)| ==> (IsSlice(Nals(b)[k]) <==> IsPicture(Nals(b)[k]))
  {
    hide IsSlice, IsPicture;
    NalsBeginWithCode(b);
    forall k | 0 <= k < |Nals(b)| ensures IsSlice(Nals(b)[k]) <==> IsPicture(Nals(b)[k]) {
      SliceIsPicture(Nals(b)[k]);
    }
  }

  // The NAL units of a list of access units, one after the other.
  function NalsOf(units: seq<Buf>): seq<Buf> {
    if units == [] then [] else NalsOf(units[..|units| - 1]) + Nals(units[|units| - 1])
  }

  lemma NalsOfMore(units: seq<Buf>, u: Buf)
    ensures NalsOf(units + [u]) == NalsOf(units) + Nals(u)
  {
    assert (units + [u])[..|units|] == units;
  }

  // Units and pending NALs split up again into the NAL units of the buffer.
  lemma {:induction false} GroupedNals(b: Buf)
    ensures NalsOf(Grouped(b).units) + Nals(Grouped(b).current) == Nals(b)
    decreases |b|
  {
    hide LastCode, IsSlice, PendingSuffix, Nals, NalsOf, Grouped;
    var l := LastCode(b);
    NalsOfNothing();
    NalsStep(b);
    if l < 0 {
      NothingGrouped(b);
    } else {
      var g, n := Grouped(b[..l]), b[l..];
      GroupedNals(b[..l]);
      GroupedShape(b[..l]);
      GroupedStep(b);
      ExtendPending(b, g.current);
      NalsOfMore(g.units, g.current + n);
      Associative(NalsOf(g.units), Nals(g.current), [n]);
      assert NalsOf(g.units + [g.current + n]) + [] == NalsOf(g.units + [g.current + n]);
    }
  }

  lemma NalsStep(b: Buf)
    ensures LastCode(b) < 0 ==> Nals(b) == []
    ensures LastCode(b) >= 0 ==> Nals(b) == Nals(b[..LastCode(b)]) + [b[LastCode(b)..]]
  {
  }

  lemma NothingGrouped(b: Buf)
    requires LastCode(b) < 0
    ensures Grouped(b) == Grouping([], [])
  {
    assert Nals(b) == [];
  }

  lemma NalsOfNothing()
    ensures Nals([]) == [] && NalsOf([]) == []
  {
    assert LastCode([]) == -1;
  }

  // Exactly one picture in a unit, its last NAL.
  predicate ClosedByPicture(au: Buf) {
    && Nals(au) != []
    && forall k :: 0 <= k < |Nals(au)| ==> (IsPicture(Nals(au)[k]) <==> k == |Nals(au)| - 1)
  }

  predicate NoPicture(b: Buf) { forall k :: 0 <= k < |Nals(b)| ==> !IsPicture(Nals(b)[k]) }

  /**
   * Grouping, said in header bytes: the NAL units of the buffer in their order, cut behind
   * every picture and nowhere else; what is pending has none.
   */
  lemma UnitsByHeader(b: Buf)
    ensures forall k :: 0 <= k < |Grouped(b).units| ==> ClosedByPicture(Grouped(b).units[k])
    ensures NoPicture(Grouped(b).current)
    ensures NalsOf(Grouped(b).units) + Nals(Grouped(b).current) == Nals(b)
  {
    hide IsSlice, IsPicture, Nals, Grouped, NalsOf;
    GroupedShape(b);
    GroupedNals(b);
    SlicesArePictures(Grouped(b).current);
    forall k | 0 <= k < |Grouped(b).units| ensures ClosedByPicture(Grouped(b).units[k]) {
      assert WellFormedUnit(Grouped(b).units[k]);
      SlicesArePictures(Grouped(b).units[k]);
    }
  }

  // The batch form returns those units, and what is pending as one more.
  lemma AccessUnitsByHeader(b: Buf)
    ensures var aus := AccessUnits(b);
            && (forall k :: 0 <= k < |aus| - 1 ==> ClosedByPicture(aus[k]))
            && (aus != [] ==> ClosedByPicture(aus[|aus| - 1]) || NoPicture(aus[|aus| - 1]))
            && NalsOf(aus) == Nals(b)
  {
    hide Nals, Grouped, ClosedByPicture, NoPicture, NalsOf;
    UnitsByHeader(b);
    var g := Grouped(b);
    if g.current == [] {
      assert AccessUnits(b) == g.units;
      NalsOfNothing();
      assert NalsOf(g.units) + [] == NalsOf(g.units);
    } else {
      NalsOfMore(g.units, g.current);
    }
  }

  // A key frame is one with a NAL of type 5.
  lemma IdrByHeader(au: Buf)
    ensures HasIdr(au) <==>
              exists n :: n in Nals(au) && var p := PrefixLen(n, 0); |n| > p && n[p] % 32 == 5
  {
    NalsBeginWithCode(au);
    forall n | n in Nals(au) ensures NalType(n) == if |n| > PrefixLen(n, 0) then n[PrefixLen(n, 0)] % 32 else 0 {
      NalTypeIsHeader(n);
    }
  }

  // ---- conservation --------------------------------------------------------

  lemma AddNalBytes(g: Grouping, n: Buf)
    ensures var h := AddNal(g, n);
            Concat(h.units) + h.current == Concat(g.units) + (g.current + n)
  {
    hide IsSlice;
    ConcatAppend(g.units, [g.current + n]);
    ConcatOne(g.current + n);
    var all := Concat(g.units) + (g.current + n);
    assert all + [] == all;
  }

  lemma {:induction false} GroupFromBytes(g: Grouping, ns: seq<Buf>)
    ensures var h := GroupFrom(g, ns);
            Concat(h.units) + h.current == Concat(g.units) + g.current + Concat(ns)
    decreases |ns|
  {
    hide AddNal, Concat;
    if ns == [] {
      ConcatNone();
      assert Concat(g.units) + g.current + [] == Concat(g.units) + g.current;
    } else {
      var m, n := ns[..|ns| - 1], ns[|ns| - 1];
      var h := GroupFrom(g, m);
      GroupFromBytes(g, m);
      AddNalBytes(h, n);
      assert ns == m + [n];
      ConcatAppend(m, [n]);
      ConcatOne(n);
      Associative(Concat(h.units), h.current, n);
      Associative(Concat(g.units) + g.current, Concat(m), n);
    }
  }

  // The NAL units put back together are the buffer from its first start code on.
  lemma {:induction false} NalsBytes(b: Buf, first: int)
    requires IsCode(b, first) && forall i :: 0 <= i < first ==> !IsCode(b, i)
    ensures Concat(Nals(b)) == b[first..]
    decreases |b|
  {
    var l := LastCode(b);
    ConcatAppend(Nals(b[..l]), [b[l..]]);
    ConcatOne(b[l..]);
    if l == first {
      forall i ensures !IsCode(b[..l], i) { CodeTake(b, l, i); }
      assert Nals(b[..l]) == [];
    } else {
      CodeTake(b, l, first);
      forall i | 0 <= i < first ensures !IsCode(b[..l], i) { CodeTake(b, l, i); }
      NalsBytes(b[..l], first);
      assert b[..l][first..] + b[l..] == b[first..];
    }
  }

  lemma AccessUnitsBytes(g: Grouping)
    ensures Concat(g.units + if g.current != [] then [g.current] else []) ==
            Concat(g.units) + g.current
  {
    if g.current == [] {
      assert g.units + [] == g.units;
      assert Concat(g.units) + [] == Concat(g.units);
    } else {
      ConcatAppend(g.units, [g.current]);
      ConcatOne(g.current);
    }
  }

  lemma GroupedBytes(b: Buf, first: int)
    requires IsCode(b, first) && forall i :: 0 <= i < first ==> !IsCode(b, i)
    ensures Concat(Grouped(b).units) + Grouped(b).current == b[first..]
  {
    NalsBytes(b, first);
    GroupFromBytes(Grouping([], []), Nals(b));
  }

  // No byte after the first start code is lost, duplicated or moved by grouping.
  lemma AccessUnitsKeepBytes(b: Buf, first: int)
    requires IsCode(b, first) && forall i :: 0 <= i < first ==> !IsCode(b, i)
    ensures Concat(AccessUnits(b)) == b[first..]
  {
    GroupedBytes(b, first);
    AccessUnitsBytes(Grouped(b));
  }

  // ---- the list of all start codes -------------------------------------------

  function CodesBelow(b: Buf, n: nat): seq<(nat, nat)>
    requires n <= |b|
  {
    if n == 0 then []
    else CodesBelow(b, n - 1) + if IsCode(b, n - 1) then [(n - 1, PrefixLen(b, n - 1))] else []
  }

  lemma {:induction false} NoCodesBetween(b: Buf, i: nat, j: nat)
    requires i <= j <= |b| && forall p :: i <= p < j ==> !IsCode(b, p)
    ensures CodesBelow(b, j) == CodesBelow(b, i)
    decreases j
  {
    if i < j {
      NoCodesBetween(b, i, j - 1);
    }
  }

  predicate IsEntry(b: Buf, n: nat, e: (nat, nat)) {
    e.0 < n && IsCode(b, e.0) && e.1 == PrefixLen(b, e.0)
  }

  lemma {:induction false} CodesBelowEntries(b: Buf, n: nat)
    requires n <= |b|
    ensures forall k :: 0 <= k < |CodesBelow(b, n)| ==> IsEntry(b, n, CodesBelow(b, n)[k])
  {
    if n > 0 {
      CodesBelowEntries(b, n - 1);
      var was, out := CodesBelow(b, n - 1), CodesBelow(b, n);
      forall k | 0 <= k < |out| ensures IsEntry(b, n, out[k]) {
        if k < |was| {
          assert IsEntry(b, n - 1, was[k]);
        }
      }
    }
  }

  // Strictly increasing, and the last entry is what the backward scan looks for.
  lemma {:induction false} CodesBelowSorted(b: Buf, n: nat)
    requires n <= |b|
    ensures var out := CodesBelow(b, n);
            && (forall j, k :: 0 <= j < k < |out| ==> out[j].0 < out[k].0)
            && LastCodeBelow(b, n) == (if out == [] then -1 else out[|out| - 1].0)
  {
    if n > 0 {
      CodesBelowSorted(b, n - 1);
      CodesBelowEntries(b, n - 1);
    }
  }

  // A position is listed if and only if a start code begins there.
  lemma {:induction false} CodesBelowComplete(b: Buf, n: nat, p: nat)
    requires n <= |b| && p < n
    ensures IsCode(b, p) <==> (p, PrefixLen(b, p)) in CodesBelow(b, n)
  {
    CodesBelowEntries(b, n - 1);
    if p < n - 1 {
      CodesBelowComplete(b, n - 1, p);
    }
  }

  // Both scanners see the same start codes.
  lemma ScannersAgree(b: Buf)
    ensures var out := CodesBelow(b, |b|);
            LastCode(b) == if out == [] then -1 else out[|out| - 1].0
    ensures forall p :: 0 <= p < |b| ==>
              (IsCode(b, p) <==> (p, PrefixLen(b, p)) in CodesBelow(b, |b|))
  {
    CodesBelowSorted(b, |b|);
    forall p | 0 <= p < |b| ensures IsCode(b, p) <==> (p, PrefixLen(b, p)) in CodesBelow(b, |b|) {
      CodesBelowComplete(b, |b|, p);
    }
  }

  // Both scanners in bytes: wherever 00 00 01 stands, one start code is listed, with the zero
  // byte in front if there is one, and no other start code is listed.
  lemma CodesAreAnnexB(b: Buf, i: nat)
    requires i < |b|
    ensures i + 3 <= |b| && b[i..i + 3] == [0, 0, 1] ==>
              if i > 0 && b[i - 1] == 0 then (i - 1, 4) in CodesBelow(b, |b|) else (i, 3) in CodesBelow(b, |b|)
    ensures (i, 3) in CodesBelow(b, |b|) ==>
              i + 3 <= |b| && b[i..i + 3] == [0, 0, 1] && (i == 0 || b[i - 1] != 0)
    ensures (i, 4) in CodesBelow(b, |b|) ==> i + 4 <= |b| && b[i..i + 4] == [0, 0, 0, 1]
  {
    hide CodesBelow;
    Listed(b, i, 3);
    Listed(b, i, 4);
    if i > 0 {
      Listed(b, i - 1, 4);
    }
    if i + 3 <= |b| {
      assert b[i..i + 3] == [b[i], b[i + 1], b[i + 2]];
    }
    if i + 4 <= |b| {
      assert b[i..i + 4] == [b[i], b[i + 1], b[i + 2], b[i + 3]];
    }
  }

  lemma Listed(b: Buf, i: nat, n: nat)
    requires i < |b|
    ensures (i, n) in CodesBelow(b, |b|) <==> IsCode(b, i) && n == PrefixLen(b, i)
  {
    hide CodesBelow, IsCode, PrefixLen;
    CodesBelowEntries(b, |b|);
    CodesBelowComplete(b, |b|, i);
    if (i, n) in CodesBelow(b, |b|) {
      var k :| 0 <= k < |CodesBelow(b, |b|)| && CodesBelow(b, |b|)[k] == (i, n);
      assert IsEntry(b, |b|, CodesBelow(b, |b|)[k]);
    }
  }

  // ---- the loops -----------------------------------------------------------

  // No start code that reaches back in front of i ends behind i.
  predicate FreshAt(b: Buf, i: nat) {
    i > 0 && i <= |b| ==> b[i - 1] != 0 || !ShortCode(b, i)
  }

  lemma ScanLong(b: Buf, i: nat)
    requires LongCode(b, i)
    ensures CodesBelow(b, i + 4) == CodesBelow(b, i) + [(i, 4)] && FreshAt(b, i + 4)
  {
    NoCodesBetween(b, i + 1, i + 4);
  }

  lemma ScanShort(b: Buf, i: nat)
    requires FreshAt(b, i) && ShortCode(b, i)
    ensures CodesBelow(b, i + 3) == CodesBelow(b, i) + [(i, 3)] && FreshAt(b, i + 3)
  {
    NoCodesBetween(b, i + 1, i + 3);
  }

  lemma ScanNone(b: Buf, i: nat)
    requires FreshAt(b, i) && i < |b| && !LongCode(b, i) && !ShortCode(b, i)
    ensures CodesBelow(b, i + 1) == CodesBelow(b, i) && FreshAt(b, i + 1)
  {
  }

  lemma ScanEnd(b: Buf, i: nat)
    requires i <= |b| < i + 3
    ensures CodesBelow(b, |b|) == CodesBelow(b, i)
  {
    NoCodesBetween(b, i, |b|);
  }

  // Forward scan: exactly the start codes, in order, with their prefix lengths.
  method StartCodeOffsets(b: Buf) returns (out: seq<(nat, nat)>)
    ensures out == CodesBelow(b, |b|)
  {
    assert CodesBelow(b, 0) == [] && FreshAt(b, 0);
    hide CodesBelow, FreshAt;
    out := [];
    var i := 0;
    while i + 3 <= |b|
      invariant 0 <= i <= |b|
      invariant out == CodesBelow(b, i) && FreshAt(b, i)
    {
      if b[i] == 0 && b[i + 1] == 0 {
        if i + 4 <= |b| && b[i + 2] == 0 && b[i + 3] == 1 {
          out := out + [(i, 4)];
          ScanLong(b, i);
          i := i + 4;
          continue;
        }
        if b[i + 2] == 1 {
          out := out + [(i, 3)];
          ScanShort(b, i);
          i := i + 3;
          continue;
        }
      }
      ScanNone(b, i);
      i := i + 1;
    }
    ScanEnd(b, i);
  }

  // Where the k-th NAL unit begins; the end of the buffer after the last one.
  function Edge(b: Buf, k: nat): (e: nat)
    ensures e <= |b|
  {
    var codes := CodesBelow(b, |b|);
    CodesBelowEntries(b, |b|);
    if k < |codes| then codes[k].0 else |b|
  }

  lemma NoCodeBetweenEdges(b: Buf, k: nat, p: nat)
    requires k <= |CodesBelow(b, |b|)| && p < Edge(b, k) && IsCode(b, p)
    ensures k > 0 && p <= Edge(b, k - 1)
  {
    var codes := CodesBelow(b, |b|);
    CodesBelowSorted(b, |b|);
    CodesBelowEntries(b, |b|);
    CodesBelowComplete(b, |b|, p);
    var j :| 0 <= j < |codes| && codes[j] == (p, PrefixLen(b, p));
    assert j < k;
    assert codes[j].0 <= codes[k - 1].0;
  }

  lemma NalsToEdge(b: Buf, k: nat)
    requires k <= |CodesBelow(b, |b|)|
    ensures k == 0 ==> Nals(b[..Edge(b, k)]) == []
    ensures k > 0 ==> Edge(b, k - 1) <= Edge(b, k)
                      && Nals(b[..Edge(b, k)]) == Nals(b[..Edge(b, k - 1)]) + [b[Edge(b, k - 1)..Edge(b, k)]]
  {
    CodesBelowSorted(b, |b|);
    CodesBelowEntries(b, |b|);
    var end := Edge(b, k);
    var prefix := b[..end];
    forall p | 0 <= p && (k > 0 ==> Edge(b, k - 1) < p) ensures !IsCode(prefix, p) {
      CodeTake(b, end, p);
      if p < end && IsCode(b, p) {
        NoCodeBetweenEdges(b, k, p);
      }
    }
    if k > 0 {
      var start := Edge(b, k - 1);
      CodeTake(b, end, start);
      LastCodeIs(prefix, start);
      assert prefix[..start] == b[..start] && prefix[start..] == b[start..end];
    }
  }

  method SplitNals(b: Buf) returns (out: seq<Buf>)
    ensures out == Nals(b)
  {
    var codes := StartCodeOffsets(b);
    out := [];
    NalsToEdge(b, 0);
    for i := 0 to |codes|
      invariant out == Nals(b[..Edge(b, i)])
    {
      NalsToEdge(b, i + 1);
      var start := codes[i].0;
      var end := if i + 1 < |codes| then codes[i + 1].0 else |b|;
      out := out + [b[start..end]];
    }
    assert b[..|b|] == b;
  }

  method NalUnitType(nal: Buf) returns (t: U8)
    ensures t == NalType(nal)
  {
    var n := if |nal| >= 3 then |nal| - 3 else 0;
    for i := 0 to n
      invariant NalType(nal) == NalTypeFrom(nal, i)
    {
      if nal[i] == 0 && nal[i + 1] == 0 {
        if nal[i + 2] == 1 && i + 3 < |nal| {
          return nal[i + 3] % 32;
        }
        if nal[i + 2] == 0 && i + 3 < |nal| && nal[i + 3] == 1 && i + 4 < |nal| {
          return nal[i + 4] % 32;
        }
      }
    }
    return 0;
  }

  method GroupAccessUnits(b: Buf) returns (aus: seq<Buf>)
    ensures aus == AccessUnits(b)
  {
    var nals := SplitNals(b);
    aus := [];
    var current: Buf := [];
    for k := 0 to |nals|
      invariant Grouping(aus, current) == GroupFrom(Grouping([], []), nals[..k])
    {
      assert nals[..k + 1][..k] == nals[..k];
      var t := NalUnitType(nals[k]);
      current := current + nals[k];
      if IsSliceType(t) {
        aus := aus + [current];
        current := [];
      }
    }
    assert nals[..|nals|] == nals;
    if current != [] {
      aus := aus + [current];
    }
  }

  method AuHasSlice(au: Buf) returns (r: bool)
    ensures r == HasSlice(au)
  {
    var nals := SplitNals(au);
    for k := 0 to |nals|
      invariant forall j :: 0 <= j < k ==> !IsSlice(nals[j])
    {
      var t := NalUnitType(nals[k]);
      if IsSliceType(t) {
        assert nals[k] in nals;
        return true;
      }
    }
    return false;
  }

  method AuHasIdr(au: Buf) returns (r: bool)
    ensures r == HasIdr(au)
  {
    var nals := SplitNals(au);
    for k := 0 to |nals|
      invariant forall j :: 0 <= j < k ==> NalType(nals[j]) != SLICE_IDR
    {
      var t := NalUnitType(nals[k]);
      if t == SLICE_IDR {
        assert nals[k] in nals;
        return true;
      }
    }
    return false;
  }

  // Backward scan: the same start code the forward scan reports last.
  method FindLastStartCode(b: Buf) returns (r: Option<nat>)
    ensures LastCode(b) == -1 ==> r == None
    ensures LastCode(b) >= 0 ==> r == Some(LastCode(b))
  {
    if |b| < 3 {
      return None;
    }
    var i := |b| - 3;
    while true
      invariant 0 <= i <= |b| - 3
      invariant forall p :: i < p ==> !ShortCode(b, p) && !IsCode(b, p)
      decreases i
    {
      if b[i] == 0 && b[i + 1] == 0 && b[i + 2] == 1 {
        if i > 0 && b[i - 1] == 0 {
          LastCodeIs(b, i - 1);
          return Some(i - 1);
        }
        LastCodeIs(b, i);
        return Some(i);
      }
      assert LongCode(b, i) ==> ShortCode(b, i + 1);
      if i == 0 {
        return None;
      }
      i := i - 1;
    }
  }
}
