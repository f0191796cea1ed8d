/**
 * Walking a class_data item that was laid out by an encoder: every method body is rewritten
 * exactly once, in order, and rewriting one does not disturb the walk to the next.
 */
module DexClassData {
  import opened Bytes
  import opened DexInsns
  import opened DexWalk
  import Uleb128

  datatype Field = Field(idxDiff: U32, flags: U32)
  datatype Method = Method(idxDiff: U32, flags: U32, codeOff: U32)

  function EncodeFields(fs: seq<Field>): Buf {
    if fs == [] then []
    else Uleb128.Encode(fs[0].idxDiff) + (Uleb128.Encode(fs[0].flags) + EncodeFields(fs[1..]))
  }

  function EncodeMethod(m: Method): Buf {
    Uleb128.Encode(m.idxDiff) + (Uleb128.Encode(m.flags) + Uleb128.Encode(m.codeOff))
  }

  function EncodeMethods(ms: seq<Method>): Buf {
    if ms == [] then [] else EncodeMethod(ms[0]) + EncodeMethods(ms[1..])
  }

  function EncodeClassData(sf: seq<Field>, inf: seq<Field>, dm: seq<Method>, vm: seq<Method>): Buf
    requires |sf| < 0x1_0000_0000 && |inf| < 0x1_0000_0000
    requires |dm| < 0x1_0000_0000 && |vm| < 0x1_0000_0000
  {
    Uleb128.Encode(|sf|) + (Uleb128.Encode(|inf|) + (Uleb128.Encode(|dm|) + (Uleb128.Encode(|vm|)
      + (EncodeFields(sf + inf) + EncodeMethods(dm + vm)))))
  }

  // ---- reading the encoding back ----------------------------------------------------

  lemma MethodHeaderReads(dex: Buf, p: nat, m: Method)
    requires At(dex, p, EncodeMethod(m))
    ensures MethodHeader(dex, p) == Ok((p + |EncodeMethod(m)|, m.codeOff))
  {
    hide At, Uleb128.Read, Uleb128.Encode;
    var a, b, c := Uleb128.Encode(m.idxDiff), Uleb128.Encode(m.flags), Uleb128.Encode(m.codeOff);
    AtSplit(dex, p, a, b + c);
    AtSplit(dex, p + |a|, b, c);
    Uleb128.RoundTrip(dex, p, m.idxDiff);
    Uleb128.RoundTrip(dex, p + |a|, m.flags);
    Uleb128.RoundTrip(dex, p + |a| + |b|, m.codeOff);
  }

  lemma {:induction false} SkipFieldsReads(dex: Buf, p: nat, fs: seq<Field>)
    requires At(dex, p, EncodeFields(fs))
    ensures SkipFields(dex, p, |fs|) == Ok(p + |EncodeFields(fs)|)
    decreases |fs|
  {
    hide At, Uleb128.Read, Uleb128.Encode;
    if fs != [] {
      var a, b, c := Uleb128.Encode(fs[0].idxDiff), Uleb128.Encode(fs[0].flags), EncodeFields(fs[1..]);
      AtSplit(dex, p, a, b + c);
      AtSplit(dex, p + |a|, b, c);
      Uleb128.RoundTrip(dex, p, fs[0].idxDiff);
      Uleb128.RoundTrip(dex, p + |a|, fs[0].flags);
      SkipFieldsReads(dex, p + |a| + |b|, fs[1..]);
    }
  }

  // ---- the expected walk --------------------------------------------------------------

  // The instruction ranges of the methods that have code, in order.
  function CodeRanges(dex: Buf, ms: seq<Method>): seq<Range>
    requires forall m :: m in ms && m.codeOff != 0 ==> CodeRange(dex, m.codeOff).Ok?
  {
    if ms == [] then []
    else (if ms[0].codeOff == 0 then [] else [CodeRange(dex, ms[0].codeOff).value])
         + CodeRanges(dex, ms[1..])
  }

  predicate Apart(r: Range, lo: nat, hi: nat) { r.hi <= lo || hi <= r.lo }

  // Every code item lies in the file; no instruction range meets the class data at
  // [p, q) or the size field of a code item.
  predicate Layout(dex: Buf, p: nat, q: nat, ms: seq<Method>) {
    && (forall m :: m in ms && m.codeOff != 0 ==>
          CodeRange(dex, m.codeOff).Ok? && Apart(CodeRange(dex, m.codeOff).value, p, q))
    && (forall m, k :: m in ms && k in ms && m.codeOff != 0 && k.codeOff != 0 ==>
          Apart(CodeRange(dex, m.codeOff).value, k.codeOff + 12, k.codeOff + 16))
  }

  predicate SameOutside(a: Buf, b: Buf, r: Range) {
    |a| == |b| && forall k :: 0 <= k < |a| && !(r.lo <= k < r.hi) ==> a[k] == b[k]
  }

  lemma RewriteRangeLocal(dex: Buf, r: Range, target: U32)
    requires r.lo <= r.hi <= |dex|
    ensures SameOutside(dex, RewriteRange(dex, r, target), r)
    ensures RewriteRange(dex, r, target)[r.lo..r.hi] == Rewrite(dex[r.lo..r.hi], 0, target)
  {
  }

  lemma SameAt(a: Buf, b: Buf, r: Range, p: nat, part: Buf)
    requires SameOutside(a, b, r) && Apart(r, p, p + |part|) && At(a, p, part)
    ensures At(b, p, part)
  {
    assert b[p..p + |part|] == a[p..p + |part|];
  }

  lemma SameCodeRange(a: Buf, b: Buf, r: Range, codeOff: nat)
    requires SameOutside(a, b, r) && Apart(r, codeOff + 12, codeOff + 16)
    ensures CodeRange(a, codeOff) == CodeRange(b, codeOff)
  {
    if codeOff + 16 <= |a| {
      assert a[codeOff + 12..codeOff + 16] == b[codeOff + 12..codeOff + 16];
    }
  }

  lemma {:induction false} SameCodeRanges(a: Buf, b: Buf, r: Range, ms: seq<Method>)
    requires SameOutside(a, b, r)
    requires forall m :: m in ms && m.codeOff != 0 ==>
               CodeRange(a, m.codeOff).Ok? && Apart(r, m.codeOff + 12, m.codeOff + 16)
    ensures forall m :: m in ms && m.codeOff != 0 ==> CodeRange(b, m.codeOff) == CodeRange(a, m.codeOff)
    ensures CodeRanges(a, ms) == CodeRanges(b, ms)
  {
    forall m | m in ms && m.codeOff != 0 ensures CodeRange(b, m.codeOff) == CodeRange(a, m.codeOff) {
      SameCodeRange(a, b, r, m.codeOff);
    }
    if ms != [] {
      SameCodeRanges(a, b, r, ms[1..]);
    }
  }

  function RewriteAll(dex: Buf, ranges: seq<Range>, target: U32): (d: Buf)
    requires forall r :: r in ranges ==> r.lo <= r.hi <= |dex|
    ensures |d| == |dex|
    decreases |ranges|
  {
    if ranges == [] then dex else assert ranges[0] in ranges; RewriteAll(RewriteRange(dex, ranges[0], target), ranges[1..], target)
  }

  lemma {:induction false} CodeRangesInside(dex: Buf, ms: seq<Method>)
    requires forall m :: m in ms && m.codeOff != 0 ==> CodeRange(dex, m.codeOff).Ok?
    ensures forall r :: r in CodeRanges(dex, ms) ==> r.lo <= r.hi <= |dex|
  {
    if ms != [] {
      CodeRangesInside(dex, ms[1..]);
    }
  }

  // The walk over encoded methods visits exactly their ranges and rewrites exactly them.
  lemma {:induction false} MethodsWalkExact(dex: Buf, p: nat, ms: seq<Method>, target: U32)
    requires At(dex, p, EncodeMethods(ms)) && Layout(dex, p, p + |EncodeMethods(ms)|, ms)
    ensures var pass := VisitMethods(dex, p, |ms|, target);
            && pass.ok && pass.visited == CodeRanges(dex, ms)
            && (forall r :: r in pass.visited ==> r.lo <= r.hi <= |dex|)
            && pass.dex == RewriteAll(dex, pass.visited, target)
    decreases |ms|
  {
    hide VisitMethods, CodeRange, EncodeMethod, EncodeMethods, RewriteRange, RewriteAll, CodeRanges, At, Layout, SameOutside;
    LayoutCode(dex, p, p + |EncodeMethods(ms)|, ms);
    CodeRangesInside(dex, ms);
    WalkUnfolds(dex, p, ms, target);
    if ms != [] {
      var m, rest := ms[0], ms[1..];
      var head, tail := EncodeMethod(m), EncodeMethods(rest);
      AtSplit(dex, p, head, tail);
      MethodHeaderReads(dex, p, m);
      var np := p + |head|;
      if m.codeOff == 0 {
        MethodsWalkExact(dex, np, rest, target);
      } else {
        var r := CodeRange(dex, m.codeOff).value;
        var d := RewriteRange(dex, r, target);
        RewriteRangeLocal(dex, r, target);
        AfterRewrite(dex, d, p, ms, r);
        MethodsWalkExact(d, np, rest, target);
        RewriteAllUnfolds(dex, r, VisitMethods(d, np, |rest|, target).visited, target);
      }
    }
  }

  lemma RewriteAllUnfolds(dex: Buf, r: Range, rest: seq<Range>, target: U32)
    requires r.lo <= r.hi <= |dex| && forall x :: x in rest ==> x.lo <= x.hi <= |dex|
    ensures forall x :: x in [r] + rest ==> x.lo <= x.hi <= |dex|
    ensures RewriteAll(dex, [r] + rest, target) == RewriteAll(RewriteRange(dex, r, target), rest, target)
  {
    hide RewriteRange;
    assert ([r] + rest)[1..] == rest;
  }

  // One step of the walk and of what is expected of it.
  lemma WalkUnfolds(dex: Buf, p: nat, ms: seq<Method>, target: U32)
    requires forall m :: m in ms && m.codeOff != 0 ==> CodeRange(dex, m.codeOff).Ok?
    ensures ms == [] ==> VisitMethods(dex, p, 0, target) == Pass(dex, [], [], true) && CodeRanges(dex, ms) == []
    ensures RewriteAll(dex, [], target) == dex
    ensures ms != [] ==> EncodeMethods(ms) == EncodeMethod(ms[0]) + EncodeMethods(ms[1..])
    ensures ms != [] && MethodHeader(dex, p) == Ok((p + |EncodeMethod(ms[0])|, ms[0].codeOff)) ==>
              var np := p + |EncodeMethod(ms[0])|;
              if ms[0].codeOff == 0 then
                && VisitMethods(dex, p, |ms|, target) == VisitMethods(dex, np, |ms| - 1, target)
                && CodeRanges(dex, ms) == CodeRanges(dex, ms[1..])
              else
                var r := CodeRange(dex, ms[0].codeOff).value;
                var rest := VisitMethods(RewriteRange(dex, r, target), np, |ms| - 1, target);
                && CodeRanges(dex, ms) == [r] + CodeRanges(dex, ms[1..])
                && VisitMethods(dex, p, |ms|, target).ok == rest.ok
                && VisitMethods(dex, p, |ms|, target).dex == rest.dex
                && VisitMethods(dex, p, |ms|, target).visited == [r] + rest.visited
  {
    hide MethodHeader, CodeRange, EncodeMethod, RewriteRange, Shifted, Slots;
    if ms != [] && ms[0].codeOff == 0 {
      assert [] + CodeRanges(dex, ms[1..]) == CodeRanges(dex, ms[1..]);
    }
  }

  lemma LayoutCode(dex: Buf, p: nat, q: nat, ms: seq<Method>)
    requires Layout(dex, p, q, ms)
    ensures forall m :: m in ms && m.codeOff != 0 ==> CodeRange(dex, m.codeOff).Ok?
    ensures ms != [] ==> forall p' :: p <= p' <= q ==> Layout(dex, p', q, ms[1..])
  {
  }

  // Changing bytes only inside the first method's range leaves the rest of the walk alone.
  lemma AfterRewrite(dex: Buf, d: Buf, p: nat, ms: seq<Method>, r: Range)
    requires ms != [] && ms[0].codeOff != 0 && At(dex, p, EncodeMethods(ms))
    requires Layout(dex, p, p + |EncodeMethods(ms)|, ms)
    requires CodeRange(dex, ms[0].codeOff) == Ok(r) && SameOutside(dex, d, r)
    ensures var np := p + |EncodeMethod(ms[0])|;
            At(d, np, EncodeMethods(ms[1..])) && Layout(d, np, np + |EncodeMethods(ms[1..])|, ms[1..])
    ensures forall m :: m in ms[1..] && m.codeOff != 0 ==>
              CodeRange(dex, m.codeOff).Ok? && CodeRange(d, m.codeOff) == CodeRange(dex, m.codeOff)
    ensures CodeRanges(d, ms[1..]) == CodeRanges(dex, ms[1..])
  {
    hide CodeRange, EncodeMethod, At, Layout, Apart, SameOutside;
    var q := p + |EncodeMethods(ms)|;
    LayoutFirst(dex, p, q, ms);
    var rest := ms[1..];
    var head, tail := EncodeMethod(ms[0]), EncodeMethods(rest);
    AtSplit(dex, p, head, tail);
    ApartInside(r, p, q, p + |head|);
    SameAt(dex, d, r, p + |head|, tail);
    SameCodeRanges(dex, d, r, rest);
    LayoutSame(dex, d, p, q, p + |head|, ms);
  }

  lemma ApartInside(r: Range, p: nat, q: nat, p': nat)
    requires Apart(r, p, q) && p <= p' <= q
    ensures Apart(r, p', q)
  {
  }

  lemma LayoutInside(dex: Buf, p: nat, q: nat, p': nat, ms: seq<Method>)
    requires Layout(dex, p, q, ms) && p <= p' <= q
    ensures Layout(dex, p', q, ms)
  {
    hide CodeRange;
  }

  lemma LayoutFirst(dex: Buf, p: nat, q: nat, ms: seq<Method>)
    requires ms != [] && ms[0].codeOff != 0 && Layout(dex, p, q, ms)
    ensures CodeRange(dex, ms[0].codeOff).Ok?
    ensures var r := CodeRange(dex, ms[0].codeOff).value;
            && Apart(r, p, q)
            && (forall m :: m in ms[1..] && m.codeOff != 0 ==>
                  CodeRange(dex, m.codeOff).Ok? && Apart(r, m.codeOff + 12, m.codeOff + 16))
  {
    hide CodeRange, Apart;
    assert ms[0] in ms && forall m :: m in ms[1..] ==> m in ms;
  }

  lemma LayoutSame(dex: Buf, d: Buf, p: nat, q: nat, p': nat, ms: seq<Method>)
    requires ms != [] && Layout(dex, p, q, ms) && p <= p' <= q
    requires forall m :: m in ms[1..] && m.codeOff != 0 ==> CodeRange(d, m.codeOff) == CodeRange(dex, m.codeOff)
    ensures Layout(d, p', q, ms[1..])
  {
    hide CodeRange;
    assert forall m :: m in ms[1..] ==> m in ms;
  }

  lemma ClassHeaderReads(dex: Buf, p: nat, a: U32, b: U32, c: U32, d: U32)
    requires At(dex, p, Uleb128.Encode(a))
    requires At(dex, p + |Uleb128.Encode(a)|, Uleb128.Encode(b))
    requires At(dex, p + |Uleb128.Encode(a)| + |Uleb128.Encode(b)|, Uleb128.Encode(c))
    requires At(dex, p + |Uleb128.Encode(a)| + |Uleb128.Encode(b)| + |Uleb128.Encode(c)|, Uleb128.Encode(d))
    ensures ClassHeader(dex, p) ==
            Ok((p + |Uleb128.Encode(a)| + |Uleb128.Encode(b)| + |Uleb128.Encode(c)| + |Uleb128.Encode(d)|,
                a + b, c + d))
  {
    hide At, Uleb128.Read, Uleb128.Encode;
    var p1 := p + |Uleb128.Encode(a)|;
    var p2 := p1 + |Uleb128.Encode(b)|;
    var p3 := p2 + |Uleb128.Encode(c)|;
    Uleb128.RoundTrip(dex, p, a);
    Uleb128.RoundTrip(dex, p1, b);
    Uleb128.RoundTrip(dex, p2, c);
    Uleb128.RoundTrip(dex, p3, d);
  }

  // A whole class_data item.
  lemma ClassDataWalkExact(dex: Buf, off: nat, sf: seq<Field>, inf: seq<Field>,
                           dm: seq<Method>, vm: seq<Method>, target: U32)
    requires |sf| < 0x1_0000_0000 && |inf| < 0x1_0000_0000
    requires |dm| < 0x1_0000_0000 && |vm| < 0x1_0000_0000
    requires At(dex, off, EncodeClassData(sf, inf, dm, vm))
    requires Layout(dex, off, off + |EncodeClassData(sf, inf, dm, vm)|, dm + vm)
    ensures var pass := VisitClassData(dex, off, target);
            && pass.ok && pass.visited == CodeRanges(dex, dm + vm)
            && (forall r :: r in pass.visited ==> r.lo <= r.hi <= |dex|)
            && pass.dex == RewriteAll(dex, pass.visited, target)
  {
    hide VisitMethods, SkipFields, EncodeFields, EncodeMethods, CodeRange, RewriteAll, At, Layout, CodeRanges, Uleb128.Read, Uleb128.Encode, ClassHeader;
    var e1, e2 := Uleb128.Encode(|sf|), Uleb128.Encode(|inf|);
    var e3, e4 := Uleb128.Encode(|dm|), Uleb128.Encode(|vm|);
    var fs, ms := EncodeFields(sf + inf), EncodeMethods(dm + vm);
    var p1, p2, p3 := off + |e1|, off + |e1| + |e2|, off + |e1| + |e2| + |e3|;
    var p4 := p3 + |e4|;
    AtSplit(dex, off, e1, e2 + (e3 + (e4 + (fs + ms))));
    AtSplit(dex, p1, e2, e3 + (e4 + (fs + ms)));
    AtSplit(dex, p2, e3, e4 + (fs + ms));
    AtSplit(dex, p3, e4, fs + ms);
    AtSplit(dex, p4, fs, ms);
    ClassHeaderReads(dex, off, |sf|, |inf|, |dm|, |vm|);
    SkipFieldsReads(dex, p4, sf + inf);
    LayoutInside(dex, off, p4 + |fs| + |ms|, p4 + |fs|, dm + vm);
    MethodsWalkExact(dex, p4 + |fs|, dm + vm, target);
  }

  // ---- what the bodies become -----------------------------------------------------------

  predicate EqualOrApart(ranges: seq<Range>) {
    forall r, s :: r in ranges && s in ranges ==> r == s || Apart(r, s.lo, s.hi)
  }

  // When bodies are shared whole or not at all, each ends up as its own rewrite, however
  // often it is visited.
  lemma {:induction false} BodiesRewritten(dex: Buf, ranges: seq<Range>, target: U32, r: Range)
    requires forall s :: s in ranges ==> s.lo <= s.hi <= |dex|
    requires EqualOrApart(ranges + [r]) && r.lo <= r.hi <= |dex|
    ensures RewriteAll(dex, ranges, target)[r.lo..r.hi] ==
            if r in ranges then Rewrite(dex[r.lo..r.hi], 0, target) else dex[r.lo..r.hi]
    decreases |ranges|
  {
    hide Rewrite, RewriteRange;
    if ranges != [] {
      var s, rest := ranges[0], ranges[1..];
      var d := RewriteRange(dex, s, target);
      RewriteRangeLocal(dex, s, target);
      assert forall x :: x in rest + [r] ==> x in ranges + [r];
      BodiesRewritten(d, rest, target, r);
      if s == r {
        RewriteExact(dex[r.lo..r.hi], target);
      } else {
        assert s in ranges + [r] && r in ranges + [r];
        assert d[r.lo..r.hi] == dex[r.lo..r.hi];
      }
    }
  }
}
