/**
 * The patcher on a whole file, by instruction ranges: when the code ranges keep away from all
 * that the walk reads, every one is rewritten and none is missed.
 */
module DexRanges {
  import opened Bytes
  import opened DexInsns
  import opened DexWalk
  import opened DexClassData
  import opened DexChecksum
  import opened DexPatch
  import opened DexItems
  import opened DexTables
  import DexMeaning

  // One entry of the class table, its eight words and what its data lists; dataOff 0 stands for
  // a class without data.
  datatype ClassDef = ClassDef(classIdx: U32, accessFlags: U32, superclassIdx: U32, interfacesOff: U32,
                               sourceFileIdx: U32, annotationsOff: U32, dataOff: U32, staticValuesOff: U32,
                               staticFields: seq<Field>, instanceFields: seq<Field>,
                               directMethods: seq<Method>, virtualMethods: seq<Method>)

  predicate Countable(c: ClassDef) {
    && |c.staticFields| < 0x1_0000_0000 && |c.instanceFields| < 0x1_0000_0000
    && |c.directMethods| < 0x1_0000_0000 && |c.virtualMethods| < 0x1_0000_0000
  }

  function EncodeClassDef(c: ClassDef): (s: Buf)
    ensures |s| == 32
  {
    Words([c.classIdx, c.accessFlags, c.superclassIdx, c.interfacesOff, c.sourceFileIdx, c.annotationsOff,
           c.dataOff, c.staticValuesOff])
  }

  function DataBytes(c: ClassDef): Buf
    requires Countable(c)
  {
    EncodeClassData(c.staticFields, c.instanceFields, c.directMethods, c.virtualMethods)
  }

  function MethodsOf(c: ClassDef): seq<Method> {
    if c.dataOff == 0 then [] else c.directMethods + c.virtualMethods
  }

  function AllMethods(cs: seq<ClassDef>): seq<Method> {
    if cs == [] then [] else MethodsOf(cs[0]) + AllMethods(cs[1..])
  }

  // Entry number i of the class table, and the class data it leads to.
  predicate ClassAt(dex: Buf, defsOff: U32, i: nat, c: ClassDef) {
    && Countable(c) && At(dex, defsOff + 32 * i, EncodeClassDef(c))
    && (c.dataOff != 0 ==> At(dex, c.dataOff, DataBytes(c)))
  }

  // No instruction range meets the bytes [lo, hi).
  predicate Quiet(ranges: seq<Range>, lo: nat, hi: nat) {
    forall r :: r in ranges ==> Apart(r, lo, hi)
  }

  predicate ClassQuiet(ranges: seq<Range>, defsOff: U32, i: nat, c: ClassDef) {
    && Countable(c)
    && Quiet(ranges, defsOff + 32 * i, defsOff + 32 * i + 32)
    && (c.dataOff != 0 ==> Quiet(ranges, c.dataOff, c.dataOff + |DataBytes(c)|))
  }

  predicate CodeOk(dex: Buf, ranges: seq<Range>, m: Method) {
    m.codeOff != 0 ==>
      && CodeRange(dex, m.codeOff).Ok? && CodeRange(dex, m.codeOff).value in ranges
      && Quiet(ranges, m.codeOff + 12, m.codeOff + 16)
  }

  predicate CodesOk(dex: Buf, ranges: seq<Range>, ms: seq<Method>) {
    forall m :: m in ms ==> CodeOk(dex, ranges, m)
  }

  // The table from entry i on describes cs; all code lies in `ranges`, away from the tables,
  // the class data and the size fields of code items.
  predicate FileLayout(dex: Buf, defsOff: U32, i: nat, cs: seq<ClassDef>, ranges: seq<Range>) {
    && (forall k :: 0 <= k < |cs| ==> ClassAt(dex, defsOff, i + k, cs[k]) && ClassQuiet(ranges, defsOff, i + k, cs[k]))
    && CodesOk(dex, ranges, AllMethods(cs))
  }

  // ---- rewriting several ranges ---------------------------------------------------------------

  predicate Covered(ranges: seq<Range>, k: int) {
    exists r :: r in ranges && r.lo <= k < r.hi
  }

  predicate SameButIn(a: Buf, b: Buf, ranges: seq<Range>) {
    |a| == |b| && forall k :: 0 <= k < |a| && !Covered(ranges, k) ==> a[k] == b[k]
  }

  lemma {:induction false} RewriteAllLocal(dex: Buf, some: seq<Range>, target: U32, ranges: seq<Range>)
    requires forall r :: r in some ==> r.lo <= r.hi <= |dex| && r in ranges
    ensures SameButIn(dex, RewriteAll(dex, some, target), ranges)
    decreases |some|
  {
    hide RewriteRange;
    if some != [] {
      assert some[0] in some;
      var d := RewriteRange(dex, some[0], target);
      RewriteRangeLocal(dex, some[0], target);
      RewriteAllLocal(d, some[1..], target, ranges);
      assert forall k :: 0 <= k < |dex| && !Covered(ranges, k) ==> !(some[0].lo <= k < some[0].hi);
    }
  }

  lemma {:induction false} RewriteAllAppend(dex: Buf, a: seq<Range>, b: seq<Range>, target: U32)
    requires forall r :: r in a + b ==> r.lo <= r.hi <= |dex|
    ensures forall r :: r in a || r in b ==> r.lo <= r.hi <= |dex|
    ensures RewriteAll(dex, a + b, target) == RewriteAll(RewriteAll(dex, a, target), b, target)
    decreases |a|
  {
    hide RewriteRange;
    assert forall r :: r in a || r in b ==> r in a + b;
    if a == [] {
      assert a + b == b;
    } else {
      assert (a + b)[0] == a[0] && (a + b)[1..] == a[1..] + b;
      RewriteAllAppend(RewriteRange(dex, a[0], target), a[1..], b, target);
    }
  }

  lemma SameBytes(a: Buf, b: Buf, ranges: seq<Range>, lo: nat, hi: nat)
    requires SameButIn(a, b, ranges) && Quiet(ranges, lo, hi) && lo <= hi <= |a|
    ensures a[lo..hi] == b[lo..hi]
  {
    forall k | lo <= k < hi ensures a[k] == b[k] {
      assert !Covered(ranges, k);
    }
  }

  lemma SameClassAt(a: Buf, b: Buf, ranges: seq<Range>, defsOff: U32, i: nat, c: ClassDef)
    requires SameButIn(a, b, ranges) && ClassAt(a, defsOff, i, c) && ClassQuiet(ranges, defsOff, i, c)
    ensures ClassAt(b, defsOff, i, c)
  {
    hide Quiet, DataBytes, EncodeClassDef;
    var e := defsOff + 32 * i;
    SameBytes(a, b, ranges, e, e + 32);
    if c.dataOff != 0 {
      SameBytes(a, b, ranges, c.dataOff, c.dataOff + |DataBytes(c)|);
    }
  }

  lemma SameCode(a: Buf, b: Buf, ranges: seq<Range>, m: Method)
    requires SameButIn(a, b, ranges) && CodeOk(a, ranges, m)
    ensures CodeOk(b, ranges, m)
    ensures m.codeOff != 0 ==> CodeRange(b, m.codeOff) == CodeRange(a, m.codeOff)
  {
    if m.codeOff != 0 {
      SameBytes(a, b, ranges, m.codeOff + 12, m.codeOff + 16);
    }
  }

  lemma {:induction false} SameCodes(a: Buf, b: Buf, ranges: seq<Range>, ms: seq<Method>)
    requires SameButIn(a, b, ranges) && CodesOk(a, ranges, ms)
    ensures CodesOk(b, ranges, ms) && CodeRanges(b, ms) == CodeRanges(a, ms)
    decreases |ms|
  {
    hide SameButIn, CodeRange, Quiet;
    if ms != [] {
      assert ms[0] in ms && forall m :: m in ms[1..] ==> m in ms;
      SameCode(a, b, ranges, ms[0]);
      SameCodes(a, b, ranges, ms[1..]);
      assert forall m :: m in ms ==> m == ms[0] || m in ms[1..];
    }
  }

  lemma {:induction false} CodeRangesAppend(dex: Buf, ranges: seq<Range>, a: seq<Method>, b: seq<Method>)
    requires CodesOk(dex, ranges, a + b)
    ensures CodesOk(dex, ranges, a) && CodesOk(dex, ranges, b)
    ensures CodeRanges(dex, a + b) == CodeRanges(dex, a) + CodeRanges(dex, b)
    decreases |a|
  {
    hide CodeRange, Quiet;
    assert forall m :: m in a || m in b ==> m in a + b;
    if a == [] {
      assert a + b == b;
    } else {
      assert (a + b)[0] == a[0] && (a + b)[1..] == a[1..] + b;
      assert forall m :: m in a[1..] + b ==> m in a + b;
      CodeRangesAppend(dex, ranges, a[1..], b);
    }
  }

  lemma {:induction false} CodeRangesListed(dex: Buf, ranges: seq<Range>, ms: seq<Method>)
    requires CodesOk(dex, ranges, ms)
    ensures forall r :: r in CodeRanges(dex, ms) ==> r in ranges && r.lo <= r.hi <= |dex|
    decreases |ms|
  {
    if ms != [] {
      assert ms[0] in ms && forall m :: m in ms[1..] ==> m in ms;
      CodeRangesListed(dex, ranges, ms[1..]);
    }
  }

  lemma LayoutOf(dex: Buf, ranges: seq<Range>, p: nat, q: nat, ms: seq<Method>)
    requires CodesOk(dex, ranges, ms) && Quiet(ranges, p, q)
    ensures Layout(dex, p, q, ms)
  {
    hide CodeRange;
    assert forall m :: m in ms ==> CodeOk(dex, ranges, m);
  }

  // ---- the walk over all classes -----------------------------------------------------------------

  lemma OneClass(dex: Buf, defsOff: U32, i: nat, cs: seq<ClassDef>, ranges: seq<Range>, target: U32)
    requires FileLayout(dex, defsOff, i, cs, ranges) && cs != [] && cs[0].dataOff != 0
    ensures CodesOk(dex, ranges, MethodsOf(cs[0])) && CodesOk(dex, ranges, AllMethods(cs[1..]))
    ensures var pass := VisitClassData(dex, cs[0].dataOff, target);
            && pass.visited == CodeRanges(dex, MethodsOf(cs[0]))
            && (forall r :: r in pass.visited ==> r.lo <= r.hi <= |dex| && r in ranges)
            && pass.dex == RewriteAll(dex, pass.visited, target)
  {
    hide VisitClassData, CodeOk, Layout, RewriteAll, EncodeClassData, CodeRanges;
    var c := cs[0];
    assert ClassAt(dex, defsOff, i + 0, c) && ClassQuiet(ranges, defsOff, i + 0, c);
    CodeRangesAppend(dex, ranges, MethodsOf(c), AllMethods(cs[1..]));
    CodeRangesListed(dex, ranges, MethodsOf(c));
    LayoutOf(dex, ranges, c.dataOff, c.dataOff + |DataBytes(c)|, MethodsOf(c));
    ClassDataWalkExact(dex, c.dataOff, c.staticFields, c.instanceFields, c.directMethods, c.virtualMethods, target);
  }

  lemma LayoutTail(dex: Buf, d: Buf, defsOff: U32, i: nat, cs: seq<ClassDef>, ranges: seq<Range>)
    requires FileLayout(dex, defsOff, i, cs, ranges) && cs != [] && SameButIn(dex, d, ranges)
    requires CodesOk(dex, ranges, AllMethods(cs[1..]))
    ensures FileLayout(d, defsOff, i + 1, cs[1..], ranges)
    ensures CodeRanges(d, AllMethods(cs[1..])) == CodeRanges(dex, AllMethods(cs[1..]))
  {
    hide SameButIn, ClassAt, ClassQuiet, CodesOk;
    SameCodes(dex, d, ranges, AllMethods(cs[1..]));
    forall k | 0 <= k < |cs[1..]|
      ensures ClassAt(d, defsOff, i + 1 + k, cs[1..][k])
      ensures ClassQuiet(ranges, defsOff, i + 1 + k, cs[1..][k])
    {
      assert ClassAt(dex, defsOff, i + (k + 1), cs[k + 1]) && ClassQuiet(ranges, defsOff, i + (k + 1), cs[k + 1]);
      SameClassAt(dex, d, ranges, defsOff, i + (k + 1), cs[k + 1]);
    }
  }

  /**
   * The walk over the class table visits exactly the bodies of all methods with code, in
   * order, and does nothing but rewrite them.
   */
  lemma {:induction false} ClassesWalkExact(dex: Buf, defsOff: U32, i: nat, cs: seq<ClassDef>, ranges: seq<Range>, target: U32)
    requires FileLayout(dex, defsOff, i, cs, ranges)
    ensures var pass := VisitClasses(dex, defsOff, i, |cs|, target);
            && pass.visited == CodeRanges(dex, AllMethods(cs))
            && (forall r :: r in pass.visited ==> r.lo <= r.hi <= |dex| && r in ranges)
            && pass.dex == RewriteAll(dex, pass.visited, target)
    decreases |cs|
  {
    hide VisitClassData, CodesOk, RewriteAll, CodeRanges, ClassAt, SameButIn, FileLayout;
    LayoutHead(dex, defsOff, i, cs, ranges);
    if cs == [] {
      NothingRewritten(dex, target);
    } else {
      var c, rest := cs[0], AllMethods(cs[1..]);
      CodeRangesAppend(dex, ranges, MethodsOf(c), rest);
      if c.dataOff == 0 {
        SkippedClass(dex, defsOff, i, c);
        SameAsItself(dex, ranges);
        LayoutTail(dex, dex, defsOff, i, cs, ranges);
        ClassesWalkExact(dex, defsOff, i + 1, cs[1..], ranges, target);
        assert MethodsOf(c) + rest == rest;
      } else {
        OneClass(dex, defsOff, i, cs, ranges, target);
        var here := VisitClassData(dex, c.dataOff, target);
        RewriteAllLocal(dex, here.visited, target, ranges);
        LayoutTail(dex, here.dex, defsOff, i, cs, ranges);
        ClassesWalkExact(here.dex, defsOff, i + 1, cs[1..], ranges, target);
        VisitedClass(dex, defsOff, i, |cs|, c, target);
        var there := VisitClasses(here.dex, defsOff, i + 1, |cs| - 1, target);
        RewriteAllAppend(dex, here.visited, there.visited, target);
      }
    }
  }

  lemma LayoutHead(dex: Buf, defsOff: U32, i: nat, cs: seq<ClassDef>, ranges: seq<Range>)
    requires FileLayout(dex, defsOff, i, cs, ranges)
    ensures CodesOk(dex, ranges, AllMethods(cs))
    ensures cs != [] ==> ClassAt(dex, defsOff, i, cs[0]) && AllMethods(cs) == MethodsOf(cs[0]) + AllMethods(cs[1..])
  {
    if cs != [] {
      assert ClassAt(dex, defsOff, i + 0, cs[0]);
    }
  }

  lemma NothingRewritten(dex: Buf, target: U32)
    ensures RewriteAll(dex, [], target) == dex && CodeRanges(dex, []) == []
  {
  }

  lemma SameAsItself(dex: Buf, ranges: seq<Range>)
    ensures SameButIn(dex, dex, ranges)
  {
  }

  lemma SkippedClass(dex: Buf, defsOff: U32, i: nat, c: ClassDef)
    requires ClassAt(dex, defsOff, i, c) && c.dataOff == 0
    ensures ReadU32(dex, defsOff + 32 * i + 24) == Ok(0)
  {
    DataOffRead(dex, defsOff, i, c);
  }

  lemma DataOffRead(dex: Buf, defsOff: U32, i: nat, c: ClassDef)
    requires ClassAt(dex, defsOff, i, c)
    ensures ReadU32(dex, defsOff + 32 * i + 24) == Ok(c.dataOff)
  {
    hide Words, ReadU32;
    var ws: seq<U32> := [c.classIdx, c.accessFlags, c.superclassIdx, c.interfacesOff, c.sourceFileIdx,
                         c.annotationsOff, c.dataOff, c.staticValuesOff];
    WordsRead(dex, defsOff + 32 * i, ws, 6);
  }

  lemma VisitedClass(dex: Buf, defsOff: U32, i: nat, n: nat, c: ClassDef, target: U32)
    requires ClassAt(dex, defsOff, i, c) && c.dataOff != 0 && n > 0
    ensures var here := VisitClassData(dex, c.dataOff, target);
            VisitClasses(dex, defsOff, i, n, target) == Then(here, VisitClasses(here.dex, defsOff, i + 1, n - 1, target))
  {
    hide VisitClassData;
    DataOffRead(dex, defsOff, i, c);
  }

  // ---- the patched file ---------------------------------------------------------------------------

  // The file's class table describes cs; bodies lie behind the checksums and are shared whole
  // or not at all.
  predicate WellLaidOut(dex: Buf, h: Header, cs: seq<ClassDef>, ranges: seq<Range>) {
    && |cs| == h.classesSize && |dex| >= 32
    && FileLayout(dex, h.classesOff, 0, cs, ranges)
    && EqualOrApart(ranges) && Quiet(ranges, 0, 32)
  }

  lemma SealedBody(dex: Buf, sha1: Buf -> Buf, r: Range)
    requires |dex| >= 32 && |sha1(dex[32..])| == 20 && 32 <= r.lo <= r.hi <= |dex|
    ensures Sealed(dex, sha1)[r.lo..r.hi] == dex[r.lo..r.hi]
  {
    hide Sealed, ChecksumsHold;
    SealedIsConsistent(dex, sha1);
    SliceOfTail(Sealed(dex, sha1), 32, r.lo, r.hi);
    SliceOfTail(dex, 32, r.lo, r.hi);
  }

  /** Every method body of the patched file is the rewrite of the original body. */
  lemma PatchedBodies(dex: Buf, h: Header, sha1: Buf -> Buf, cs: seq<ClassDef>, ranges: seq<Range>, field: U32, r: Range)
    requires forall b :: |sha1(b)| == 20
    requires WellLaidOut(dex, h, cs, ranges)
    requires CodesOk(dex, ranges, AllMethods(cs)) && r in CodeRanges(dex, AllMethods(cs)) && r.lo < r.hi <= |dex|
    ensures Resolve(dex, h) == Ok(Some(field)) ==>
              && Patched(dex, h, sha1).Ok? && |Patched(dex, h, sha1).value.0| == |dex|
              && Patched(dex, h, sha1).value.0[r.lo..r.hi] == Rewrite(dex[r.lo..r.hi], 0, field)
  {
    if Resolve(dex, h) == Ok(Some(field)) {
      hide Patched, VisitClasses, Sealed, Rewrite, RewriteAll, CodeRanges, FileLayout, Resolve, CodesOk, AllMethods;
      var pass := Walked(dex, h, field);
      ClassesWalkExact(dex, h.classesOff, 0, cs, ranges, field);
      BehindHeader(ranges, pass.visited, r);
      BodiesRewritten(dex, pass.visited, field, r);
      PatchedIs(dex, h, sha1, field);
      if pass.slots != [] {
        SealedBody(pass.dex, sha1, r);
      }
    }
  }

  lemma BehindHeader(ranges: seq<Range>, visited: seq<Range>, r: Range)
    requires EqualOrApart(ranges) && Quiet(ranges, 0, 32) && r in visited && r.lo < r.hi
    requires forall x :: x in visited ==> x in ranges
    ensures EqualOrApart(visited + [r]) && r.lo >= 32
  {
    assert Apart(r, 0, 32);
  }

  lemma PatchedIs(dex: Buf, h: Header, sha1: Buf -> Buf, field: U32)
    requires forall b :: |sha1(b)| == 20
    requires |dex| >= 32
    ensures |Walked(dex, h, field).dex| == |dex|
    ensures Resolve(dex, h) == Ok(Some(field)) ==>
              var pass := Walked(dex, h, field);
              Patched(dex, h, sha1).Ok?
              && Patched(dex, h, sha1).value.0 == if pass.slots == [] then pass.dex else Sealed(pass.dex, sha1)
  {
    hide VisitClasses, Sealed, Resolve;
    ClassesFramed(dex, h.classesOff, 0, h.classesSize, field);
  }

  /**
   * Main result, from file to behaviour. In the patched file every method body that is closed
   * code and reads the field only by sget runs, for any number of steps in any environment, as
   * the original body does where Build.VERSION.SDK_INT reads 35.
   */
  lemma EveryBodyRunsClamped<W(!new)>(dex: Buf, h: Header, sha1: Buf -> Buf, cs: seq<ClassDef>, ranges: seq<Range>,
      field: U32, r: Range, statics: (W, nat) -> int,
      other: (Buf, Buf, DexMeaning.State<W>) -> DexMeaning.Outcome<W>, s: DexMeaning.State<W>, steps: nat)
    requires forall b :: |sha1(b)| == 20
    requires WellLaidOut(dex, h, cs, ranges)
    requires CodesOk(dex, ranges, AllMethods(cs)) && r in CodeRanges(dex, AllMethods(cs)) && r.lo < r.hi <= |dex|
    ensures Resolve(dex, h) == Ok(Some(field)) && DexMeaning.Amenable(dex[r.lo..r.hi], field, other, s.pc) ==>
              && DenotesSdkInt(dex, h, field)
              && Patched(dex, h, sha1).Ok? && |Patched(dex, h, sha1).value.0| == |dex|
              && DexMeaning.Run(Patched(dex, h, sha1).value.0[r.lo..r.hi], statics, other, DexMeaning.Running(s), steps)
                 == DexMeaning.Run(dex[r.lo..r.hi], DexMeaning.Clamped(statics, field), other, DexMeaning.Running(s), steps)
  {
    hide Patched, Rewrite, WellLaidOut, Resolve, DenotesSdkInt, CodeRanges;
    ResolveSound(dex, h);
    PatchedBodies(dex, h, sha1, cs, ranges, field, r);
    if DexMeaning.Amenable(dex[r.lo..r.hi], field, other, s.pc) {
      DexMeaning.ClosedCodeMeaningPreserved(dex[r.lo..r.hi], field, statics, other, s, steps);
    }
  }
}
