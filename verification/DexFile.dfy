/**
 * The patcher on a file written out from its parts: header, tables, class data and code items.
 * Every method body is rewritten, none is missed, and each then runs as the original would
 * where SDK_INT reads 35.
 */
module DexFile {
  import opened Bytes
  import opened DexInsns
  import opened DexWalk
  import opened DexClassData
  import opened DexPatch
  import opened DexItems
  import opened DexTables
  import opened DexRanges
  import DexMeaning

  // ---- code items ---------------------------------------------------------------------------------

  datatype CodeItem = CodeItem(registers: U16, ins: U16, outs: U16, tries: U16, debugOff: U32, insns: Buf)

  predicate CodeFits(x: CodeItem) { |x.insns| % 2 == 0 && |x.insns| / 2 < 0x1_0000_0000 }

  // Four half words, the debug offset, the number of code units, the code units.
  function EncodeCode(x: CodeItem): (s: Buf)
    ensures |s| == 16 + |x.insns|
  {
    LE(x.registers, 2) + (LE(x.ins, 2) + (LE(x.outs, 2) + (LE(x.tries, 2)
      + (LE(x.debugOff, 4) + (LE(|x.insns| / 2, 4) + x.insns)))))
  }

  /** What the walk hands to the rewriter is exactly the item's code units. */
  lemma CodeRangeIs(dex: Buf, off: nat, x: CodeItem)
    requires CodeFits(x) && At(dex, off, EncodeCode(x))
    ensures CodeRange(dex, off) == Ok(BodyRange(off, x)) && off + 16 + |x.insns| <= |dex|
    ensures dex[off + 16..off + 16 + |x.insns|] == x.insns
  {
    hide LE, FromLE, At;
    var rest4 := LE(|x.insns| / 2, 4) + x.insns;
    var rest3 := LE(x.debugOff, 4) + rest4;
    var rest2 := LE(x.tries, 2) + rest3;
    var rest1 := LE(x.outs, 2) + rest2;
    HalfAt(dex, off, x.registers, LE(x.ins, 2) + rest1);
    HalfAt(dex, off + 2, x.ins, rest1);
    HalfAt(dex, off + 4, x.outs, rest2);
    HalfAt(dex, off + 6, x.tries, rest3);
    WordAt(dex, off + 8, x.debugOff, rest4);
    WordAt(dex, off + 12, |x.insns| / 2, x.insns);
    Standing(dex, off + 16, x.insns);
  }

  lemma Standing(dex: Buf, p: nat, part: Buf)
    requires At(dex, p, part)
    ensures p + |part| <= |dex| && dex[p..p + |part|] == part
  {
  }

  // ---- the file -------------------------------------------------------------------------------------

  type Codes = map<U32, CodeItem>

  function BodyRange(off: nat, x: CodeItem): Range { Range(off + 16, off + 16 + |x.insns|) }

  predicate Coded(codes: Codes, m: Method) { m.codeOff != 0 ==> m.codeOff in codes }

  predicate MethodsCoded(codes: Codes, ms: seq<Method>) { forall m :: m in ms ==> Coded(codes, m) }

  // The instruction ranges of the methods that have code, in order.
  function Bodies(codes: Codes, ms: seq<Method>): seq<Range>
    requires MethodsCoded(codes, ms)
  {
    if ms == [] then []
    else (if ms[0].codeOff == 0 then [] else assert Coded(codes, ms[0]); [BodyRange(ms[0].codeOff, codes[ms[0].codeOff])])
         + Bodies(codes, ms[1..])
  }

  // No code units stand in the bytes [lo, hi).
  predicate NoCodeIn(codes: Codes, lo: nat, hi: nat) {
    forall off :: off in codes ==> Apart(BodyRange(off, codes[off]), lo, hi)
  }

  predicate CodeStands(dex: Buf, codes: Codes, off: U32)
    requires off in codes
  {
    CodeFits(codes[off]) && At(dex, off, EncodeCode(codes[off]))
  }

  predicate ClassStands(dex: Buf, h: Header, i: nat, c: ClassDef, codes: Codes) {
    && ClassAt(dex, h.classesOff, i, c)
    && NoCodeIn(codes, h.classesOff + 32 * i, h.classesOff + 32 * i + 32)
    && (c.dataOff != 0 ==> NoCodeIn(codes, c.dataOff, c.dataOff + |DataBytes(c)|))
  }

  // Class table, class data and code items stand where they say and keep apart; code units lie
  // behind the checksums.
  predicate EncodedFile(dex: Buf, h: Header, cs: seq<ClassDef>, codes: Codes) {
    && |cs| == h.classesSize && |dex| >= 32 && NoCodeIn(codes, 0, 32)
    && (forall k :: 0 <= k < |cs| ==> ClassStands(dex, h, k, cs[k], codes))
    && MethodsCoded(codes, AllMethods(cs))
    && (forall off :: off in codes ==> CodeStands(dex, codes, off))
    && (forall off, other :: off in codes && other in codes && off != other ==>
          Apart(BodyRange(off, codes[off]), other, other + |EncodeCode(codes[other])|))
  }

  lemma {:induction false} BodiesAre(dex: Buf, codes: Codes, ms: seq<Method>)
    requires MethodsCoded(codes, ms) && forall off :: off in codes ==> CodeStands(dex, codes, off)
    ensures forall m :: m in ms && m.codeOff != 0 ==> CodeRange(dex, m.codeOff).Ok?
    ensures CodeRanges(dex, ms) == Bodies(codes, ms)
    ensures forall r :: r in Bodies(codes, ms) ==> exists off :: off in codes && r == BodyRange(off, codes[off])
    ensures forall m :: m in ms && m.codeOff != 0 ==> m.codeOff in codes && BodyRange(m.codeOff, codes[m.codeOff]) in Bodies(codes, ms)
    decreases |ms|
  {
    hide CodeRange, BodyRange;
    if ms != [] {
      var m := ms[0];
      assert Coded(codes, m) && forall k :: k in ms[1..] ==> k in ms;
      BodiesAre(dex, codes, ms[1..]);
      if m.codeOff != 0 {
        assert CodeStands(dex, codes, m.codeOff);
        CodeRangeIs(dex, m.codeOff, codes[m.codeOff]);
      }
      assert forall k :: k in ms ==> k == m || k in ms[1..];
    }
  }

  lemma QuietBodies(codes: Codes, ranges: seq<Range>, lo: nat, hi: nat)
    requires forall r :: r in ranges ==> exists off :: off in codes && r == BodyRange(off, codes[off])
    requires NoCodeIn(codes, lo, hi)
    ensures Quiet(ranges, lo, hi)
  {
  }

  lemma CodeIsOk(dex: Buf, codes: Codes, ranges: seq<Range>, h: Header, cs: seq<ClassDef>, m: Method)
    requires EncodedFile(dex, h, cs, codes) && Coded(codes, m)
    requires forall r :: r in ranges ==> exists off :: off in codes && r == BodyRange(off, codes[off])
    requires m.codeOff != 0 ==> BodyRange(m.codeOff, codes[m.codeOff]) in ranges
    ensures CodeOk(dex, ranges, m)
  {
    hide ClassStands, MethodsCoded, NoCodeIn, CodeRange;
    if m.codeOff != 0 {
      assert CodeStands(dex, codes, m.codeOff);
      CodeRangeIs(dex, m.codeOff, codes[m.codeOff]);
      forall r | r in ranges ensures Apart(r, m.codeOff + 12, m.codeOff + 16) {
        var off: U32 :| off in codes && r == BodyRange(off, codes[off]);
      }
    }
  }

  lemma EncodedIsLaidOut(dex: Buf, h: Header, cs: seq<ClassDef>, codes: Codes)
    requires EncodedFile(dex, h, cs, codes)
    ensures MethodsCoded(codes, AllMethods(cs))
    ensures var ranges := Bodies(codes, AllMethods(cs));
            WellLaidOut(dex, h, cs, ranges) && CodesOk(dex, ranges, AllMethods(cs))
  {
    hide CodeStands, ClassAt, BodyRange, CodeOk, Coded, EncodeClassDef, DataBytes, EncodeCode, Apart;
    var ms := AllMethods(cs);
    var ranges := Bodies(codes, ms);
    BodiesAre(dex, codes, ms);
    forall m | m in ms ensures CodeOk(dex, ranges, m) {
      assert Coded(codes, m);
      CodeIsOk(dex, codes, ranges, h, cs, m);
    }
    QuietBodies(codes, ranges, 0, 32);
    forall k | 0 <= k < |cs| ensures ClassAt(dex, h.classesOff, 0 + k, cs[k]) && ClassQuiet(ranges, h.classesOff, 0 + k, cs[k]) {
      assert ClassStands(dex, h, k, cs[k], codes);
      QuietClass(dex, h, k, cs[k], codes, ranges);
    }
    BodiesApart(dex, h, cs, codes, ranges);
  }

  lemma QuietClass(dex: Buf, h: Header, k: nat, c: ClassDef, codes: Codes, ranges: seq<Range>)
    requires ClassStands(dex, h, k, c, codes)
    requires forall r :: r in ranges ==> exists off :: off in codes && r == BodyRange(off, codes[off])
    ensures ClassQuiet(ranges, h.classesOff, k, c)
  {
    hide NoCodeIn, BodyRange, EncodeClassDef, DataBytes;
    QuietBodies(codes, ranges, h.classesOff + 32 * k, h.classesOff + 32 * k + 32);
    if c.dataOff != 0 {
      QuietBodies(codes, ranges, c.dataOff, c.dataOff + |DataBytes(c)|);
    }
  }

  lemma BodiesApart(dex: Buf, h: Header, cs: seq<ClassDef>, codes: Codes, ranges: seq<Range>)
    requires EncodedFile(dex, h, cs, codes)
    requires forall r :: r in ranges ==> exists off :: off in codes && r == BodyRange(off, codes[off])
    ensures EqualOrApart(ranges)
  {
    hide ClassStands, CodeStands, MethodsCoded, NoCodeIn;
    forall r, s | r in ranges && s in ranges ensures r == s || Apart(r, s.lo, s.hi) {
      var a: U32 :| a in codes && r == BodyRange(a, codes[a]);
      var b: U32 :| b in codes && s == BodyRange(b, codes[b]);
      if a != b {
        assert Apart(BodyRange(a, codes[a]), b, b + |EncodeCode(codes[b])|);
      }
    }
  }

  // ---- main results ------------------------------------------------------------------------------------

  /**
   * The walk over the class table visits exactly the code units of all methods that have code,
   * in order, and does nothing but rewrite them.
   */
  lemma ClassesWalkExact(dex: Buf, h: Header, cs: seq<ClassDef>, codes: Codes, target: U32)
    requires EncodedFile(dex, h, cs, codes)
    ensures MethodsCoded(codes, AllMethods(cs))
    ensures var pass := Walked(dex, h, target);
            && pass.visited == Bodies(codes, AllMethods(cs))
            && (forall r :: r in pass.visited ==> r.lo <= r.hi <= |dex|)
            && pass.dex == RewriteAll(dex, pass.visited, target)
    ensures forall off :: off in codes ==> At(dex, off + 16, codes[off].insns)
  {
    hide EncodedFile, CodeStands, ClassStands, VisitClasses, RewriteAll, AllMethods, Bodies, CodeRanges, CodesOk, MethodsCoded, EncodeCode, FileLayout;
    EncodedIsLaidOut(dex, h, cs, codes);
    CodesStand(dex, h, cs, codes);
    BodiesAre(dex, codes, AllMethods(cs));
    WalkOf(dex, h, cs, Bodies(codes, AllMethods(cs)), target);
  }

  lemma WalkOf(dex: Buf, h: Header, cs: seq<ClassDef>, ranges: seq<Range>, target: U32)
    requires WellLaidOut(dex, h, cs, ranges) && CodesOk(dex, ranges, AllMethods(cs))
    ensures var pass := Walked(dex, h, target);
            && pass.visited == CodeRanges(dex, AllMethods(cs))
            && (forall r :: r in pass.visited ==> r.lo <= r.hi <= |dex|)
            && pass.dex == RewriteAll(dex, pass.visited, target)
  {
    hide VisitClasses, RewriteAll, AllMethods, CodeRanges, CodesOk, FileLayout;
    DexRanges.ClassesWalkExact(dex, h.classesOff, 0, cs, ranges, target);
  }

  lemma CodesStand(dex: Buf, h: Header, cs: seq<ClassDef>, codes: Codes)
    requires EncodedFile(dex, h, cs, codes)
    ensures forall off :: off in codes ==> CodeStands(dex, codes, off)
    ensures forall off :: off in codes ==> off + 16 + |codes[off].insns| <= |dex| && At(dex, off + 16, codes[off].insns)
  {
    forall off | off in codes ensures off + 16 + |codes[off].insns| <= |dex| && At(dex, off + 16, codes[off].insns) {
      assert CodeStands(dex, codes, off);
      CodeRangeIs(dex, off, codes[off]);
    }
  }

  /** In the patched file the code units of every method are the rewrite of the original ones. */
  lemma PatchedBodies(dex: Buf, h: Header, sha1: Buf -> Buf, cs: seq<ClassDef>, codes: Codes, field: U32, m: Method)
    requires forall b :: |sha1(b)| == 20
    requires EncodedFile(dex, h, cs, codes)
    requires m in AllMethods(cs) && m.codeOff != 0
    ensures m.codeOff in codes
    ensures Resolve(dex, h) == Ok(Some(field)) ==>
              && Patched(dex, h, sha1).Ok?
              && At(Patched(dex, h, sha1).value.0, m.codeOff + 16, Rewrite(codes[m.codeOff].insns, 0, field))
  {
    hide EncodedFile, CodeStands, ClassStands, AllMethods, Bodies, CodeRanges, CodesOk, MethodsCoded, EncodeCode, Patched, Resolve, Rewrite, WellLaidOut;
    EncodedIsLaidOut(dex, h, cs, codes);
    CodesStand(dex, h, cs, codes);
    BodiesAre(dex, codes, AllMethods(cs));
    var ranges := Bodies(codes, AllMethods(cs));
    var x := codes[m.codeOff];
    var r := BodyRange(m.codeOff, x);
    Standing(dex, m.codeOff + 16, x.insns);
    PatchedSize(dex, h, sha1, cs, codes, field);
    if x.insns == [] {
      assert Rewrite(x.insns, 0, field) == [];
    } else {
      DexRanges.PatchedBodies(dex, h, sha1, cs, ranges, field, r);
    }
  }

  lemma PatchedSize(dex: Buf, h: Header, sha1: Buf -> Buf, cs: seq<ClassDef>, codes: Codes, field: U32)
    requires forall b :: |sha1(b)| == 20
    requires EncodedFile(dex, h, cs, codes)
    ensures Resolve(dex, h) == Ok(Some(field)) ==> Patched(dex, h, sha1).Ok? && |Patched(dex, h, sha1).value.0| == |dex|
  {
    hide Resolve, VisitClasses;
    PatchedIs(dex, h, sha1, field);
  }

  /**
   * Instruction by instruction: a body written out from items becomes the same items with each
   * static get of the field turned into const/16 of its register with literal 35.
   */
  lemma PatchedInstructions(dex: Buf, h: Header, sha1: Buf -> Buf, cs: seq<ClassDef>, codes: Codes, field: U32, m: Method, xs: seq<Item>)
    requires forall b :: |sha1(b)| == 20
    requires EncodedFile(dex, h, cs, codes)
    requires m in AllMethods(cs) && m.codeOff != 0
    requires AllWellFormed(xs) && m.codeOff in codes && codes[m.codeOff].insns == EncodeItems(xs)
    ensures Resolve(dex, h) == Ok(Some(field)) ==>
              && Patched(dex, h, sha1).Ok?
              && At(Patched(dex, h, sha1).value.0, m.codeOff + 16, EncodeItems(ClampAll(xs, field)))
  {
    hide EncodedFile, AllMethods, Patched, Resolve, Rewrite, EncodeItems, AllWellFormed, At;
    PatchedBodies(dex, h, sha1, cs, codes, field, m);
    RewriteItems(xs, field);
  }

  /**
   * From file to behaviour. In the patched file every method body that is closed code and
   * reads the field only by sget runs, for any number of steps in any environment, as the
   * original code units do where Build.VERSION.SDK_INT reads 35.
   */
  lemma EveryBodyRunsClamped<W(!new)>(dex: Buf, h: Header, sha1: Buf -> Buf, cs: seq<ClassDef>, codes: Codes,
      field: U32, m: Method, statics: (W, nat) -> int,
      other: (Buf, Buf, DexMeaning.State<W>) -> DexMeaning.Outcome<W>, s: DexMeaning.State<W>, steps: nat)
    requires forall b :: |sha1(b)| == 20
    requires EncodedFile(dex, h, cs, codes)
    requires m in AllMethods(cs) && m.codeOff != 0
    ensures m.codeOff in codes
    ensures Resolve(dex, h) == Ok(Some(field)) ==>
              && DenotesSdkInt(dex, h, field) && Patched(dex, h, sha1).Ok?
              && var insns, out := codes[m.codeOff].insns, Patched(dex, h, sha1).value.0;
                 m.codeOff + 16 + |insns| <= |out|
                 && (DexMeaning.Amenable(insns, field, other, s.pc) ==>
                      DexMeaning.Run(out[m.codeOff + 16..m.codeOff + 16 + |insns|], statics, other, DexMeaning.Running(s), steps)
                      == DexMeaning.Run(insns, DexMeaning.Clamped(statics, field), other, DexMeaning.Running(s), steps))
  {
    hide EncodedFile, AllMethods, Patched, Resolve, Rewrite, DenotesSdkInt, At, DexMeaning.Run, DexMeaning.Amenable, DexMeaning.Clamped;
    ResolveSound(dex, h);
    PatchedBodies(dex, h, sha1, cs, codes, field, m);
    FileSize(dex, h, cs, codes);
    var insns := codes[m.codeOff].insns;
    if Resolve(dex, h) == Ok(Some(field)) {
      Standing(Patched(dex, h, sha1).value.0, m.codeOff + 16, Rewrite(insns, 0, field));
      if DexMeaning.Amenable(insns, field, other, s.pc) {
        DexMeaning.ClosedCodeMeaningPreserved(insns, field, statics, other, s, steps);
      }
    }
  }

  // The header of x, the tables t, the classes cs and the code items, each in its place.
  predicate WholeFile(dex: Buf, x: FileHeader, h: Header, t: Tables, cs: seq<ClassDef>, codes: Codes) {
    && HeaderFits(x) && At(dex, 0, EncodeHeader(x))
    && h == Header(x.stringIdsSize, x.stringIdsOff, x.typeIdsSize, x.typeIdsOff,
                   x.fieldIdsSize, x.fieldIdsOff, x.classDefsSize, x.classDefsOff)
    && TablesAt(dex, h, t) && Distinct(t) && EncodedFile(dex, h, cs, codes)
  }

  /**
   * Main result, on a whole file written out from its parts: it parses; if no field is
   * `int Build.VERSION.SDK_INT` it is left alone, and otherwise every method's instructions
   * come out with the reads of such a field turned into the constant 35.
   */
  lemma PatchedFile(dex: Buf, x: FileHeader, h: Header, t: Tables, cs: seq<ClassDef>, codes: Codes, sha1: Buf -> Buf) returns (field: U32)
    requires forall b :: |sha1(b)| == 20
    requires WholeFile(dex, x, h, t, cs, codes)
    ensures ParseHeader(dex) == Ok(h) && |dex| >= 32 && Patched(dex, h, sha1).Ok?
    ensures (forall f :: !IsSdkInt(t, f)) ==> Patched(dex, h, sha1) == Ok((dex, PatchResult(0, 0)))
    ensures (exists f :: IsSdkInt(t, f)) ==>
              && IsSdkInt(t, field)
              && forall m, xs :: BodyIs(cs, codes, m, xs) ==>
                   At(Patched(dex, h, sha1).value.0, m.codeOff + 16, EncodeItems(ClampAll(xs, field)))
  {
    hide TablesAt, Distinct, EncodedFile, Resolve, Patched, IsSdkInt, At, EncodeHeader, BodyIs;
    HeaderParses(dex, x);
    FileSize(dex, h, cs, codes);
    ResolveOnTables(dex, h, t);
    field := 0;
    var r := Resolve(dex, h).value;
    if r == None {
      PatchedNothing(dex, h, sha1);
    } else {
      field := r.value;
      PatchedSize(dex, h, sha1, cs, codes, field);
      forall m, xs | BodyIs(cs, codes, m, xs)
        ensures At(Patched(dex, h, sha1).value.0, m.codeOff + 16, EncodeItems(ClampAll(xs, field)))
      {
        BodyPatched(dex, h, sha1, cs, codes, field, m, xs);
      }
    }
  }

  // Method m has code, and its code units are those of the items xs.
  predicate BodyIs(cs: seq<ClassDef>, codes: Codes, m: Method, xs: seq<Item>) {
    && m in AllMethods(cs) && m.codeOff != 0 && m.codeOff in codes
    && AllWellFormed(xs) && codes[m.codeOff].insns == EncodeItems(xs)
  }

  lemma BodyPatched(dex: Buf, h: Header, sha1: Buf -> Buf, cs: seq<ClassDef>, codes: Codes, field: U32, m: Method, xs: seq<Item>)
    requires forall b :: |sha1(b)| == 20
    requires EncodedFile(dex, h, cs, codes) && BodyIs(cs, codes, m, xs)
    ensures Resolve(dex, h) == Ok(Some(field)) ==>
              Patched(dex, h, sha1).Ok? && At(Patched(dex, h, sha1).value.0, m.codeOff + 16, EncodeItems(ClampAll(xs, field)))
  {
    PatchedInstructions(dex, h, sha1, cs, codes, field, m, xs);
  }

  lemma FileSize(dex: Buf, h: Header, cs: seq<ClassDef>, codes: Codes)
    requires EncodedFile(dex, h, cs, codes)
    ensures |dex| >= 32
  {
  }

  lemma PatchedNothing(dex: Buf, h: Header, sha1: Buf -> Buf)
    requires forall b :: |sha1(b)| == 20
    requires |dex| >= 32
    ensures Resolve(dex, h) == Ok(None) ==> Patched(dex, h, sha1) == Ok((dex, PatchResult(0, 0)))
  {
    hide Resolve;
  }
}
