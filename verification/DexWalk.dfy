/** Reaching every method body: class definitions, class_data items and code items. */
module DexWalk {
  import opened Bytes
  import opened DexInsns
  import Uleb128

  function ReadU16(buf: Buf, off: nat): (r: Result<U16>) {
    if off + 2 > |buf| then Err
    else FromLEBound(buf[off..off + 2]); PowersOf256(); Ok(FromLE(buf[off..off + 2]))
  }

  function ReadU32(buf: Buf, off: nat): (r: Result<U32>) {
    if off + 4 > |buf| then Err
    else FromLEBound(buf[off..off + 4]); PowersOf256(); Ok(FromLE(buf[off..off + 4]))
  }

  datatype Range = Range(lo: nat, hi: nat)

  // What a walk did: the file it leaves, the offsets it patched, the instruction ranges it
  // handed to the rewriter, and whether it reached its end.
  datatype Pass = Pass(dex: Buf, slots: seq<nat>, visited: seq<Range>, ok: bool)

  function Then(first: Pass, second: Pass): Pass {
    Pass(second.dex, first.slots + second.slots, first.visited + second.visited, second.ok)
  }

  function Shifted(slots: seq<nat>, base: nat): (r: seq<nat>)
    ensures |r| == |slots|
    ensures forall k :: 0 <= k < |slots| ==> r[k] == slots[k] + base
  {
    seq(|slots|, k requires 0 <= k < |slots| => slots[k] + base)
  }

  function RewriteRange(dex: Buf, r: Range, target: U32): (d: Buf)
    requires r.lo <= r.hi <= |dex|
    ensures |d| == |dex|
  {
    Splice(dex, r.lo, Rewrite(dex[r.lo..r.hi], 0, target))
  }

  function VisitRange(dex: Buf, r: Range, target: U32): Pass
    requires r.lo <= r.hi <= |dex|
  {
    Pass(RewriteRange(dex, r, target), Shifted(Slots(dex[r.lo..r.hi], 0, target), r.lo), [r], true)
  }

  // The four counts of a class_data item: next offset, number of fields, number of methods.
  function ClassHeader(dex: Buf, p: nat): Result<(nat, nat, nat)> {
    var (p1, staticFields) :- Uleb128.Read(dex, p);
    var (p2, instanceFields) :- Uleb128.Read(dex, p1);
    var (p3, directMethods) :- Uleb128.Read(dex, p2);
    var (p4, virtualMethods) :- Uleb128.Read(dex, p3);
    Ok((p4, staticFields + instanceFields, directMethods + virtualMethods))
  }

  function SkipFields(dex: Buf, p: nat, n: nat): Result<nat>
    decreases n
  {
    if n == 0 then Ok(p)
    else
      var (p1, _) :- Uleb128.Read(dex, p);
      var (p2, _) :- Uleb128.Read(dex, p1);
      SkipFields(dex, p2, n - 1)
  }

  // An encoded method: next offset and code_off.
  function MethodHeader(dex: Buf, p: nat): Result<(nat, U32)> {
    var (p1, _) :- Uleb128.Read(dex, p);
    var (p2, _) :- Uleb128.Read(dex, p1);
    Uleb128.Read(dex, p2)
  }

  // The instruction range of a code item, if it lies inside the file.
  function CodeRange(dex: Buf, codeOff: nat): (r: Result<Range>)
    ensures r.Ok? ==> r.value.lo == codeOff + 16 && r.value.lo <= r.value.hi <= |dex|
  {
    var size :- ReadU32(dex, codeOff + 12);
    if codeOff + 16 + 2 * size > |dex| then Err else Ok(Range(codeOff + 16, codeOff + 16 + 2 * size))
  }

  // n encoded methods from p on; a failure keeps what was already rewritten.
  function VisitMethods(dex: Buf, p: nat, n: nat, target: U32): (r: Pass)
    decreases n
  {
    if n == 0 then Pass(dex, [], [], true)
    else
      var m := MethodHeader(dex, p);
      if m == Err then Pass(dex, [], [], false)
      else
        var (np, codeOff) := m.value;
        if codeOff == 0 then VisitMethods(dex, np, n - 1, target)
        else
          var r := CodeRange(dex, codeOff);
          if r == Err then Pass(dex, [], [], false)
          else
            var here := VisitRange(dex, r.value, target);
            Then(here, VisitMethods(here.dex, np, n - 1, target))
  }

  function VisitClassData(dex: Buf, off: nat, target: U32): (r: Pass)
  {
    var sizes := ClassHeader(dex, off);
    if sizes == Err then Pass(dex, [], [], false)
    else
      var fields := SkipFields(dex, sizes.value.0, sizes.value.1);
      if fields == Err then Pass(dex, [], [], false)
      else VisitMethods(dex, fields.value, sizes.value.2, target)
  }

  // n class definitions from number i on; a class that cannot be read is skipped.
  function VisitClasses(dex: Buf, defsOff: U32, i: nat, n: nat, target: U32): (r: Pass)
    decreases n
  {
    if n == 0 then Pass(dex, [], [], true)
    else
      var data := ReadU32(dex, defsOff + 32 * i + 24);
      if data == Err || data.value == 0 then VisitClasses(dex, defsOff, i + 1, n - 1, target)
      else
        var here := VisitClassData(dex, data.value, target);
        Then(here, VisitClasses(here.dex, defsOff, i + 1, n - 1, target))
  }

  // ---- the loops ------------------------------------------------------------------

  method WalkOneClassData(dex: array<U8>, off: nat, target: U32, before: PatchResult)
    returns (out: PatchResult, ok: bool)
    modifies dex
    ensures var pass := VisitClassData(old(dex[..]), off, target);
            dex[..] == pass.dex && out == Count(before, |pass.slots|) && ok == pass.ok
  {
    hide VisitMethods, Slots, Count;
    CountTwice(before);
    var sizes := ClassHeader(dex[..], off);
    if sizes == Err {
      return before, false;
    }
    var p := sizes.value.0;
    for k := 0 to sizes.value.1
      invariant SkipFields(dex[..], sizes.value.0, sizes.value.1) ==
                SkipFields(dex[..], p, sizes.value.1 - k)
      invariant dex[..] == old(dex[..])
    {
      var idx := Uleb128.ReadUleb128(dex[..], p);
      if idx == Err {
        return before, false;
      }
      var flags := Uleb128.ReadUleb128(dex[..], idx.value.0);
      if flags == Err {
        return before, false;
      }
      p := flags.value.0;
    }
    out, ok := WalkMethods(dex, p, sizes.value.2, target, before);
  }

  lemma CountTwice(r: PatchResult)
    ensures Count(r, 0) == r
    ensures forall m: nat, n: nat :: Count(Count(r, m), n) == Count(r, m + n)
  {
  }

  method RewriteIn(dex: array<U8>, r: Range, target: U32, before: PatchResult)
    returns (out: PatchResult)
    requires r.lo <= r.hi <= dex.Length
    modifies dex
    ensures var pass := VisitRange(old(dex[..]), r, target);
            dex[..] == pass.dex && out == Count(before, |pass.slots|)
  {
    ghost var was := dex[..];
    assert was[r.lo..r.hi] == dex[r.lo..r.hi];
    out := RewriteSgetInInsns(dex, r.lo, r.hi, target, before);
  }

  method WalkMethods(dex: array<U8>, off: nat, total: nat, target: U32, before: PatchResult)
    returns (out: PatchResult, ok: bool)
    modifies dex
    ensures var pass := VisitMethods(old(dex[..]), off, total, target);
            dex[..] == pass.dex && out == Count(before, |pass.slots|) && ok == pass.ok
  {
    hide MethodHeader, CodeRange, VisitRange, Count;
    ghost var all := VisitMethods(dex[..], off, total, target);
    var p := off;
    out := before;
    for k := 0 to total
      invariant var rest := VisitMethods(dex[..], p, total - k, target);
                rest.dex == all.dex && rest.ok == all.ok
                && Count(out, |rest.slots|) == Count(before, |all.slots|)
    {
      CountTwice(out);
      var m := MethodHeader(dex[..], p);
      if m == Err {
        return out, false;
      }
      p := m.value.0;
      var codeOff := m.value.1;
      if codeOff != 0 {
        var r := CodeRange(dex[..], codeOff);
        if r == Err {
          return out, false;
        }
        out := RewriteIn(dex, r.value, target, out);
      }
    }
    CountTwice(out);
    ok := true;
  }

  method WalkCodeItems(dex: array<U8>, defsSize: U32, defsOff: U32, target: U32, before: PatchResult)
    returns (out: PatchResult)
    modifies dex
    ensures var pass := VisitClasses(old(dex[..]), defsOff, 0, defsSize, target);
            dex[..] == pass.dex && out == Count(before, |pass.slots|)
  {
    hide VisitClassData, Count;
    ghost var all := VisitClasses(dex[..], defsOff, 0, defsSize, target);
    out := before;
    for i := 0 to defsSize
      invariant var rest := VisitClasses(dex[..], defsOff, i, defsSize - i, target);
                rest.dex == all.dex && Count(out, |rest.slots|) == Count(before, |all.slots|)
    {
      CountTwice(out);
      var data := ReadU32(dex[..], defsOff + 32 * i + 24);
      if data.Ok? && data.value != 0 {
        var ok;
        out, ok := WalkOneClassData(dex, data.value, target, out);
      }
    }
    CountTwice(out);
  }

  // Whatever the first m classes hold, readable or not, the next n are walked as well.
  lemma {:induction false} ClassesSplit(dex: Buf, defsOff: U32, i: nat, m: nat, n: nat, target: U32)
    ensures var a := VisitClasses(dex, defsOff, i, m, target);
            var b := VisitClasses(a.dex, defsOff, i + m, n, target);
            VisitClasses(dex, defsOff, i, m + n, target) == Pass(b.dex, a.slots + b.slots, a.visited + b.visited, b.ok)
    decreases m
  {
    hide VisitClassData;
    if m == 0 {
      assert [] + VisitClasses(dex, defsOff, i, n, target).slots == VisitClasses(dex, defsOff, i, n, target).slots;
      assert [] + VisitClasses(dex, defsOff, i, n, target).visited == VisitClasses(dex, defsOff, i, n, target).visited;
    } else {
      var data := ReadU32(dex, defsOff + 32 * i + 24);
      if data == Err || data.value == 0 {
        ClassesSplit(dex, defsOff, i + 1, m - 1, n, target);
      } else {
        var here := VisitClassData(dex, data.value, target);
        ClassesSplit(here.dex, defsOff, i + 1, m - 1, n, target);
        var a := VisitClasses(here.dex, defsOff, i + 1, m - 1, target);
        var b := VisitClasses(a.dex, defsOff, i + m, n, target);
        Associative(here.slots, a.slots, b.slots);
        Associative(here.visited, a.visited, b.visited);
      }
    }
  }

  // ---- frame: only patched slots inside visited ranges change ----------------------

  predicate SlotIn(s: nat, ranges: seq<Range>) {
    exists r :: r in ranges && r.lo <= s && s + 4 <= r.hi
  }

  ghost predicate Framed(before: Buf, pass: Pass) {
    && |pass.dex| == |before|
    && (forall k :: 0 <= k < |before| && !InSlot(pass.slots, k) ==> pass.dex[k] == before[k])
    && (forall s :: s in pass.slots ==> SlotIn(s, pass.visited))
  }

  lemma FramedThen(before: Buf, a: Pass, b: Pass)
    requires Framed(before, a) && Framed(a.dex, b)
    ensures Framed(before, Then(a, b))
  {
    var c := Then(a, b);
    forall k | 0 <= k < |before| && !InSlot(c.slots, k) ensures c.dex[k] == before[k] {
      assert forall s :: s in a.slots || s in b.slots ==> s in c.slots;
      assert !InSlot(a.slots, k) && !InSlot(b.slots, k);
    }
    forall s | s in c.slots ensures SlotIn(s, c.visited) {
      if s in a.slots {
        var r :| r in a.visited && r.lo <= s && s + 4 <= r.hi;
        assert r in c.visited;
      } else {
        var r :| r in b.visited && r.lo <= s && s + 4 <= r.hi;
        assert r in c.visited;
      }
    }
  }

  lemma ShiftedMember(slots: seq<nat>, base: nat, s: nat)
    ensures s in Shifted(slots, base) <==> s >= base && s - base in slots
  {
    var all := Shifted(slots, base);
    if s in all {
      var j :| 0 <= j < |all| && all[j] == s;
      assert slots[j] == s - base;
    }
    if s >= base && s - base in slots {
      var j :| 0 <= j < |slots| && slots[j] == s - base;
      assert all[j] == s;
    }
  }

  lemma FramedRange(dex: Buf, r: Range, target: U32)
    requires r.lo <= r.hi <= |dex|
    ensures Framed(dex, VisitRange(dex, r, target))
  {
    hide Rewrite, Slots, Shifted;
    var pass := VisitRange(dex, r, target);
    var c := dex[r.lo..r.hi];
    var slots := Slots(c, 0, target);
    forall k | 0 <= k < |dex| && !InSlot(pass.slots, k) ensures pass.dex[k] == dex[k] {
      if r.lo <= k < r.hi {
        if InSlot(slots, k - r.lo) {
          var s :| s in slots && s <= k - r.lo < s + 4;
          ShiftedMember(slots, r.lo, s + r.lo);
        }
        RewriteOutside(c, 0, target, k - r.lo);
      }
    }
    forall s | s in pass.slots ensures SlotIn(s, pass.visited) {
      ShiftedMember(slots, r.lo, s);
      RewriteInside(c, 0, target, s - r.lo);
      assert r in pass.visited;
    }
  }

  lemma FramedNothing(dex: Buf, ok: bool)
    ensures Framed(dex, Pass(dex, [], [], ok))
  {
  }

  lemma {:induction false} MethodsFramed(dex: Buf, p: nat, n: nat, target: U32)
    ensures Framed(dex, VisitMethods(dex, p, n, target))
    decreases n
  {
    hide Framed, VisitRange, MethodHeader, CodeRange;
    FramedNothing(dex, true);
    FramedNothing(dex, false);
    if n > 0 {
      var m := MethodHeader(dex, p);
      if m.Ok? {
        var (np, codeOff) := m.value;
        var r := CodeRange(dex, codeOff);
        if codeOff == 0 {
          MethodsFramed(dex, np, n - 1, target);
        } else if r.Ok? {
          var here := VisitRange(dex, r.value, target);
          FramedRange(dex, r.value, target);
          MethodsFramed(here.dex, np, n - 1, target);
          FramedThen(dex, here, VisitMethods(here.dex, np, n - 1, target));
        }
      }
    }
  }

  lemma ClassDataFramed(dex: Buf, off: nat, target: U32)
    ensures Framed(dex, VisitClassData(dex, off, target))
  {
    hide Framed, ClassHeader, SkipFields, VisitMethods;
    FramedNothing(dex, false);
    var sizes := ClassHeader(dex, off);
    if sizes.Ok? {
      var fields := SkipFields(dex, sizes.value.0, sizes.value.1);
      if fields.Ok? {
        MethodsFramed(dex, fields.value, sizes.value.2, target);
      }
    }
  }

  // A whole-file walk changes only 4-byte slots, each inside a visited instruction range.
  lemma {:induction false} ClassesFramed(dex: Buf, defsOff: U32, i: nat, n: nat, target: U32)
    ensures Framed(dex, VisitClasses(dex, defsOff, i, n, target))
    decreases n
  {
    hide Framed, VisitClassData;
    FramedNothing(dex, true);
    if n > 0 {
      var data := ReadU32(dex, defsOff + 32 * i + 24);
      if data == Err || data.value == 0 {
        ClassesFramed(dex, defsOff, i + 1, n - 1, target);
      } else {
        var here := VisitClassData(dex, data.value, target);
        ClassDataFramed(dex, data.value, target);
        ClassesFramed(here.dex, defsOff, i + 1, n - 1, target);
        FramedThen(dex, here, VisitClasses(here.dex, defsOff, i + 1, n - 1, target));
      }
    }
  }
}
