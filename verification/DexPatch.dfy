/** The DEX patcher from the header down: field resolution, the walk and the checksums. */
module DexPatch {
  import opened Bytes
  import opened DexInsns
  import opened DexWalk
  import opened DexChecksum
  import Uleb128

  const DEX_MAGIC: Buf := [0x64, 0x65, 0x78, 0x0a]
  const ENDIAN_CONSTANT: U32 := 0x1234_5678

  datatype Header = Header(stringsSize: U32, stringsOff: U32, typesSize: U32, typesOff: U32,
                           fieldsSize: U32, fieldsOff: U32, classesSize: U32, classesOff: U32)

  function ParseHeader(dex: Buf): Result<Header> {
    if |dex| < 0x70 || dex[..4] != DEX_MAGIC then Err
    else
      var endian :- ReadU32(dex, 0x28);
      if endian != ENDIAN_CONSTANT then Err
      else
        var ss :- ReadU32(dex, 0x38);
        var so :- ReadU32(dex, 0x3c);
        var ts :- ReadU32(dex, 0x40);
        var to :- ReadU32(dex, 0x44);
        var fs :- ReadU32(dex, 0x50);
        var fo :- ReadU32(dex, 0x54);
        var cs :- ReadU32(dex, 0x60);
        var co :- ReadU32(dex, 0x64);
        Ok(Header(ss, so, ts, to, fs, fo, cs, co))
  }

  const SDK_INT: Buf := Ascii("SDK_INT")
  const INT_TYPE: Buf := Ascii("I")
  const BUILD_VERSION: Buf := Ascii("Landroid/os/Build$VERSION;")

  // ---- what the tables say --------------------------------------------------------------

  // First byte of string i's text, behind its length prefix.
  function StringStart(dex: Buf, h: Header, i: nat): Result<nat> {
    var dataOff :- ReadU32(dex, h.stringsOff + 4 * i);
    var (start, _) :- Uleb128.Read(dex, dataOff);
    Ok(start)
  }

  // The zero-terminated text at `start` is `needle`.
  predicate TextAt(dex: Buf, start: nat, needle: Buf) {
    At(dex, start, needle) && start + |needle| < |dex| && dex[start + |needle|] == 0
  }

  predicate StringIs(dex: Buf, h: Header, i: nat, needle: Buf) {
    var start := StringStart(dex, h, i);
    i < h.stringsSize && start.Ok? && TextAt(dex, start.value, needle)
  }

  function TypeString(dex: Buf, h: Header, i: nat): Result<U32> {
    ReadU32(dex, h.typesOff + 4 * i)
  }

  datatype FieldId = FieldId(classIdx: U16, typeIdx: U16, nameIdx: U32)

  function FieldAt(dex: Buf, h: Header, i: nat): Result<FieldId> {
    var c :- ReadU16(dex, h.fieldsOff + 8 * i);
    var t :- ReadU16(dex, h.fieldsOff + 8 * i + 2);
    var n :- ReadU32(dex, h.fieldsOff + 8 * i + 4);
    Ok(FieldId(c, t, n))
  }

  // Type i is described by a string equal to `needle`.
  predicate TypeIs(dex: Buf, h: Header, i: nat, needle: Buf) {
    i < h.typesSize && TypeString(dex, h, i).Ok? && StringIs(dex, h, TypeString(dex, h, i).value, needle)
  }

  // Field f is `int Build.VERSION.SDK_INT`.
  predicate DenotesSdkInt(dex: Buf, h: Header, f: nat) {
    && f < h.fieldsSize && FieldAt(dex, h, f).Ok?
    && TypeIs(dex, h, FieldAt(dex, h, f).value.classIdx, BUILD_VERSION)
    && StringIs(dex, h, FieldAt(dex, h, f).value.nameIdx, SDK_INT)
    && TypeIs(dex, h, FieldAt(dex, h, f).value.typeIdx, INT_TYPE)
  }

  // ---- the searches -----------------------------------------------------------------------

  // First table entry from i on that `hit` accepts; an entry that cannot be read ends the
  // search with an error.
  function FindFrom(hit: nat -> Result<bool>, i: nat, n: nat): (r: Result<Option<nat>>)
    ensures r.Ok? && r.value.Some? ==> i <= r.value.value < n && hit(r.value.value) == Ok(true)
    ensures r.Ok? ==>
      forall k :: i <= k < (if r.value.Some? then r.value.value else n) ==> hit(k) == Ok(false)
    decreases n - i
  {
    if i >= n then Ok(None)
    else
      var found :- hit(i);
      if found then Ok(Some(i)) else FindFrom(hit, i + 1, n)
  }

  function StringHit(dex: Buf, h: Header, needle: Buf): nat -> Result<bool> {
    (i: nat) => var start := StringStart(dex, h, i);
         if start == Err then Err else Ok(TextAt(dex, start.value, needle))
  }

  function TypeHit(dex: Buf, h: Header, stringIdx: nat): nat -> Result<bool> {
    (i: nat) => var s := TypeString(dex, h, i); if s == Err then Err else Ok(s.value == stringIdx)
  }

  function FieldHit(dex: Buf, h: Header, classIdx: nat, nameIdx: nat, typeIdx: nat): nat -> Result<bool> {
    (i: nat) => var f := FieldAt(dex, h, i);
         if f == Err then Err
         else Ok(f.value.classIdx == classIdx && f.value.typeIdx == typeIdx && f.value.nameIdx == nameIdx)
  }

  method Find(hit: nat -> Result<bool>, n: nat) returns (r: Result<Option<nat>>)
    ensures r == FindFrom(hit, 0, n)
  {
    for i := 0 to n
      invariant FindFrom(hit, 0, n) == FindFrom(hit, i, n)
    {
      var found := hit(i);
      if found == Err {
        return Err;
      }
      if found.value {
        return Ok(Some(i));
      }
    }
    return Ok(None);
  }

  function FindString(dex: Buf, h: Header, needle: Buf): Result<Option<nat>> {
    FindFrom(StringHit(dex, h, needle), 0, h.stringsSize)
  }

  function FindType(dex: Buf, h: Header, stringIdx: nat): Result<Option<nat>> {
    FindFrom(TypeHit(dex, h, stringIdx), 0, h.typesSize)
  }

  function FindField(dex: Buf, h: Header, classIdx: nat, nameIdx: nat, typeIdx: nat): Result<Option<nat>> {
    if classIdx > 0xFFFF || typeIdx > 0xFFFF then Err
    else FindFrom(FieldHit(dex, h, classIdx, nameIdx, typeIdx), 0, h.fieldsSize)
  }

  // The whole chain; each search that finds nothing ends it with None.
  function Resolve(dex: Buf, h: Header): (r: Result<Option<nat>>)
    ensures r.Ok? && r.value.Some? ==> r.value.value < h.fieldsSize
  {
    var name :- FindString(dex, h, SDK_INT);
    if name == None then Ok(None) else
    var intName :- FindString(dex, h, INT_TYPE);
    if intName == None then Ok(None) else
    var className :- FindString(dex, h, BUILD_VERSION);
    if className == None then Ok(None) else
    var intType :- FindType(dex, h, intName.value);
    if intType == None then Ok(None) else
    var classType :- FindType(dex, h, className.value);
    if classType == None then Ok(None) else
    FindField(dex, h, classType.value, name.value, intType.value)
  }

  // ---- soundness and completeness of the resolution ------------------------------------------

  // Whatever index is returned denotes the field.
  lemma ResolveSound(dex: Buf, h: Header)
    ensures var r := Resolve(dex, h);
            r.Ok? && r.value.Some? ==> DenotesSdkInt(dex, h, r.value.value)
  {
    hide StringStart, TextAt, FieldAt, TypeString;
  }

  // Tables are in bounds and name every type index by 16 bits.
  predicate TablesReadable(dex: Buf, h: Header) {
    && (forall i :: 0 <= i < h.stringsSize ==> StringStart(dex, h, i).Ok?)
    && (forall i :: 0 <= i < h.typesSize ==> TypeString(dex, h, i).Ok?)
    && (forall i :: 0 <= i < h.fieldsSize ==> FieldAt(dex, h, i).Ok?)
    && h.typesSize <= 0x1_0000
  }

  // No text and no type descriptor is listed twice.
  ghost predicate NoDuplicates(dex: Buf, h: Header) {
    && (forall i, j, s :: StringIs(dex, h, i, s) && StringIs(dex, h, j, s) ==> i == j)
    && (forall i, j ::
          0 <= i < j < h.typesSize ==> TypeString(dex, h, i) != TypeString(dex, h, j))
  }

  lemma FindTotal(hit: nat -> Result<bool>, i: nat, n: nat)
    requires forall k :: i <= k < n ==> hit(k).Ok?
    ensures FindFrom(hit, i, n).Ok?
    decreases n - i
  {
  }

  lemma FindStringComplete(dex: Buf, h: Header, needle: Buf, i: nat)
    requires TablesReadable(dex, h) && NoDuplicates(dex, h) && StringIs(dex, h, i, needle)
    ensures FindString(dex, h, needle) == Ok(Some(i))
  {
    hide StringStart, TextAt;
    var hit := StringHit(dex, h, needle);
    FindTotal(hit, 0, h.stringsSize);
    var r := FindString(dex, h, needle);
    assert hit(i) == Ok(true);
    assert StringIs(dex, h, r.value.value, needle);
  }

  lemma FindTypeComplete(dex: Buf, h: Header, s: nat, i: nat)
    requires TablesReadable(dex, h) && NoDuplicates(dex, h)
    requires i < h.typesSize && TypeString(dex, h, i) == Ok(s)
    ensures FindType(dex, h, s) == Ok(Some(i))
  {
    hide TypeString, StringIs;
    var hit := TypeHit(dex, h, s);
    FindTotal(hit, 0, h.typesSize);
    assert hit(i) == Ok(true);
    var r := FindType(dex, h, s);
    assert TypeString(dex, h, r.value.value) == Ok(s);
  }

  // On readable tables without duplicates the chain finds an index exactly when some field
  // denotes SDK_INT, and then that index denotes it; otherwise it ends with None.
  lemma ResolveExact(dex: Buf, h: Header)
    requires TablesReadable(dex, h) && NoDuplicates(dex, h)
    ensures var r := Resolve(dex, h);
            && r.Ok?
            && (r.value.Some? <==> exists f :: DenotesSdkInt(dex, h, f))
            && (r.value.Some? ==> DenotesSdkInt(dex, h, r.value.value))
  {
    hide StringStart, TextAt, FieldAt, TypeString, StringIs, Resolve, NoDuplicates, TablesReadable;
    ResolveSound(dex, h);
    ResolveTotal(dex, h);
    if f: nat :| DenotesSdkInt(dex, h, f) {
      var id := FieldAt(dex, h, f).value;
      ResolveFinds(dex, h, f, id, TypeString(dex, h, id.classIdx).value, TypeString(dex, h, id.typeIdx).value);
    }
  }

  // The three strings, the two types and the field are where the searches look for them.
  lemma ResolveFinds(dex: Buf, h: Header, f: nat, id: FieldId, className: U32, intName: U32)
    requires TablesReadable(dex, h) && NoDuplicates(dex, h)
    requires f < h.fieldsSize && FieldAt(dex, h, f) == Ok(id)
    requires id.classIdx < h.typesSize && TypeString(dex, h, id.classIdx) == Ok(className)
    requires id.typeIdx < h.typesSize && TypeString(dex, h, id.typeIdx) == Ok(intName)
    ensures StringIs(dex, h, id.nameIdx, SDK_INT) && StringIs(dex, h, intName, INT_TYPE)
            && StringIs(dex, h, className, BUILD_VERSION)
            ==> Resolve(dex, h).Ok? && Resolve(dex, h).value.Some?
  {
    hide StringStart, TextAt, FieldAt, TypeString, StringIs, FindString, FindType, NoDuplicates;
    if StringIs(dex, h, id.nameIdx, SDK_INT) && StringIs(dex, h, intName, INT_TYPE)
       && StringIs(dex, h, className, BUILD_VERSION)
    {
      FindStringComplete(dex, h, SDK_INT, id.nameIdx);
      FindStringComplete(dex, h, INT_TYPE, intName);
      FindStringComplete(dex, h, BUILD_VERSION, className);
      FindTypeComplete(dex, h, intName, id.typeIdx);
      FindTypeComplete(dex, h, className, id.classIdx);
      var hit := FieldHit(dex, h, id.classIdx, id.nameIdx, id.typeIdx);
      FindTotal(hit, 0, h.fieldsSize);
      assert hit(f) == Ok(true);
    }
  }

  lemma ResolveTotal(dex: Buf, h: Header)
    requires TablesReadable(dex, h)
    ensures Resolve(dex, h).Ok?
  {
    hide StringStart, TextAt, FieldAt, TypeString;
    FindTotal(StringHit(dex, h, SDK_INT), 0, h.stringsSize);
    FindTotal(StringHit(dex, h, INT_TYPE), 0, h.stringsSize);
    FindTotal(StringHit(dex, h, BUILD_VERSION), 0, h.stringsSize);
    forall s: nat ensures FindType(dex, h, s).Ok? {
      FindTotal(TypeHit(dex, h, s), 0, h.typesSize);
    }
    forall c: nat, n: nat, t: nat | c < h.typesSize && t < h.typesSize
      ensures FindField(dex, h, c, n, t).Ok?
    {
      FindTotal(FieldHit(dex, h, c, n, t), 0, h.fieldsSize);
    }
  }

  // ---- the whole patcher ------------------------------------------------------------------------

  function Walked(dex: Buf, h: Header, field: U32): Pass {
    VisitClasses(dex, h.classesOff, 0, h.classesSize, field)
  }

  // The file a successful patch leaves, and its report.
  function Patched(dex: Buf, h: Header, sha1: Buf -> Buf): (r: Result<(Buf, PatchResult)>)
    requires forall b :: |sha1(b)| == 20
    requires |dex| >= 32
  {
    var field :- Resolve(dex, h);
    if field == None then Ok((dex, PatchResult(0, 0)))
    else
      var pass := Walked(dex, h, field.value);
      ClassesFramed(dex, h.classesOff, 0, h.classesSize, field.value);
      Ok((if pass.slots == [] then pass.dex else Sealed(pass.dex, sha1), Count(PatchResult(0, 0), |pass.slots|)))
  }

  method PatchDex(dex: array<U8>, sha1: Buf -> Buf) returns (r: Result<PatchResult>)
    requires forall b :: |sha1(b)| == 20
    modifies dex
    ensures var was := old(dex[..]);
            var h := ParseHeader(was);
            if h == Err || Patched(was, h.value, sha1) == Err then r == Err && dex[..] == was
            else r == Ok(Patched(was, h.value, sha1).value.1) && dex[..] == Patched(was, h.value, sha1).value.0
  {
    var header := ParseHeader(dex[..]);
    if header == Err {
      return Err;
    }
    var h := header.value;
    var field := ResolveField(dex[..], h);
    if field == Err {
      return Err;
    }
    if field.value == None {
      return Ok(PatchResult(0, 0));
    }
    ghost var pass := Walked(dex[..], h, field.value.value);
    ClassesFramed(dex[..], h.classesOff, 0, h.classesSize, field.value.value);
    var result := WalkCodeItems(dex, h.classesSize, h.classesOff, field.value.value, PatchResult(0, 0));
    if result.patches > 0 {
      var ok := RecomputeHeaderChecksums(dex, sha1);
    }
    return Ok(result);
  }

  method ResolveField(dex: Buf, h: Header) returns (r: Result<Option<nat>>)
    ensures r == Resolve(dex, h)
  {
    var name := Find(StringHit(dex, h, SDK_INT), h.stringsSize);
    if name == Err || name.value == None { return name; }
    var intName := Find(StringHit(dex, h, INT_TYPE), h.stringsSize);
    if intName == Err || intName.value == None { return intName; }
    var className := Find(StringHit(dex, h, BUILD_VERSION), h.stringsSize);
    if className == Err || className.value == None { return className; }
    var intType := Find(TypeHit(dex, h, intName.value.value), h.typesSize);
    if intType == Err || intType.value == None { return intType; }
    var classType := Find(TypeHit(dex, h, className.value.value), h.typesSize);
    if classType == Err || classType.value == None { return classType; }
    if classType.value.value > 0xFFFF || intType.value.value > 0xFFFF { return Err; }
    r := Find(FieldHit(dex, h, classType.value.value, name.value.value, intType.value.value), h.fieldsSize);
  }

  // ---- main result ------------------------------------------------------------------------------

  // Outside bytes 8..32 only patched 4-byte slots changed, each inside an instruction range
  // that was visited.
  ghost predicate OnlySlotsChanged(dex: Buf, out: Buf, pass: Pass) {
    && |out| == |dex|
    && (forall s :: s in pass.slots ==> SlotIn(s, pass.visited))
    && (forall k :: 0 <= k < |dex| && !(8 <= k < 32) && !InSlot(pass.slots, k) ==> out[k] == dex[k])
  }

  // Sealing touches bytes 8..32 only.
  lemma SealedFrame(dex: Buf, pass: Pass, sha1: Buf -> Buf)
    requires Framed(dex, pass) && |dex| >= 32 && |sha1(pass.dex[32..])| == 20
    ensures OnlySlotsChanged(dex, Sealed(pass.dex, sha1), pass)
  {
    hide Sealed, ChecksumsHold;
    var out := Sealed(pass.dex, sha1);
    SealedIsConsistent(pass.dex, sha1);
    forall k | 0 <= k < |dex| && !(8 <= k < 32) && !InSlot(pass.slots, k) ensures out[k] == dex[k] {
      if k < 8 {
        assert out[..8][k] == pass.dex[..8][k];
      } else {
        assert out[32..][k - 32] == pass.dex[32..][k - 32];
      }
    }
  }

  // A walk without patches leaves the file as it is.
  lemma NoSlotsNoChange(dex: Buf, pass: Pass)
    requires Framed(dex, pass) && pass.slots == []
    ensures pass.dex == dex
  {
    assert forall k :: 0 <= k < |dex| ==> !InSlot(pass.slots, k);
  }

  // The report, and the file when nothing was found to patch.
  lemma PatchedReport(dex: Buf, h: Header, sha1: Buf -> Buf)
    requires forall b :: |sha1(b)| == 20
    requires |dex| >= 32 && Patched(dex, h, sha1).Ok?
    ensures var (out, report) := Patched(dex, h, sha1).value;
            report.bytesRewritten == 4 * report.patches && (report.patches == 0 ==> out == dex)
  {
    hide Resolve, VisitClasses, Sealed, Framed;
    var field := Resolve(dex, h).value;
    if field.Some? {
      ClassesFramed(dex, h.classesOff, 0, h.classesSize, field.value);
      if Walked(dex, h, field.value).slots == [] {
        NoSlotsNoChange(dex, Walked(dex, h, field.value));
      }
    }
  }

  // With patches, exactly the slots of the walk changed.
  lemma PatchedFrame(dex: Buf, h: Header, sha1: Buf -> Buf)
    requires forall b :: |sha1(b)| == 20
    requires |dex| >= 32 && Patched(dex, h, sha1).Ok?
    ensures var (out, report) := Patched(dex, h, sha1).value;
            report.patches > 0 ==>
              && Resolve(dex, h).value.Some?
              && report.patches == |Walked(dex, h, Resolve(dex, h).value.value).slots|
              && OnlySlotsChanged(dex, out, Walked(dex, h, Resolve(dex, h).value.value))
  {
    hide Resolve, VisitClasses, Sealed, Framed, OnlySlotsChanged;
    var field := Resolve(dex, h).value;
    if field.Some? {
      ClassesFramed(dex, h.classesOff, 0, h.classesSize, field.value);
      FramedSize(dex, Walked(dex, h, field.value));
      SealedFrame(dex, Walked(dex, h, field.value), sha1);
    }
  }

  lemma FramedSize(dex: Buf, pass: Pass)
    requires Framed(dex, pass)
    ensures |pass.dex| == |dex|
  {
  }

  // With patches the field is the one asked for, and both checksums hold.
  lemma PatchedIsSealed(dex: Buf, h: Header, sha1: Buf -> Buf)
    requires forall b :: |sha1(b)| == 20
    requires |dex| >= 32 && Patched(dex, h, sha1).Ok?
    ensures var (out, report) := Patched(dex, h, sha1).value;
            report.patches > 0 ==>
              && ChecksumsHold(out, sha1)
              && Resolve(dex, h).value.Some? && DenotesSdkInt(dex, h, Resolve(dex, h).value.value)
  {
    hide Resolve, VisitClasses, Sealed, DenotesSdkInt, Framed;
    ResolveSound(dex, h);
    var field := Resolve(dex, h).value;
    if field.Some? {
      ClassesFramed(dex, h.classesOff, 0, h.classesSize, field.value);
      FramedSize(dex, Walked(dex, h, field.value));
      SealedIsConsistent(Walked(dex, h, field.value).dex, sha1);
    }
  }
}
