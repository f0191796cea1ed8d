/**
 * The header and the string, type and field tables of the DEX format, written out from their
 * fields, and the resolution of `Build.VERSION.SDK_INT` on them.
 */
module DexTables {
  import opened Bytes
  import opened DexWalk
  import opened DexPatch
  import opened DexItems
  import Uleb128

  // ---- words and records read back ----------------------------------------------------------

  lemma {:induction false} WordsRead(dex: Buf, p: nat, ws: seq<U32>, k: nat)
    requires At(dex, p, Words(ws)) && k < |ws|
    ensures ReadU32(dex, p + 4 * k) == Ok(ws[k])
    decreases k
  {
    hide LE, FromLE, At, Words;
    assert Words(ws) == LE(ws[0], 4) + Words(ws[1..]) by { WordsHead(ws); }
    WordAt(dex, p, ws[0], Words(ws[1..]));
    if k > 0 {
      WordsRead(dex, p + 4, ws[1..], k - 1);
    }
  }

  lemma WordsHead(ws: seq<U32>)
    requires ws != []
    ensures Words(ws) == LE(ws[0], 4) + Words(ws[1..])
  {
  }

  // ---- the header ---------------------------------------------------------------------------------

  datatype FileHeader = FileHeader(
    version: Buf, checksum: Buf, signature: Buf,
    fileSize: U32, headerSize: U32,
    linkSize: U32, linkOff: U32, mapOff: U32,
    stringIdsSize: U32, stringIdsOff: U32, typeIdsSize: U32, typeIdsOff: U32,
    protoIdsSize: U32, protoIdsOff: U32, fieldIdsSize: U32, fieldIdsOff: U32,
    methodIdsSize: U32, methodIdsOff: U32, classDefsSize: U32, classDefsOff: U32,
    dataSize: U32, dataOff: U32)

  function HeaderWords(x: FileHeader): seq<U32> {
    [x.fileSize, x.headerSize, 0x1234_5678, x.linkSize, x.linkOff, x.mapOff,
     x.stringIdsSize, x.stringIdsOff, x.typeIdsSize, x.typeIdsOff, x.protoIdsSize, x.protoIdsOff,
     x.fieldIdsSize, x.fieldIdsOff, x.methodIdsSize, x.methodIdsOff, x.classDefsSize, x.classDefsOff,
     x.dataSize, x.dataOff]
  }

  // "dex\n", version, checksum and signature, then the words.
  function HeaderStart(x: FileHeader): Buf { [0x64, 0x65, 0x78, 0x0a] + x.version + x.checksum + x.signature }

  function EncodeHeader(x: FileHeader): Buf { HeaderStart(x) + Words(HeaderWords(x)) }

  predicate HeaderFits(x: FileHeader) { |x.version| == 4 && |x.checksum| == 4 && |x.signature| == 20 }

  /** The header is read field by field from where the format puts it. */
  lemma HeaderParses(dex: Buf, x: FileHeader)
    requires HeaderFits(x) && At(dex, 0, EncodeHeader(x))
    ensures ParseHeader(dex) == Ok(Header(x.stringIdsSize, x.stringIdsOff, x.typeIdsSize, x.typeIdsOff,
                                          x.fieldIdsSize, x.fieldIdsOff, x.classDefsSize, x.classDefsOff))
  {
    hide Words, ReadU32;
    var ws := HeaderWords(x);
    AtSplit(dex, 0, HeaderStart(x), Words(ws));
    assert dex[..4] == dex[0..32][..4] == HeaderStart(x)[..4] == [0x64, 0x65, 0x78, 0x0a];
    WordsRead(dex, 32, ws, 2);
    WordsRead(dex, 32, ws, 6);
    WordsRead(dex, 32, ws, 7);
    WordsRead(dex, 32, ws, 8);
    WordsRead(dex, 32, ws, 9);
    WordsRead(dex, 32, ws, 12);
    WordsRead(dex, 32, ws, 13);
    WordsRead(dex, 32, ws, 16);
    WordsRead(dex, 32, ws, 17);
  }

  // ---- the tables -----------------------------------------------------------------------------------

  // A string, by where its data stands, its length in UTF-16 units and its bytes.
  datatype Text = Text(dataOff: U32, units: U32, bytes: Buf)

  datatype Tables = Tables(strings: seq<Text>, types: seq<U32>, fields: seq<FieldId>)

  function DataOffs(strings: seq<Text>): (ws: seq<U32>)
    ensures |ws| == |strings|
  {
    seq(|strings|, k requires 0 <= k < |strings| => strings[k].dataOff)
  }

  function StringData(t: Text): Buf { Uleb128.Encode(t.units) + (t.bytes + [0]) }

  // class_idx, type_idx, name_idx
  function EncodeFieldId(f: FieldId): (s: Buf)
    ensures |s| == 8
  {
    LE(f.classIdx, 2) + (LE(f.typeIdx, 2) + LE(f.nameIdx, 4))
  }

  function EncodeFieldIds(fs: seq<FieldId>): Buf {
    if fs == [] then [] else EncodeFieldId(fs[0]) + EncodeFieldIds(fs[1..])
  }

  predicate TextFits(dex: Buf, t: Text) { 0 !in t.bytes && At(dex, t.dataOff, StringData(t)) }

  predicate TablesAt(dex: Buf, h: Header, t: Tables) {
    && |t.strings| == h.stringsSize && |t.types| == h.typesSize && |t.fields| == h.fieldsSize
    && At(dex, h.stringsOff, Words(DataOffs(t.strings)))
    && At(dex, h.typesOff, Words(t.types))
    && At(dex, h.fieldsOff, EncodeFieldIds(t.fields))
    && forall k :: 0 <= k < |t.strings| ==> TextFits(dex, t.strings[k])
  }

  lemma {:induction false} FieldRead(dex: Buf, p: nat, fs: seq<FieldId>, k: nat)
    requires At(dex, p, EncodeFieldIds(fs)) && k < |fs|
    ensures ReadU16(dex, p + 8 * k) == Ok(fs[k].classIdx) && ReadU16(dex, p + 8 * k + 2) == Ok(fs[k].typeIdx)
    ensures ReadU32(dex, p + 8 * k + 4) == Ok(fs[k].nameIdx)
    decreases k
  {
    hide LE, FromLE, At;
    var f, rest := fs[0], EncodeFieldIds(fs[1..]);
    AtSplit(dex, p, EncodeFieldId(f), rest);
    if k == 0 {
      HalfAt(dex, p, f.classIdx, LE(f.typeIdx, 2) + LE(f.nameIdx, 4));
      HalfAt(dex, p + 2, f.typeIdx, LE(f.nameIdx, 4));
      assert LE(f.nameIdx, 4) + [] == LE(f.nameIdx, 4);
      WordAt(dex, p + 4, f.nameIdx, []);
    } else {
      FieldRead(dex, p + 8, fs[1..], k - 1);
    }
  }

  lemma FieldIs(dex: Buf, h: Header, t: Tables, k: nat)
    requires TablesAt(dex, h, t) && k < |t.fields|
    ensures FieldAt(dex, h, k) == Ok(t.fields[k])
  {
    hide ReadU16, ReadU32, EncodeFieldIds, Words;
    FieldRead(dex, h.fieldsOff, t.fields, k);
  }

  lemma TypeStringIs(dex: Buf, h: Header, t: Tables, k: nat)
    requires TablesAt(dex, h, t) && k < |t.types|
    ensures TypeString(dex, h, k) == Ok(t.types[k])
  {
    hide ReadU32, EncodeFieldIds, Words;
    WordsRead(dex, h.typesOff, t.types, k);
  }

  lemma StringStands(dex: Buf, h: Header, t: Tables, k: nat)
    requires TablesAt(dex, h, t) && k < |t.strings|
    ensures StringStart(dex, h, k).Ok?
    ensures At(dex, StringStart(dex, h, k).value, t.strings[k].bytes + [0])
  {
    hide ReadU32, EncodeFieldIds, Words, At, Uleb128.Read, Uleb128.Encode;
    var s := t.strings[k];
    WordsRead(dex, h.stringsOff, DataOffs(t.strings), k);
    assert TextFits(dex, s);
    AtSplit(dex, s.dataOff, Uleb128.Encode(s.units), s.bytes + [0]);
    Uleb128.RoundTrip(dex, s.dataOff, s.units);
  }

  // The first zero byte from p on is the one behind the text.
  lemma ZeroEnds(dex: Buf, p: nat, a: Buf)
    requires 0 !in a && At(dex, p, a + [0])
    ensures p + |a| < |dex| && dex[p + |a|] == 0
    ensures forall k :: p <= k < p + |a| ==> dex[k] == a[k - p] && dex[k] != 0
  {
    var x := dex[p..p + |a| + 1];
    assert x == a + [0];
    forall k | p <= k < p + |a| ensures dex[k] == a[k - p] && dex[k] != 0 {
      assert x[k - p] == dex[k] && a[k - p] in a;
    }
    assert x[|a|] == dex[p + |a|];
  }

  // Two texts without zero bytes that stand at one place, each up to a zero, are equal.
  lemma FirstZero(dex: Buf, p: nat, a: Buf, b: Buf)
    requires 0 !in a && 0 !in b && At(dex, p, a + [0]) && At(dex, p, b + [0])
    ensures a == b
  {
    ZeroEnds(dex, p, a);
    ZeroEnds(dex, p, b);
    assert |a| == |b|;
    assert forall k :: 0 <= k < |a| ==> a[k] == dex[p + k] == b[k];
  }

  lemma TextAtIs(dex: Buf, start: nat, needle: Buf)
    ensures TextAt(dex, start, needle) <==> At(dex, start, needle + [0])
  {
    AtSplit(dex, start, needle, [0]);
    if start + |needle| < |dex| {
      assert dex[start + |needle|..start + |needle| + 1] == [dex[start + |needle|]];
    }
  }

  // The search compares exactly the string's bytes.
  lemma StringIsText(dex: Buf, h: Header, t: Tables, k: nat, needle: Buf)
    requires TablesAt(dex, h, t) && 0 !in needle
    ensures StringIs(dex, h, k, needle) <==> k < |t.strings| && t.strings[k].bytes == needle
  {
    hide StringStart, TextAt, At, Words, EncodeFieldIds;
    if k < |t.strings| {
      StringStands(dex, h, t, k);
      assert TextFits(dex, t.strings[k]);
      var start := StringStart(dex, h, k).value;
      TextAtIs(dex, start, needle);
      if TextAt(dex, start, needle) {
        FirstZero(dex, start, needle, t.strings[k].bytes);
      }
    }
  }

  // ---- the field -------------------------------------------------------------------------------------

  function Descriptor(t: Tables, typeIdx: nat): Option<Buf> {
    if typeIdx < |t.types| && t.types[typeIdx] < |t.strings| then Some(t.strings[t.types[typeIdx]].bytes) else None
  }

  // Field f of the tables: class, name and type spelled out.
  predicate IsSdkInt(t: Tables, f: nat) {
    && f < |t.fields| && t.fields[f].nameIdx < |t.strings|
    && Descriptor(t, t.fields[f].classIdx) == Some(Ascii("Landroid/os/Build$VERSION;"))
    && t.strings[t.fields[f].nameIdx].bytes == Ascii("SDK_INT")
    && Descriptor(t, t.fields[f].typeIdx) == Some(Ascii("I"))
  }

  lemma NoZeros(s: string)
    requires forall k :: 0 <= k < |s| ==> 0 as char < s[k] < 128 as char
    ensures 0 !in Ascii(s)
  {
  }

  lemma TypeIsText(dex: Buf, h: Header, t: Tables, k: nat, needle: Buf)
    requires TablesAt(dex, h, t) && 0 !in needle
    ensures TypeIs(dex, h, k, needle) <==> Descriptor(t, k) == Some(needle)
  {
    hide StringIs, TypeString, Words, EncodeFieldIds, TextFits;
    if k < |t.types| {
      TypeStringIs(dex, h, t, k);
      StringIsText(dex, h, t, t.types[k], needle);
    }
  }

  lemma DenotesIsSdkInt(dex: Buf, h: Header, t: Tables, f: nat)
    requires TablesAt(dex, h, t)
    ensures DenotesSdkInt(dex, h, f) <==> IsSdkInt(t, f)
  {
    hide StringIs, TypeIs, Words, EncodeFieldIds, TextFits, Descriptor, Ascii, FieldAt;
    NoZeros("Landroid/os/Build$VERSION;");
    NoZeros("SDK_INT");
    NoZeros("I");
    if f < |t.fields| {
      var id := t.fields[f];
      FieldIs(dex, h, t, f);
      TypeIsText(dex, h, t, id.classIdx, Ascii("Landroid/os/Build$VERSION;"));
      StringIsText(dex, h, t, id.nameIdx, Ascii("SDK_INT"));
      TypeIsText(dex, h, t, id.typeIdx, Ascii("I"));
    }
  }

  // No string and no type is listed twice, and type indices fit 16 bits.
  predicate Distinct(t: Tables) {
    && |t.types| <= 0x1_0000
    && (forall i, j :: 0 <= i < j < |t.strings| ==> t.strings[i].bytes != t.strings[j].bytes)
    && (forall i, j :: 0 <= i < j < |t.types| ==> t.types[i] != t.types[j])
  }

  lemma TablesAreReadable(dex: Buf, h: Header, t: Tables)
    requires TablesAt(dex, h, t) && |t.types| <= 0x1_0000
    ensures TablesReadable(dex, h)
  {
    hide StringStart, FieldAt, TypeString, Words, EncodeFieldIds, TextFits;
    forall k | 0 <= k < h.stringsSize ensures StringStart(dex, h, k).Ok? { StringStands(dex, h, t, k); }
    forall k | 0 <= k < h.typesSize ensures TypeString(dex, h, k).Ok? { TypeStringIs(dex, h, t, k); }
    forall k | 0 <= k < h.fieldsSize ensures FieldAt(dex, h, k).Ok? { FieldIs(dex, h, t, k); }
  }

  // A string begins with its table's bytes, whatever text is asked for.
  lemma SameTextSameString(dex: Buf, h: Header, t: Tables, i: nat, j: nat, s: Buf)
    requires TablesAt(dex, h, t) && Distinct(t) && StringIs(dex, h, i, s) && StringIs(dex, h, j, s)
    ensures i == j
  {
    hide StringStart, TextAt, Words, EncodeFieldIds;
    StringStands(dex, h, t, i);
    StringStands(dex, h, t, j);
    assert TextFits(dex, t.strings[i]) && TextFits(dex, t.strings[j]);
    var p, q := StringStart(dex, h, i).value, StringStart(dex, h, j).value;
    TextAtIs(dex, p, s);
    TextAtIs(dex, q, s);
    SamePrefix(dex, p, q, s + [0], t.strings[i].bytes, t.strings[j].bytes);
  }

  lemma SamePrefix(dex: Buf, p: nat, q: nat, s: Buf, a: Buf, b: Buf)
    requires At(dex, p, s) && At(dex, q, s) && |s| > 0 && s[|s| - 1] == 0
    requires 0 !in a && 0 !in b && At(dex, p, a + [0]) && At(dex, q, b + [0])
    ensures a == b
  {
    ZeroInside(dex, p, s, a);
    ZeroInside(dex, q, s, b);
    FirstZero(s, 0, a, b);
  }

  // A text up to its zero lies inside any bytes that end in a zero at the same place.
  lemma ZeroInside(dex: Buf, p: nat, s: Buf, a: Buf)
    requires At(dex, p, s) && |s| > 0 && s[|s| - 1] == 0 && 0 !in a && At(dex, p, a + [0])
    ensures At(s, 0, a + [0])
  {
    ZeroEnds(dex, p, a);
    assert s[|s| - 1] == dex[p..p + |s|][|s| - 1] == dex[p + |s| - 1];
    assert |a| < |s|;
    assert s[0..0 + |a| + 1] == dex[p..p + |s|][..|a| + 1] == dex[p..p + |a| + 1];
  }

  lemma TablesHaveNoDuplicates(dex: Buf, h: Header, t: Tables)
    requires TablesAt(dex, h, t) && Distinct(t)
    ensures NoDuplicates(dex, h)
  {
    hide StringIs, TypeString, TablesAt;
    forall i, j, s | StringIs(dex, h, i, s) && StringIs(dex, h, j, s) ensures i == j {
      SameTextSameString(dex, h, t, i, j, s);
    }
    forall i, j | 0 <= i < j < h.typesSize ensures TypeString(dex, h, i) != TypeString(dex, h, j) {
      TypesCount(dex, h, t);
      TypeStringIs(dex, h, t, i);
      TypeStringIs(dex, h, t, j);
    }
  }

  lemma TypesCount(dex: Buf, h: Header, t: Tables)
    requires TablesAt(dex, h, t)
    ensures |t.types| == h.typesSize
  {
  }

  /**
   * On tables laid out as the format says, without duplicates, the resolution finds a field
   * exactly when one has that class, name and type, and then it is such a field.
   */
  lemma ResolveOnTables(dex: Buf, h: Header, t: Tables)
    requires TablesAt(dex, h, t) && Distinct(t)
    ensures var r := Resolve(dex, h);
            && r.Ok? && (r.value.Some? <==> exists f :: IsSdkInt(t, f))
            && (r.value.Some? ==> IsSdkInt(t, r.value.value))
  {
    hide TablesAt, Resolve, TablesReadable, NoDuplicates, DenotesSdkInt, IsSdkInt;
    assert |t.types| <= 0x1_0000;
    TablesAreReadable(dex, h, t);
    TablesHaveNoDuplicates(dex, h, t);
    ResolveExact(dex, h);
    forall f: nat ensures DenotesSdkInt(dex, h, f) <==> IsSdkInt(t, f) { DenotesIsSdkInt(dex, h, t, f); }
  }
}
