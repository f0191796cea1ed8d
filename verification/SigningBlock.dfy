/**
 * The byte layouts of the APK Signature Scheme v2: length-prefixed sequences and the APK
 * Signing Block, as the signer writes them and as a verifier reads them back.
 */
module SigningBlock {
  import opened Bytes

  const MAGIC: Buf := [0x41, 0x50, 0x4b, 0x20, 0x53, 0x69, 0x67, 0x20,
                       0x42, 0x6c, 0x6f, 0x63, 0x6b, 0x20, 0x34, 0x32]
  const V2_BLOCK_ID: U32 := 0x7109_871a
  const VERITY_PADDING_BLOCK_ID: U32 := 0x4272_6577
  const PAGE: nat := 4096

  // ---- length-prefixed sequences ---------------------------------------------------

  function Lp(e: Buf): Buf { LE(|e|, 4) + e }

  function EncodeLp(es: seq<Buf>): Buf {
    if es == [] then [] else Lp(es[0]) + EncodeLp(es[1..])
  }

  // The verifier's reading of a whole buffer as length-prefixed elements.
  function DecodeLp(b: Buf): (r: Result<seq<Buf>>) {
    if b == [] then Ok([])
    else if |b| < 4 then Err
    else
      var n := FromLE(b[..4]);
      if 4 + n > |b| then Err
      else
        var rest :- DecodeLp(b[4 + n..]);
        Ok([b[4..4 + n]] + rest)
  }

  datatype IdBytes = IdBytes(id: U32, bytes: Buf)

  function PairElement(p: IdBytes): Buf { LE(p.id, 4) + Lp(p.bytes) }

  // [u32: 8 + len][u32: id][u32: len][bytes] for every pair.
  function EncodeLpPairs(ps: seq<IdBytes>): Buf {
    if ps == [] then []
    else LE(8 + |ps[0].bytes|, 4) + (LE(ps[0].id, 4) + (LE(|ps[0].bytes|, 4) + ps[0].bytes)) + EncodeLpPairs(ps[1..])
  }

  function DecodePairElement(e: Buf): Result<IdBytes> {
    if |e| < 4 then Err
    else
      var parts :- DecodeLp(e[4..]);
      FromLEBound(e[..4]); PowersOf256();
      if |parts| != 1 then Err else Ok(IdBytes(FromLE(e[..4]), parts[0]))
  }

  method EncodeLpElements(es: seq<Buf>) returns (out: Buf)
    ensures out == EncodeLp(es)
  {
    out := [];
    for k := 0 to |es|
      invariant EncodeLp(es) == out + EncodeLp(es[k..])
    {
      assert es[k..][1..] == es[k + 1..];
      Associative(out, Lp(es[k]), EncodeLp(es[k + 1..]));
      out := out + LE(|es[k]|, 4);
      Associative(out[..|out| - 4], LE(|es[k]|, 4), es[k]);
      out := out + es[k];
    }
    assert out + [] == out;
  }

  method EncodeLpIntLpBytesPairs(ps: seq<IdBytes>) returns (out: Buf)
    ensures out == EncodeLpPairs(ps)
  {
    out := [];
    for k := 0 to |ps|
      invariant EncodeLpPairs(ps) == out + EncodeLpPairs(ps[k..])
    {
      assert ps[k..][1..] == ps[k + 1..];
      var b := ps[k].bytes;
      var entry := LE(8 + |b|, 4) + (LE(ps[k].id, 4) + (LE(|b|, 4) + b));
      Associative(out, entry, EncodeLpPairs(ps[k + 1..]));
      out := out + entry;
    }
    assert out + [] == out;
  }

  lemma DecodeLpStep(e: Buf, rest: Buf)
    requires |e| < 0x1_0000_0000
    ensures DecodeLp(Lp(e) + rest) ==
            if DecodeLp(rest) == Err then Err else Ok([e] + DecodeLp(rest).value)
  {
    var b := Lp(e) + rest;
    PowersOf256();
    LERoundTrip(|e|, 4);
    assert b[..4] == LE(|e|, 4);
    assert b[4..4 + |e|] == e && b[4 + |e|..] == rest;
  }

  // Reading back a sequence of length-prefixed elements.
  lemma {:induction false} LpRoundTrip(es: seq<Buf>)
    requires forall k :: 0 <= k < |es| ==> |es[k]| < 0x1_0000_0000
    ensures DecodeLp(EncodeLp(es)) == Ok(es)
  {
    if es != [] {
      LpRoundTrip(es[1..]);
      DecodeLpStep(es[0], EncodeLp(es[1..]));
      assert [es[0]] + es[1..] == es;
    }
  }

  // A sequence of id-and-bytes pairs is a length-prefixed sequence of pair elements.
  lemma {:induction false} PairsAreElements(ps: seq<IdBytes>)
    ensures EncodeLpPairs(ps) == EncodeLp(seq(|ps|, k requires 0 <= k < |ps| => PairElement(ps[k])))
  {
    var es := seq(|ps|, k requires 0 <= k < |ps| => PairElement(ps[k]));
    if ps != [] {
      PairsAreElements(ps[1..]);
      var tail := ps[1..];
      assert es[1..] == seq(|tail|, k requires 0 <= k < |tail| => PairElement(tail[k]));
    }
  }

  lemma PairElementRoundTrip(p: IdBytes)
    requires |p.bytes| < 0x1_0000_0000
    ensures DecodePairElement(PairElement(p)) == Ok(p)
  {
    var e := PairElement(p);
    PowersOf256();
    LERoundTrip(p.id, 4);
    assert e[..4] == LE(p.id, 4) && e[4..] == Lp(p.bytes);
    DecodeLpStep(p.bytes, []);
    assert Lp(p.bytes) + [] == Lp(p.bytes);
  }

  // ---- the APK Signing Block ----------------------------------------------------------

  // [u64: 4 + len][u32: id][value]
  function BlockEntry(p: IdBytes): (e: Buf)
    ensures |e| == 12 + |p.bytes|
  {
    LE(4 + |p.bytes|, 8) + (LE(p.id, 4) + p.bytes)
  }

  function BlockEntries(ps: seq<IdBytes>): Buf {
    if ps == [] then [] else BlockEntry(ps[0]) + BlockEntries(ps[1..])
  }

  // Bytes of padding after `total` bytes: none on a page boundary, otherwise enough for an
  // entry of at least 12 bytes.
  function PaddingAfter(total: nat): (n: nat)
    ensures (total + n) % PAGE == 0
    ensures n == 0 || n >= 12
  {
    if total % PAGE == 0 then 0
    else
      var n := PAGE - total % PAGE;
      if n < 12 then n + PAGE else n
  }

  function Zeros(n: nat): (z: Buf)
    ensures |z| == n
  {
    seq(n, _ => 0)
  }

  // The pairs as written: the given ones, then at most one verity-padding pair.
  function Padded(ps: seq<IdBytes>): seq<IdBytes> {
    var n := PaddingAfter(32 + |BlockEntries(ps)|);
    if n == 0 then ps else ps + [IdBytes(VERITY_PADDING_BLOCK_ID, Zeros(n - 12))]
  }

  function Block(ps: seq<IdBytes>): Buf {
    var entries := BlockEntries(Padded(ps));
    var size := LE(24 + |entries|, 8);
    size + (entries + (size + MAGIC))
  }

  lemma {:induction false} BlockEntriesAppend(xs: seq<IdBytes>, ys: seq<IdBytes>)
    ensures BlockEntries(xs + ys) == BlockEntries(xs) + BlockEntries(ys)
  {
    if xs == [] {
      assert xs + ys == ys;
    } else {
      BlockEntriesAppend(xs[1..], ys);
      assert (xs + ys)[1..] == xs[1..] + ys;
      Associative(BlockEntry(xs[0]), BlockEntries(xs[1..]), BlockEntries(ys));
    }
  }

  lemma PaddedEntries(ps: seq<IdBytes>)
    ensures var n := PaddingAfter(32 + |BlockEntries(ps)|);
            BlockEntries(Padded(ps)) == BlockEntries(ps) +
              (if n == 0 then [] else LE(n - 8, 8) + (LE(VERITY_PADDING_BLOCK_ID, 4) + Zeros(n - 12)))
  {
    hide LE, PaddingAfter, Zeros, BlockEntries;
    var n := PaddingAfter(32 + |BlockEntries(ps)|);
    if n == 0 {
      assert BlockEntries(ps) + [] == BlockEntries(ps);
    } else {
      var pad := IdBytes(VERITY_PADDING_BLOCK_ID, Zeros(n - 12));
      BlockEntriesAppend(ps, [pad]);
      OneEntry(pad);
    }
  }

  lemma OneEntry(p: IdBytes)
    ensures BlockEntries([p]) == BlockEntry(p)
  {
    assert [p][1..] == [];
    assert BlockEntry(p) + [] == BlockEntry(p);
  }

  lemma BlockEntriesStep(ps: seq<IdBytes>, k: nat)
    requires k < |ps|
    ensures BlockEntries(ps[k..]) == BlockEntry(ps[k]) + BlockEntries(ps[k + 1..])
  {
    assert ps[k..][1..] == ps[k + 1..];
  }

  method EntriesSize(ps: seq<IdBytes>) returns (n: nat)
    ensures n == |BlockEntries(ps)|
  {
    hide BlockEntry;
    n := 0;
    assert ps[0..] == ps;
    for k := 0 to |ps|
      invariant n + |BlockEntries(ps[k..])| == |BlockEntries(ps)|
    {
      BlockEntriesStep(ps, k);
      n := n + 8 + 4 + |ps[k].bytes|;
    }
  }

  method WriteEntries(ps: seq<IdBytes>, front: Buf) returns (out: Buf)
    ensures out == front + BlockEntries(ps)
  {
    hide BlockEntries, LE;
    out := front;
    assert ps[0..] == ps;
    for k := 0 to |ps|
      invariant out + BlockEntries(ps[k..]) == front + BlockEntries(ps)
    {
      BlockEntriesStep(ps, k);
      Associative(out, BlockEntry(ps[k]), BlockEntries(ps[k + 1..]));
      out := out + (LE(4 + |ps[k].bytes|, 8) + (LE(ps[k].id, 4) + ps[k].bytes));
    }
    NoEntries();
    assert ps[|ps|..] == [] && out + [] == out;
  }

  lemma NoEntries()
    ensures BlockEntries([]) == []
  {
  }

  method BuildSigningBlock(ps: seq<IdBytes>) returns (out: Buf)
    ensures out == Block(ps)
  {
    hide BlockEntries, LE, Zeros;
    var blocksSize := EntriesSize(ps);
    var total := 8 + 8 + 16 + blocksSize;
    var paddingPair: Buf := [];
    if total % PAGE != 0 {
      var padding := PAGE - total % PAGE;
      if padding < 12 {
        padding := padding + PAGE;
      }
      paddingPair := LE(padding - 8, 8) + (LE(VERITY_PADDING_BLOCK_ID, 4) + Zeros(padding - 8 - 4));
      total := total + padding;
    }
    PaddedEntries(ps);
    var outerSize := LE(total - 8, 8);
    out := WriteEntries(ps, outerSize);
    ghost var entries := BlockEntries(ps);
    Associative(outerSize, entries, paddingPair);
    out := out + paddingPair;
    Associative(outerSize, entries + paddingPair, outerSize + MAGIC);
    Associative(out, outerSize, MAGIC);
    out := out + outerSize + MAGIC;
  }

  // ---- the verifier's reading of the block ------------------------------------------------

  function ParseEntries(b: Buf): (r: Result<seq<IdBytes>>) {
    if b == [] then Ok([])
    else if |b| < 12 then Err
    else
      var n := FromLE(b[..8]);
      if n < 4 || 8 + n > |b| then Err
      else
        FromLEBound(b[8..12]); PowersOf256();
        var rest :- ParseEntries(b[8 + n..]);
        Ok([IdBytes(FromLE(b[8..12]), b[12..8 + n])] + rest)
  }

  lemma MagicIs()
    ensures Ascii("APK Sig Block 42") == MAGIC
  {
  }

  datatype Located = Located(start: nat, pairs: seq<IdBytes>)

  // Walk back from the central directory: magic, size, matching size in front, entries.
  function LocateBlock(apk: Buf, cdOffset: nat): Result<Located>
    requires cdOffset <= |apk|
  {
    if cdOffset < 32 || apk[cdOffset - 16..cdOffset] != Ascii("APK Sig Block 42") then Err
    else
      var size := FromLE(apk[cdOffset - 24..cdOffset - 16]);
      if size < 24 || size + 8 > cdOffset then Err
      else
        var start := cdOffset - size - 8;
        if FromLE(apk[start..start + 8]) != size then Err
        else
          var pairs :- ParseEntries(apk[start + 8..cdOffset - 24]);
          Ok(Located(start, pairs))
  }

  predicate SizesFit(ps: seq<IdBytes>) { |BlockEntries(ps)| < 0x1_0000_0000 }

  lemma ParseEntriesStep(p: IdBytes, rest: Buf)
    requires |p.bytes| < 0x1_0000_0000
    ensures ParseEntries(BlockEntry(p) + rest) ==
            if ParseEntries(rest) == Err then Err else Ok([p] + ParseEntries(rest).value)
  {
    var b := BlockEntry(p) + rest;
    var n := 4 + |p.bytes|;
    PowersOf256();
    LERoundTrip(n, 8);
    LERoundTrip(p.id, 4);
    assert b[..8] == LE(n, 8) && b[8..12] == LE(p.id, 4);
    assert b[12..8 + n] == p.bytes && b[8 + n..] == rest;
  }

  // Main result: a whole number of pages, both size fields equal to the length minus 8, and
  // the given pairs followed by at most one verity-padding pair of at least 12 bytes.
  lemma BlockLayout(ps: seq<IdBytes>)
    requires SizesFit(ps)
    ensures var b := Block(ps);
            && |b| % 4096 == 0 && 32 <= |b| < 0x1_0000_2000
            && FromLE(b[..8]) == |b| - 8 && FromLE(b[|b| - 24..|b| - 16]) == |b| - 8
            && b[|b| - 16..] == MAGIC
            && ParseEntries(b[8..|b| - 24]) == Ok(Padded(ps))
    ensures Padded(ps) == ps || (|Padded(ps)| == |ps| + 1 && Padded(ps)[..|ps|] == ps
                                 && Padded(ps)[|ps|].id == 0x4272_6577
                                 && (forall z :: z in Padded(ps)[|ps|].bytes ==> z == 0)
                                 && |BlockEntry(Padded(ps)[|ps|])| >= 12)
  {
    PaddingIsZero(ps);
    hide LE, FromLE, ParseEntries, BlockEntries, Zeros;
    var entries := BlockEntries(Padded(ps));
    var size := LE(24 + |entries|, 8);
    var b := Block(ps);
    EntriesFit(ps);
    assert |b| == 32 + |entries|;
    PowersOf256();
    LERoundTrip(24 + |entries|, 8);
    assert b[..8] == size && b[|b| - 24..|b| - 16] == size;
    assert b[|b| - 16..] == MAGIC && b[8..|b| - 24] == entries;
    EntriesRoundTripPadded(ps);
  }

  lemma PaddingIsZero(ps: seq<IdBytes>)
    ensures |Padded(ps)| > |ps| ==> forall z :: z in Padded(ps)[|ps|].bytes ==> z == 0
  {
  }

  lemma EntriesFit(ps: seq<IdBytes>)
    ensures |BlockEntries(Padded(ps))| == |BlockEntries(ps)| + PaddingAfter(32 + |BlockEntries(ps)|)
    ensures PaddingAfter(32 + |BlockEntries(ps)|) < PAGE + 12
  {
    PaddedEntries(ps);
  }

  lemma EntriesRoundTripPadded(ps: seq<IdBytes>)
    requires SizesFit(ps)
    ensures ParseEntries(BlockEntries(Padded(ps))) == Ok(Padded(ps))
  {
    EntriesRoundTripThen(ps, Padded(ps)[|ps|..]);
    assert Padded(ps) == ps + Padded(ps)[|ps|..];
  }

  lemma {:induction false} EntriesRoundTripThen(ps: seq<IdBytes>, more: seq<IdBytes>)
    requires SizesFit(ps) && |more| <= 1 && forall p :: p in more ==> |p.bytes| <= 2 * PAGE
    ensures ParseEntries(BlockEntries(ps + more)) == Ok(ps + more)
  {
    hide BlockEntry;
    if ps == [] {
      assert ps + more == more;
      if more != [] {
        ParseEntriesStep(more[0], []);
        assert more[1..] == [] && more == [more[0]] + [];
      }
    } else {
      EntriesRoundTripThen(ps[1..], more);
      assert (ps + more)[1..] == ps[1..] + more;
      ParseEntriesStep(ps[0], BlockEntries(ps[1..] + more));
      assert [ps[0]] + (ps[1..] + more) == ps + more;
    }
  }

  // A verifier that walks back from the central directory finds the block and its pairs.
  lemma BlockIsLocated(before: Buf, ps: seq<IdBytes>, after: Buf)
    requires SizesFit(ps)
    ensures LocateBlock(before + Block(ps) + after, |before| + |Block(ps)|) ==
            Ok(Located(|before|, Padded(ps)))
  {
    hide LE, FromLE, Block, BlockEntries, Padded, ParseEntries;
    var b := Block(ps);
    var apk, cd, n := before + b + after, |before| + |b|, |before|;
    BlockLayout(ps);
    MagicIs();
    Middle(before, b, after, |b| - 16, |b|);
    Middle(before, b, after, |b| - 24, |b| - 16);
    Middle(before, b, after, 0, 8);
    Middle(before, b, after, 8, |b| - 24);
    assert b[|b| - 16..|b|] == b[|b| - 16..] && b[0..8] == b[..8];
  }

  lemma Middle(before: Buf, b: Buf, after: Buf, lo: nat, hi: nat)
    requires lo <= hi <= |b|
    ensures (before + b + after)[|before| + lo..|before| + hi] == b[lo..hi]
  {
  }
}
