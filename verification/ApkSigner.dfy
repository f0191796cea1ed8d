/**
 * Signing an APK with the APK Signature Scheme v2, and a verifier of that scheme. SHA-256,
 * the RSA signature and the public key of a certificate are parameters.
 */
module ApkSigner {
  import opened Bytes
  import opened SigningBlock

  const EOCD_MAGIC: Buf := [0x50, 0x4b, 0x05, 0x06]
  const RSA_PKCS1_SHA256: U32 := 0x0103
  const CHUNK: nat := 1024 * 1024

  // ---- finding the end-of-central-directory record ------------------------------------

  predicate IsEocd(apk: Buf, i: nat) {
    && i + 22 <= |apk|
    && apk[i..i + 4] == EOCD_MAGIC
    && i + 22 + FromLE(apk[i + 20..i + 22]) == |apk|
  }

  // The record nearest the end of the file that a 16-bit comment length can reach.
  ghost predicate IsLastEocd(apk: Buf, i: nat) {
    && IsEocd(apk, i) && i + 22 + 0xFFFF >= |apk|
    && forall k :: i < k ==> !IsEocd(apk, k)
  }

  datatype ZipLayout = ZipLayout(cdOffset: U32, cdSize: U32, eocdOffset: nat)

  function LayoutAt(apk: Buf, eocd: nat): ZipLayout
    requires eocd + 22 <= |apk|
  {
    FromLEBound(apk[eocd + 12..eocd + 16]);
    FromLEBound(apk[eocd + 16..eocd + 20]);
    PowersOf256();
    ZipLayout(FromLE(apk[eocd + 16..eocd + 20]), FromLE(apk[eocd + 12..eocd + 16]), eocd)
  }

  method LocateZipLayout(apk: Buf) returns (r: Result<ZipLayout>)
    ensures r.Ok? ==> IsLastEocd(apk, r.value.eocdOffset)
                      && r.value == LayoutAt(apk, r.value.eocdOffset)
    ensures r.Err? ==> forall i :: !IsLastEocd(apk, i)
  {
    var maxBack := if |apk| < 22 + 65535 then |apk| else 22 + 65535;
    var scanStart := |apk| - maxBack;
    var i := if |apk| < 21 then 0 else |apk| - 21;
    while i > scanStart
      invariant forall k :: i <= k ==> !IsEocd(apk, k)
      decreases i
    {
      i := i - 1;
      if apk[i..i + 4] == EOCD_MAGIC {
        var commentLen := FromLE(apk[i + 20..i + 22]);
        if i + 22 + commentLen == |apk| {
          FromLEBound(apk[i + 20..i + 22]);
          PowersOf256();
          return Ok(LayoutAt(apk, i));
        }
      }
    }
    return Err;
  }

  // ---- the chunked content digest -------------------------------------------------------

  function Chunks(region: Buf): (cs: seq<Buf>)
    ensures forall c :: c in cs ==> 0 < |c| <= CHUNK
  {
    if region == [] then []
    else
      var n := if |region| < CHUNK then |region| else CHUNK;
      [region[..n]] + Chunks(region[n..])
  }

  function ChunkDigests(sha: Buf -> Buf, cs: seq<Buf>): Buf {
    if cs == [] then [] else sha([0xa5] + LE(|cs[0]|, 4) + cs[0]) + ChunkDigests(sha, cs[1..])
  }

  // Each region is cut into chunks on its own.
  function ContentDigest(sha: Buf -> Buf, a: Buf, b: Buf, c: Buf): Buf {
    var cs := Chunks(a) + Chunks(b) + Chunks(c);
    sha([0x5a] + LE(|cs|, 4) + ChunkDigests(sha, cs))
  }

  lemma {:induction false} ChunkDigestsAppend(sha: Buf -> Buf, xs: seq<Buf>, ys: seq<Buf>)
    ensures ChunkDigests(sha, xs + ys) == ChunkDigests(sha, xs) + ChunkDigests(sha, ys)
  {
    if xs == [] {
      assert xs + ys == ys;
    } else {
      ChunkDigestsAppend(sha, xs[1..], ys);
      assert (xs + ys)[1..] == xs[1..] + ys;
      Associative(sha([0xa5] + LE(|xs[0]|, 4) + xs[0]), ChunkDigests(sha, xs[1..]), ChunkDigests(sha, ys));
    }
  }

  function ChunkCount(n: nat): nat { if n == 0 then 0 else (n + CHUNK - 1) / CHUNK }

  lemma {:induction false} ChunkCountIs(region: Buf)
    ensures |Chunks(region)| == ChunkCount(|region|)
    decreases |region|
  {
    hide ChunkCount;
    SmallChunkCount(|region|);
    if |region| >= CHUNK {
      ChunkCountIs(region[CHUNK..]);
      ChunkCountStep(|region|);
    } else if region != [] {
      assert region[|region|..] == [];
    }
  }

  lemma SmallChunkCount(n: nat)
    ensures n == 0 ==> ChunkCount(n) == 0
    ensures 0 < n < CHUNK ==> ChunkCount(n) == 1
  {
  }

  lemma ChunkCountStep(n: nat)
    requires n >= CHUNK
    ensures ChunkCount(n) == 1 + ChunkCount(n - CHUNK)
  {
  }

  // The chunks are the region, cut.
  lemma {:induction false} ChunksCover(region: Buf)
    ensures Concat(Chunks(region)) == region
    decreases |region|
  {
    if region != [] {
      var n := if |region| < CHUNK then |region| else CHUNK;
      ChunksCover(region[n..]);
    }
  }

  method AppendRegion(sha: Buf -> Buf, region: Buf, before: Buf) returns (out: Buf)
    ensures out == before + ChunkDigests(sha, Chunks(region))
  {
    hide LE, Chunks, ChunkDigests;
    out := before;
    var off := 0;
    assert region[0..] == region;
    while off < |region|
      invariant 0 <= off <= |region|
      invariant before + ChunkDigests(sha, Chunks(region)) ==
                out + ChunkDigests(sha, Chunks(region[off..]))
    {
      var n := if CHUNK < |region| - off then CHUNK else |region| - off;
      ghost var rest := region[off..];
      ChunkStep(sha, rest);
      assert rest[..n] == region[off..off + n] && rest[n..] == region[off + n..];
      var d := sha([0xa5] + LE(n, 4) + region[off..off + n]);
      Associative(out, d, ChunkDigests(sha, Chunks(rest[n..])));
      out := out + d;
      off := off + n;
    }
    NoChunks(sha);
    assert region[off..] == [] && out + [] == out;
  }

  lemma ChunkStep(sha: Buf -> Buf, rest: Buf)
    requires rest != []
    ensures var n := if CHUNK < |rest| then CHUNK else |rest|;
            ChunkDigests(sha, Chunks(rest)) ==
            sha([0xa5] + LE(n, 4) + rest[..n]) + ChunkDigests(sha, Chunks(rest[n..]))
  {
    hide LE;
    var cs := Chunks(rest);
    assert cs[1..] == Chunks(rest[|cs[0]|..]);
  }

  lemma NoChunks(sha: Buf -> Buf)
    ensures ChunkDigests(sha, Chunks([])) == []
  {
  }

  method ComputeChunkedSha256(sha: Buf -> Buf, beforeCd: Buf, centralDir: Buf, eocd: Buf)
    returns (digest: Buf)
    ensures digest == ContentDigest(sha, beforeCd, centralDir, eocd)
  {
    hide LE, Chunks, ChunkDigests, ChunkCount;
    var numChunks := ChunkCount(|beforeCd|) + ChunkCount(|centralDir|) + ChunkCount(|eocd|);
    ChunkCountIs(beforeCd);
    ChunkCountIs(centralDir);
    ChunkCountIs(eocd);
    var head := [0x5a] + LE(numChunks, 4);
    var out := AppendRegion(sha, beforeCd, head);
    out := AppendRegion(sha, centralDir, out);
    out := AppendRegion(sha, eocd, out);
    var a, b, c := Chunks(beforeCd), Chunks(centralDir), Chunks(eocd);
    ChunkDigestsAppend(sha, a, b);
    ChunkDigestsAppend(sha, a + b, c);
    var x, y, z := ChunkDigests(sha, a), ChunkDigests(sha, b), ChunkDigests(sha, c);
    Associative(head, x, y);
    Associative(head, x + y, z);
    digest := sha(out);
  }

  // ---- the v2 block -----------------------------------------------------------------------

  datatype Signer = Signer(sign: Buf -> Buf, cert: Buf, spki: Buf)

  function SignedData(s: Signer, digest: Buf): Buf {
    EncodeLp([EncodeLpPairs([IdBytes(RSA_PKCS1_SHA256, digest)]), EncodeLp([s.cert]), [], []])
  }

  function SignerBlock(s: Signer, digest: Buf): Buf {
    var data := SignedData(s, digest);
    EncodeLp([data, EncodeLpPairs([IdBytes(RSA_PKCS1_SHA256, s.sign(data))]), s.spki])
  }

  function V2Body(s: Signer, digest: Buf): Buf {
    EncodeLp([EncodeLp([SignerBlock(s, digest)])])
  }

  method BuildV2BlockBody(s: Signer, digest: Buf) returns (body: Buf)
    ensures body == V2Body(s, digest)
  {
    hide EncodeLp, EncodeLpPairs;
    var digestsSeq := EncodeLpIntLpBytesPairs([IdBytes(RSA_PKCS1_SHA256, digest)]);
    var certsSeq := EncodeLpElements([s.cert]);
    var signedData := EncodeLpElements([digestsSeq, certsSeq, [], []]);
    var signature := s.sign(signedData);
    var signaturesSeq := EncodeLpIntLpBytesPairs([IdBytes(RSA_PKCS1_SHA256, signature)]);
    var signerBlock := EncodeLpElements([signedData, signaturesSeq, s.spki]);
    var signersSeq := EncodeLpElements([signerBlock]);
    body := EncodeLpElements([signersSeq]);
  }

  // ---- the signed file ------------------------------------------------------------------------

  function SetCdOffset(eocd: Buf, offset: nat): (e: Buf)
    requires |eocd| >= 22
    ensures |e| == |eocd|
  {
    eocd[..16] + LE(offset, 4) + eocd[20..]
  }

  // Zero bytes up to the next page boundary.
  function PaddedToPage(b: Buf): (p: Buf)
    ensures |p| % PAGE == 0 && |b| <= |p| < |b| + PAGE && p[..|b|] == b
  {
    b + Zeros(if |b| % PAGE != 0 then PAGE - |b| % PAGE else 0)
  }

  datatype Sections = Sections(before: Buf, block: Buf, centralDir: Buf, eocd: Buf)

  function Assemble(s: Sections): Buf { s.before + s.block + s.centralDir + s.eocd }

  predicate SplittableAt(apk: Buf, l: ZipLayout) {
    l.eocdOffset + 22 <= |apk| && l.cdOffset + l.cdSize <= l.eocdOffset
  }

  // The sections of the signed file for a given input layout.
  function SignedSections(apk: Buf, l: ZipLayout, s: Signer, sha: Buf -> Buf): (r: Sections)
    requires SplittableAt(apk, l)
  {
    var before := PaddedToPage(apk[..l.cdOffset]);
    var centralDir := apk[l.cdOffset..l.cdOffset + l.cdSize];
    var eocd := apk[l.eocdOffset..];
    var digest := ContentDigest(sha, before, centralDir, SetCdOffset(eocd, |before|));
    var block := Block([IdBytes(V2_BLOCK_ID, V2Body(s, digest))]);
    Sections(before, block, centralDir, SetCdOffset(eocd, |before| + |block|))
  }

  method SignApkV2(apk: Buf, s: Signer, sha: Buf -> Buf) returns (r: Result<Buf>)
    ensures r.Err? <==> forall i :: IsLastEocd(apk, i) ==> !SplittableAt(apk, LayoutAt(apk, i))
    ensures forall i :: IsLastEocd(apk, i) && SplittableAt(apk, LayoutAt(apk, i)) ==>
              r == Ok(Assemble(SignedSections(apk, LayoutAt(apk, i), s, sha)))
  {
    var found := LocateZipLayout(apk);
    if found == Err {
      return Err;
    }
    var layout := found.value;
    LastEocdUnique(apk, layout.eocdOffset);
    var cdStart := layout.cdOffset;
    var cdEnd := cdStart + layout.cdSize;
    if cdEnd > layout.eocdOffset {
      return Err;
    }
    var out := Emit(apk, layout, s, sha);
    return Ok(out);
  }

  lemma LastEocdUnique(apk: Buf, i: nat)
    requires IsLastEocd(apk, i)
    ensures forall k :: IsLastEocd(apk, k) ==> k == i
  {
  }

  method Emit(apk: Buf, l: ZipLayout, s: Signer, sha: Buf -> Buf) returns (out: Buf)
    requires SplittableAt(apk, l)
    ensures out == Assemble(SignedSections(apk, l, s, sha))
  {
    hide LE, Block, V2Body, ContentDigest;
    var beforeRaw := apk[..l.cdOffset];
    var centralDir := apk[l.cdOffset..l.cdOffset + l.cdSize];
    var eocd := apk[l.eocdOffset..];
    var padSize := if |beforeRaw| % PAGE != 0 then PAGE - |beforeRaw| % PAGE else 0;
    var before := beforeRaw + Zeros(padSize);
    var eocdForDigest := eocd[..16] + LE(|before|, 4) + eocd[20..];
    var contentDigest := ComputeChunkedSha256(sha, before, centralDir, eocdForDigest);
    var body := BuildV2BlockBody(s, contentDigest);
    var signingBlock := BuildSigningBlock([IdBytes(V2_BLOCK_ID, body)]);
    out := before + signingBlock + centralDir;
    var patchedEocd := eocd[..16] + LE(|before| + |signingBlock|, 4) + eocd[20..];
    out := out + patchedEocd;
  }

  // ---- a verifier ---------------------------------------------------------------------------

  // `valid` checks a signature under a public key, `keyOf` is a certificate's public key.
  datatype Trust = Trust(valid: (Buf, Buf, Buf) -> bool, keyOf: Buf -> Buf)

  function DecodePairList(es: seq<Buf>): Result<seq<IdBytes>> {
    if es == [] then Ok([])
    else
      var p :- DecodePairElement(es[0]);
      var rest :- DecodePairList(es[1..]);
      Ok([p] + rest)
  }

  function DecodePairs(b: Buf): Result<seq<IdBytes>> {
    var es :- DecodeLp(b);
    DecodePairList(es)
  }

  function Lookup(ps: seq<IdBytes>, id: U32): Option<Buf> {
    if ps == [] then None else if ps[0].id == id then Some(ps[0].bytes) else Lookup(ps[1..], id)
  }

  function Ids(ps: seq<IdBytes>): seq<U32> {
    if ps == [] then [] else [ps[0].id] + Ids(ps[1..])
  }

  // One signer: the signature over its signed data is valid under its key, the key is that of
  // its certificate, and the digest it signed is the expected one.
  predicate SignerAccepted(signer: Buf, digest: Buf, trust: Trust) {
    var parts := DecodeLp(signer);
    parts.Ok? && |parts.value| == 3 &&
    var data, key := parts.value[0], parts.value[2];
    var signatures, fields := DecodePairs(parts.value[1]), DecodeLp(data);
    signatures.Ok? && fields.Ok? && |fields.value| >= 3 &&
    var digests, certs := DecodePairs(fields.value[0]), DecodeLp(fields.value[1]);
    digests.Ok? && certs.Ok? && certs.value != [] &&
    Ids(digests.value) == Ids(signatures.value) &&
    var signature := Lookup(signatures.value, 0x0103);
    signature.Some? && trust.valid(key, data, signature.value) &&
    trust.keyOf(certs.value[0]) == key &&
    Lookup(digests.value, 0x0103) == Some(digest)
  }

  predicate BodyAccepted(body: Buf, digest: Buf, trust: Trust) {
    var outer := DecodeLp(body);
    outer.Ok? && |outer.value| == 1 &&
    var signers := DecodeLp(outer.value[0]);
    signers.Ok? && signers.value != [] &&
    forall k :: 0 <= k < |signers.value| ==> SignerAccepted(signers.value[k], digest, trust)
  }

  // Chunk number j of a region, cut every 1 MiB.
  function ChunkAt(region: Buf, j: nat): Buf
    requires j * 1_048_576 <= |region|
  {
    region[j * 1_048_576..if (j + 1) * 1_048_576 <= |region| then (j + 1) * 1_048_576 else |region|]
  }

  function ChunksIn(region: Buf): (n: nat)
    ensures n > 0 ==> (n - 1) * 1_048_576 < |region|
    ensures |region| <= n * 1_048_576
  {
    (|region| + 1_048_575) / 1_048_576
  }

  function DigestOf(sha: Buf -> Buf, c: Buf): Buf { sha([0xa5] + (LE(|c|, 4) + c)) }

  // The digests of the first n chunks, each behind 0xa5 and its length.
  function DigestsOf(sha: Buf -> Buf, region: Buf, n: nat): Buf
    requires n <= ChunksIn(region)
  {
    if n == 0 then []
    else
      DigestsOf(sha, region, n - 1) + DigestOf(sha, ChunkAt(region, n - 1))
  }

  /** The digest a verifier computes, chunk by chunk by index, behind 0x5a and the count. */
  function ExpectedDigest(sha: Buf -> Buf, a: Buf, b: Buf, c: Buf): Buf {
    sha([0x5a] + (LE(ChunksIn(a) + ChunksIn(b) + ChunksIn(c), 4)
                  + (DigestsOf(sha, a, ChunksIn(a)) + (DigestsOf(sha, b, ChunksIn(b)) + DigestsOf(sha, c, ChunksIn(c))))))
  }

  lemma ChunksInStep(region: Buf)
    requires |region| > CHUNK
    ensures ChunksIn(region) == 1 + ChunksIn(region[CHUNK..])
  {
  }

  lemma ChunkAtStep(region: Buf, j: nat)
    requires |region| > CHUNK && j * CHUNK <= |region| - CHUNK
    ensures (j + 1) * CHUNK <= |region| && ChunkAt(region, j + 1) == ChunkAt(region[CHUNK..], j)
  {
    var lo := (j + 1) * CHUNK;
    var hi := if lo + CHUNK <= |region| then lo + CHUNK else |region|;
    SliceOfTail(region, CHUNK, lo, hi);
  }

  // Digests of a region are those of its first chunk and of the rest.
  lemma {:induction false} DigestsShift(sha: Buf -> Buf, region: Buf, n: nat)
    requires |region| > CHUNK && n <= ChunksIn(region[CHUNK..])
    ensures n + 1 <= ChunksIn(region)
    ensures DigestsOf(sha, region, n + 1) == DigestsOf(sha, region, 1) + DigestsOf(sha, region[CHUNK..], n)
    decreases n
  {
    hide DigestsOf, DigestOf, ChunksIn, ChunkAt;
    ChunksInStep(region);
    var rest := region[CHUNK..];
    if n == 0 {
      NoDigests(sha, rest);
      assert DigestsOf(sha, region, 1) + [] == DigestsOf(sha, region, 1);
    } else {
      DigestsShift(sha, region, n - 1);
      OneMoreDigest(sha, region, n);
      OneMoreDigest(sha, rest, n - 1);
      ChunkAtStep(region, n - 1);
      Associative(DigestsOf(sha, region, 1), DigestsOf(sha, rest, n - 1), DigestOf(sha, ChunkAt(rest, n - 1)));
    }
  }

  lemma OneMoreDigest(sha: Buf -> Buf, region: Buf, n: nat)
    requires n + 1 <= ChunksIn(region)
    ensures n * CHUNK <= |region|
    ensures DigestsOf(sha, region, n + 1) == DigestsOf(sha, region, n) + DigestOf(sha, ChunkAt(region, n))
  {
  }

  lemma FirstDigest(sha: Buf -> Buf, region: Buf)
    requires region != []
    ensures ChunksIn(region) >= 1
    ensures DigestsOf(sha, region, 1) == sha([0xa5] + LE(|region[..Shorter(region)]|, 4) + region[..Shorter(region)])
  {
    hide LE;
    var n := Shorter(region);
    assert ChunkAt(region, 0) == region[..n];
    assert DigestsOf(sha, region, 0) == [];
    Associative([0xa5], LE(n, 4), region[..n]);
  }

  function Shorter(region: Buf): (n: nat)
    ensures n <= |region| && n <= CHUNK
  {
    if |region| < CHUNK then |region| else CHUNK
  }

  // Cutting from the front and cutting by index give the same digests.
  lemma {:induction false} DigestsAgree(sha: Buf -> Buf, region: Buf)
    ensures |Chunks(region)| == ChunksIn(region)
    ensures ChunkDigests(sha, Chunks(region)) == DigestsOf(sha, region, ChunksIn(region))
    decreases |region|
  {
    hide LE, DigestsOf, ChunkAt;
    if region == [] {
      NoChunks(sha);
      NoDigests(sha, region);
    } else {
      ChunkStep(sha, region);
      FirstDigest(sha, region);
      if |region| > CHUNK {
        DigestsAgree(sha, region[CHUNK..]);
        ChunksInStep(region);
        DigestsShift(sha, region, ChunksIn(region[CHUNK..]));
      } else {
        assert region[..|region|] == region && region[|region|..] == [];
        NoChunks(sha);
        var d := DigestsOf(sha, region, 1);
        assert d + [] == d;
      }
    }
  }

  lemma NoDigests(sha: Buf -> Buf, region: Buf)
    ensures DigestsOf(sha, region, 0) == []
  {
  }

  // The signer's digest is the verifier's.
  lemma DigestIsExpected(sha: Buf -> Buf, a: Buf, b: Buf, c: Buf)
    ensures ContentDigest(sha, a, b, c) == ExpectedDigest(sha, a, b, c)
  {
    hide LE, Chunks, ChunkDigests, DigestsOf, ChunksIn;
    DigestsAgree(sha, a);
    DigestsAgree(sha, b);
    DigestsAgree(sha, c);
    ChunkDigestsAppend(sha, Chunks(a), Chunks(b));
    ChunkDigestsAppend(sha, Chunks(a) + Chunks(b), Chunks(c));
    var x, y, z := ChunkDigests(sha, Chunks(a)), ChunkDigests(sha, Chunks(b)), ChunkDigests(sha, Chunks(c));
    Associative(x, y, z);
    var n := LE(ChunksIn(a) + ChunksIn(b) + ChunksIn(c), 4);
    Associative([0x5a], n, x + (y + z));
  }

  // Central directory directly in front of the EOCD record, signing block directly in front
  // of the central directory, and the digest recomputed over the other three sections with
  // the EOCD's offset field set to the start of the block.
  predicate VerifiedAt(apk: Buf, eocd: nat, sha: Buf -> Buf, trust: Trust)
    requires eocd + 22 <= |apk|
  {
    var l := LayoutAt(apk, eocd);
    l.cdOffset + l.cdSize == eocd &&
    var block := LocateBlock(apk, l.cdOffset);
    block.Ok? && block.value.start <= l.cdOffset &&
    var body := Lookup(block.value.pairs, 0x7109_871a);
    body.Some? &&
    BodyAccepted(body.value,
                 ExpectedDigest(sha, apk[..block.value.start], apk[l.cdOffset..eocd],
                                SetCdOffset(apk[eocd..], block.value.start)),
                 trust)
  }

  ghost predicate Verified(apk: Buf, sha: Buf -> Buf, trust: Trust) {
    exists eocd :: IsLastEocd(apk, eocd) && VerifiedAt(apk, eocd, sha, trust)
  }

  // ---- what is signed is accepted ------------------------------------------------------------

  lemma EncodeLpParts(es: seq<Buf>, k: nat)
    requires k < |es|
    ensures |EncodeLp(es)| >= 4 + |es[k]|
  {
    if k > 0 {
      EncodeLpParts(es[1..], k - 1);
    }
  }

  lemma OnePairRoundTrip(p: IdBytes)
    requires |EncodeLpPairs([p])| < 0x1_0000_0000
    ensures |p.bytes| < 0x1_0000_0000
    ensures DecodePairs(EncodeLpPairs([p])) == Ok([p])
    ensures Lookup([p], p.id) == Some(p.bytes) && Ids([p]) == [p.id]
  {
    hide LE;
    var e := PairElement(p);
    PairsAreElements([p]);
    assert seq(1, k requires 0 <= k < 1 => PairElement([p][k])) == [e];
    EncodeLpParts([e], 0);
    LpRoundTrip([e]);
    PairElementRoundTrip(p);
    var es, ps := [e], [p];
    assert es[1..] == [] && ps[1..] == [];
    assert DecodePairList(es[1..]) == Ok([]);
    assert ps == [p] + [];
  }

  // The signed data holds exactly four elements: digests, certificates, and two empty ones.
  lemma SignedDataParts(s: Signer, digest: Buf)
    requires |SignedData(s, digest)| < 0x1_0000_0000
    ensures DecodeLp(SignedData(s, digest)) ==
            Ok([EncodeLpPairs([IdBytes(0x0103, digest)]), EncodeLp([s.cert]), [], []])
  {
    hide EncodeLp, DecodeLp, EncodeLpPairs;
    var fields: seq<Buf> := [EncodeLpPairs([IdBytes(0x0103, digest)]), EncodeLp([s.cert]), [], []];
    EncodeLpParts(fields, 0);
    EncodeLpParts(fields, 1);
    LpRoundTrip(fields);
  }

  lemma SignerBlockAccepted(s: Signer, digest: Buf, trust: Trust)
    requires |SignerBlock(s, digest)| < 0x1_0000_0000
    requires forall data :: trust.valid(s.spki, data, s.sign(data))
    requires trust.keyOf(s.cert) == s.spki
    ensures SignerAccepted(SignerBlock(s, digest), digest, trust)
  {
    hide EncodeLp, DecodeLp, EncodeLpPairs, DecodePairs, Lookup, Ids;
    var data := SignedData(s, digest);
    var digests := EncodeLpPairs([IdBytes(RSA_PKCS1_SHA256, digest)]);
    var signatures := EncodeLpPairs([IdBytes(RSA_PKCS1_SHA256, s.sign(data))]);
    var certs := EncodeLp([s.cert]);
    var parts, fields := [data, signatures, s.spki], [digests, certs, [], []];
    EncodeLpParts(parts, 0);
    EncodeLpParts(parts, 1);
    EncodeLpParts(parts, 2);
    LpRoundTrip(parts);
    EncodeLpParts(fields, 0);
    EncodeLpParts(fields, 1);
    LpRoundTrip(fields);
    EncodeLpParts([s.cert], 0);
    LpRoundTrip([s.cert]);
    OnePairRoundTrip(IdBytes(RSA_PKCS1_SHA256, digest));
    OnePairRoundTrip(IdBytes(RSA_PKCS1_SHA256, s.sign(data)));
  }

  lemma V2BodyAccepted(s: Signer, digest: Buf, trust: Trust)
    requires |V2Body(s, digest)| < 0x1_0000_0000
    requires forall data :: trust.valid(s.spki, data, s.sign(data))
    requires trust.keyOf(s.cert) == s.spki
    ensures BodyAccepted(V2Body(s, digest), digest, trust)
  {
    hide EncodeLp, DecodeLp, SignerBlock, SignerAccepted;
    var b := SignerBlock(s, digest);
    EncodeLpParts([EncodeLp([b])], 0);
    LpRoundTrip([EncodeLp([b])]);
    EncodeLpParts([b], 0);
    LpRoundTrip([b]);
    SignerBlockAccepted(s, digest, trust);
  }

  lemma SetCdOffsetReads(eocd: Buf, offset: nat, other: nat)
    requires |eocd| >= 22 && offset < 0x1_0000_0000
    ensures var e := SetCdOffset(eocd, offset);
            && FromLE(e[16..20]) == offset
            && e[12..16] == eocd[12..16] && e[..4] == eocd[..4] && e[20..22] == eocd[20..22]
            && SetCdOffset(e, other) == SetCdOffset(eocd, other)
  {
    hide LE, FromLE;
    var e := SetCdOffset(eocd, offset);
    PowersOf256();
    LERoundTrip(offset, 4);
    assert e[16..20] == LE(offset, 4);
    assert e[..16] == eocd[..16] && e[20..] == eocd[20..];
  }

  // Reading the last section of an assembled file.
  lemma TailReads(front: Buf, eocd: Buf, lo: nat, hi: nat)
    requires lo <= hi <= |eocd|
    ensures (front + eocd)[|front| + lo..|front| + hi] == eocd[lo..hi]
  {
  }

  // A record of the last section, seen in the whole file.
  lemma EocdInTail(front: Buf, tail: Buf, d: nat)
    ensures IsEocd(front + tail, |front| + d) <==> IsEocd(tail, d)
  {
    if d + 22 <= |tail| {
      TailReads(front, tail, d, d + 4);
      TailReads(front, tail, d + 20, d + 22);
    }
  }

  // The only places where overwriting the offset field can make a record: those whose magic
  // overlaps the field.
  predicate NoRecordInTail(eocd: Buf) {
    forall d :: 13 <= d < 20 ==> !IsEocd(eocd, d)
  }

  lemma PatchedRecords(eocd: Buf, offset: nat, d: nat)
    requires |eocd| >= 22 && !(13 <= d < 20)
    ensures IsEocd(SetCdOffset(eocd, offset), d) <==> IsEocd(eocd, d)
  {
    hide LE, FromLE;
    var e := SetCdOffset(eocd, offset);
    assert e[..16] == eocd[..16] && e[20..] == eocd[20..];
    if d + 22 <= |eocd| {
      if d < 13 {
        assert e[d..d + 4] == e[..16][d..d + 4] == eocd[d..d + 4];
      } else {
        assert e[d..d + 4] == e[20..][d - 20..d - 16] == eocd[d..d + 4];
      }
      assert e[d + 20..d + 22] == e[20..][d..d + 2] == eocd[d + 20..d + 22];
    }
  }

  // In the signed file the patched record is the last one if and only if no record arises in
  // its tail.
  lemma LastRecord(apk: Buf, i: nat, front: Buf, offset: nat)
    requires IsLastEocd(apk, i)
    ensures var tail := SetCdOffset(apk[i..], offset);
            IsLastEocd(front + tail, |front|) <==> NoRecordInTail(tail)
  {
    hide IsEocd, SetCdOffset;
    EocdBounds(apk, i);
    var tail := SetCdOffset(apk[i..], offset);
    forall d: nat ensures RecordAt(front, tail, d) <==> if 13 <= d < 20 then IsEocd(tail, d) else d == 0 {
      EocdInTail(front, tail, d);
      if !(13 <= d < 20) {
        PatchedRecords(apk[i..], offset, d);
        EocdInTail(apk[..i], apk[i..], d);
        assert apk[..i] + apk[i..] == apk;
      }
    }
    assert RecordAt(front, tail, 0);
    if NoRecordInTail(tail) {
      forall k | |front| < k ensures !IsEocd(front + tail, k) {
        assert !RecordAt(front, tail, k - |front|);
      }
    } else {
      var d: nat :| 13 <= d < 20 && IsEocd(tail, d);
      assert RecordAt(front, tail, d);
    }
  }

  predicate RecordAt(front: Buf, tail: Buf, d: nat) { IsEocd(front + tail, |front| + d) }

  lemma EocdBounds(apk: Buf, i: nat)
    requires IsEocd(apk, i)
    ensures i + 22 <= |apk| <= i + 22 + 0xFFFF
  {
    PowersOf256();
    FromLEBound(apk[i + 20..i + 22]);
  }

  lemma SignedEocd(apk: Buf, l: ZipLayout, x: Sections, cd: nat)
    requires l.eocdOffset + 22 <= |apk| && l == LayoutAt(apk, l.eocdOffset)
    requires cd < 0x1_0000_0000 && x.eocd == SetCdOffset(apk[l.eocdOffset..], cd)
    ensures var out, eocd := Assemble(x), |x.before| + |x.block| + |x.centralDir|;
            && |out| >= eocd + 22
            && LayoutAt(out, eocd) == ZipLayout(cd, l.cdSize, eocd)
            && out[eocd..] == x.eocd
  {
    hide FromLE;
    var front := x.before + x.block + x.centralDir;
    var was := apk[l.eocdOffset..];
    SetCdOffsetReads(was, cd, 0);
    assert was[12..16] == apk[l.eocdOffset + 12..l.eocdOffset + 16];
    TailReads(front, x.eocd, 12, 16);
    TailReads(front, x.eocd, 16, 20);
  }

  /**
   * Main result: for every ZIP, with or without a comment, whose sections are in order, the
   * signed file is accepted at its own record and its central directory starts on a page
   * boundary. A verifier that scans for the last record finds that one if and only if
   * overwriting its offset field made no later one, and then accepts the file.
   */
  lemma SignedIsVerified(apk: Buf, i: nat, s: Signer, sha: Buf -> Buf, trust: Trust)
    requires IsLastEocd(apk, i) && SplittableAt(apk, LayoutAt(apk, i))
    requires forall data :: trust.valid(s.spki, data, s.sign(data))
    requires trust.keyOf(s.cert) == s.spki
    ensures var x := SignedSections(apk, LayoutAt(apk, i), s, sha);
            var eocd := |x.before| + |x.block| + |x.centralDir|;
            |Assemble(x)| < 0x1_0000_0000 ==>
              && (|x.before| + |x.block|) % 4096 == 0
              && eocd + 22 <= |Assemble(x)| && VerifiedAt(Assemble(x), eocd, sha, trust)
              && (IsLastEocd(Assemble(x), eocd) <==> NoRecordInTail(x.eocd))
              && (NoRecordInTail(x.eocd) ==> Verified(Assemble(x), sha, trust))
  {
    hide ContentDigest, ExpectedDigest, V2Body, Block, LocateBlock, BodyAccepted, FromLE, SetCdOffset, PaddedToPage, IsEocd, NoRecordInTail;
    var l := LayoutAt(apk, i);
    var x := SignedSections(apk, l, s, sha);
    if |Assemble(x)| >= 0x1_0000_0000 {
      return;
    }
    var out, start, cd := Assemble(x), |x.before|, |x.before| + |x.block|;
    var eocd := cd + |x.centralDir|;
    var was := apk[l.eocdOffset..];
    LastRecord(apk, i, x.before + x.block + x.centralDir, cd);
    SignedEocd(apk, l, x, cd);
    var digest := ContentDigest(sha, x.before, x.centralDir, SetCdOffset(was, start));
    DigestIsExpected(sha, x.before, x.centralDir, SetCdOffset(was, start));
    var body := V2Body(s, digest);
    BlockHolds(IdBytes(V2_BLOCK_ID, body));
    SetCdOffsetReads(was, cd, start);
    SectionsOf(x);
    BlockIsLocated(x.before, [IdBytes(V2_BLOCK_ID, body)], x.centralDir + x.eocd);
    LookupFirst(IdBytes(V2_BLOCK_ID, body));
    V2BodyAccepted(s, digest, trust);
    assert VerifiedAt(out, eocd, sha, trust);
    PageAligned(start, |x.block|);
  }

  // Without a comment there is no room for a later record.
  lemma CommentFree(apk: Buf, s: Signer, sha: Buf -> Buf)
    requires |apk| >= 22 && IsEocd(apk, |apk| - 22) && SplittableAt(apk, LayoutAt(apk, |apk| - 22))
    ensures IsLastEocd(apk, |apk| - 22)
    ensures NoRecordInTail(SignedSections(apk, LayoutAt(apk, |apk| - 22), s, sha).eocd)
  {
    hide ContentDigest, V2Body, Block, FromLE, PaddedToPage;
  }

  lemma PageAligned(a: nat, b: nat)
    requires a % PAGE == 0 && b % PAGE == 0
    ensures (a + b) % PAGE == 0
  {
  }

  lemma SectionsOf(x: Sections)
    ensures var out, cd := Assemble(x), |x.before| + |x.block|;
            && out == x.before + x.block + (x.centralDir + x.eocd)
            && out[..|x.before|] == x.before
            && out[cd..cd + |x.centralDir|] == x.centralDir
  {
    var out, cd := Assemble(x), |x.before| + |x.block|;
    Associative(x.before + x.block, x.centralDir, x.eocd);
    assert out[..|x.before|] == x.before;
    assert out[cd..cd + |x.centralDir|] == x.centralDir;
  }

  lemma BlockHolds(p: IdBytes)
    ensures |Block([p])| >= 44 + |p.bytes|
    ensures |Block([p])| < 0x1_0000_0000 ==> SizesFit([p]) && |Block([p])| % PAGE == 0
  {
    EntriesFit([p]);
    OneEntry(p);
    if |Block([p])| < 0x1_0000_0000 {
      BlockLayout([p]);
    }
  }

  lemma LookupFirst(p: IdBytes)
    ensures Lookup(Padded([p]), p.id) == Some(p.bytes)
  {
    assert Padded([p])[0] == p;
  }

  // ---- the digest binds the content -----------------------------------------------------------

  predicate Collision(sha: Buf -> Buf, p: Buf, q: Buf) { p != q && sha(p) == sha(q) }

  lemma {:induction false} ChunkDigestsBind(sha: Buf -> Buf, xs: seq<Buf>, ys: seq<Buf>) returns (p: Buf, q: Buf)
    requires forall x :: |sha(x)| == 32
    requires ChunkDigests(sha, xs) == ChunkDigests(sha, ys) && xs != ys
    ensures Collision(sha, p, q)
  {
    hide LE;
    var all := ChunkDigests(sha, xs);
    assert xs != [] && ys != [];
    p, q := [0xa5] + LE(|xs[0]|, 4) + xs[0], [0xa5] + LE(|ys[0]|, 4) + ys[0];
    assert all[..32] == sha(p) && all[..32] == sha(q);
    if p == q {
      assert p[5..] == xs[0] && q[5..] == ys[0];
      assert all[32..] == ChunkDigests(sha, xs[1..]) && all[32..] == ChunkDigests(sha, ys[1..]);
      assert xs == [xs[0]] + xs[1..] && ys == [ys[0]] + ys[1..];
      p, q := ChunkDigestsBind(sha, xs[1..], ys[1..]);
    }
  }

  // Different contents with the same content digest give a collision of the hash.
  lemma ContentDigestBinds(sha: Buf -> Buf, a: Buf, b: Buf, c: Buf, x: Buf, y: Buf, z: Buf) returns (p: Buf, q: Buf)
    requires forall x :: |sha(x)| == 32
    requires ContentDigest(sha, a, b, c) == ContentDigest(sha, x, y, z) && a + b + c != x + y + z
    ensures Collision(sha, p, q)
  {
    hide LE, ChunkDigests, Chunks;
    var us, vs := Chunks(a) + Chunks(b) + Chunks(c), Chunks(x) + Chunks(y) + Chunks(z);
    ThreeRegions(a, b, c);
    ThreeRegions(x, y, z);
    p := [0x5a] + LE(|us|, 4) + ChunkDigests(sha, us);
    q := [0x5a] + LE(|vs|, 4) + ChunkDigests(sha, vs);
    assert sha(p) == sha(q);
    if p == q {
      assert p[5..] == ChunkDigests(sha, us) && q[5..] == ChunkDigests(sha, vs);
      p, q := ChunkDigestsBind(sha, us, vs);
    }
  }

  lemma ThreeRegions(a: Buf, b: Buf, c: Buf)
    ensures Concat(Chunks(a) + Chunks(b) + Chunks(c)) == a + b + c
  {
    hide Chunks;
    ChunksCover(a);
    ChunksCover(b);
    ChunksCover(c);
    ConcatAppend(Chunks(a), Chunks(b));
    ConcatAppend(Chunks(a) + Chunks(b), Chunks(c));
  }

  // The two offsets written into the EOCD record differ: the one that is digested is the
  // start of the signing block, the one on disk the start of the central directory.
  lemma OffsetsDiffer(apk: Buf, l: ZipLayout, s: Signer, sha: Buf -> Buf)
    requires SplittableAt(apk, l)
    ensures var x := SignedSections(apk, l, s, sha);
            |Assemble(x)| < 0x1_0000_0000 ==>
              && FromLE(x.eocd[16..20]) == |x.before| + |x.block|
              && SetCdOffset(apk[l.eocdOffset..], |x.before|) != x.eocd
  {
    hide ContentDigest, V2Body, Block, FromLE, SetCdOffset, PaddedToPage;
    var x := SignedSections(apk, l, s, sha);
    if |Assemble(x)| >= 0x1_0000_0000 {
      return;
    }
    var was := apk[l.eocdOffset..];
    BlockHolds(IdBytes(V2_BLOCK_ID, V2Body(s, ContentDigest(sha, x.before, x.centralDir, SetCdOffset(was, |x.before|)))));
    SetCdOffsetReads(was, |x.before| + |x.block|, 0);
    SetCdOffsetReads(was, |x.before|, 0);
  }

  // ---- a ZIP file written out from its parts ---------------------------------------------------

  datatype EndRecord = EndRecord(disk: U16, cdDisk: U16, entriesHere: U16, entries: U16,
                                 cdSize: U32, cdOffset: U32, comment: Buf)

  function EncodeEnd(r: EndRecord): (s: Buf)
    ensures |s| == 22 + |r.comment|
  {
    [0x50, 0x4b, 0x05, 0x06] + (LE(r.disk, 2) + (LE(r.cdDisk, 2) + (LE(r.entriesHere, 2) + (LE(r.entries, 2)
      + (LE(r.cdSize, 4) + (LE(r.cdOffset, 4) + (LE(|r.comment|, 2) + r.comment)))))))
  }

  // The fields are read from where the record has them.
  lemma EndRecordRead(file: Buf, p: nat, r: EndRecord)
    requires |r.comment| < 0x1_0000 && At(file, p, EncodeEnd(r)) && p + 22 + |r.comment| == |file|
    ensures IsEocd(file, p) && LayoutAt(file, p) == ZipLayout(r.cdOffset, r.cdSize, p)
  {
    hide LE, FromLE, At;
    var t7 := LE(|r.comment|, 2) + r.comment;
    var t6 := LE(r.cdOffset, 4) + t7;
    var t5 := LE(r.cdSize, 4) + t6;
    var t4 := LE(r.entries, 2) + t5;
    var t3 := LE(r.entriesHere, 2) + t4;
    var t2 := LE(r.cdDisk, 2) + t3;
    var t1 := LE(r.disk, 2) + t2;
    AtSplit(file, p, [0x50, 0x4b, 0x05, 0x06], t1);
    MagicAt(file, p);
    HalfAt(file, p + 4, r.disk, t2);
    HalfAt(file, p + 6, r.cdDisk, t3);
    HalfAt(file, p + 8, r.entriesHere, t4);
    HalfAt(file, p + 10, r.entries, t5);
    WordAt(file, p + 12, r.cdSize, t6);
    WordAt(file, p + 16, r.cdOffset, t7);
    HalfAt(file, p + 20, |r.comment|, r.comment);
  }

  lemma MagicAt(file: Buf, p: nat)
    requires At(file, p, [0x50, 0x4b, 0x05, 0x06])
    ensures p + 4 <= |file| && file[p..p + 4] == EOCD_MAGIC
  {
  }

  // A record whose comment does not end in another one.
  predicate Sound(r: EndRecord) {
    |r.comment| < 0x1_0000 && forall d :: 0 < d <= |r.comment| ==> !IsEocd(EncodeEnd(r), d)
  }

  function Zip(front: Buf, centralDir: Buf, r: EndRecord): Buf { front + centralDir + EncodeEnd(r) }

  predicate Describes(front: Buf, centralDir: Buf, r: EndRecord) {
    Sound(r) && r.cdOffset == |front| && r.cdSize == |centralDir|
  }

  /** The scan finds the record of such a file, with the directory's offset and size. */
  lemma ZipIsLocated(front: Buf, centralDir: Buf, r: EndRecord)
    requires Describes(front, centralDir, r)
    ensures var file, end := Zip(front, centralDir, r), |front| + |centralDir|;
            && IsLastEocd(file, end) && (forall i :: IsLastEocd(file, i) ==> i == end)
            && LayoutAt(file, end) == ZipLayout(|front|, |centralDir|, end)
            && SplittableAt(file, LayoutAt(file, end))
  {
    hide IsEocd, EncodeEnd, LayoutAt;
    var file, end := Zip(front, centralDir, r), |front| + |centralDir|;
    var tail := EncodeEnd(r);
    assert file[end..end + |tail|] == tail;
    EndRecordRead(file, end, r);
    forall k | end < k ensures !IsEocd(file, k) {
      EocdInTail(front + centralDir, tail, k - end);
      EocdFits(tail, k - end);
    }
    LastEocdUnique(file, end);
  }

  lemma EocdFits(b: Buf, d: nat)
    ensures IsEocd(b, d) ==> d + 22 <= |b|
  {
  }

  lemma PatchedEnd(r: EndRecord, offset: U32)
    ensures SetCdOffset(EncodeEnd(r), offset) == EncodeEnd(r.(cdOffset := offset))
  {
    hide LE;
    var head := [0x50, 0x4b, 0x05, 0x06] + (LE(r.disk, 2) + (LE(r.cdDisk, 2) + (LE(r.entriesHere, 2) + (LE(r.entries, 2) + LE(r.cdSize, 4)))));
    var tail := LE(|r.comment|, 2) + r.comment;
    assert EncodeEnd(r) == head + LE(r.cdOffset, 4) + tail;
    assert EncodeEnd(r.(cdOffset := offset)) == head + LE(offset, 4) + tail;
  }

  /**
   * Main result, on a file written out from its parts: the signed file is the front padded with
   * zero bytes to a page, the signing block, the same central directory, and the same record
   * but for its offset; what is signed is the digest of those parts with the offset at the block.
   */
  lemma SignedZip(front: Buf, centralDir: Buf, r: EndRecord, s: Signer, sha: Buf -> Buf)
    requires Describes(front, centralDir, r)
    ensures var file := Zip(front, centralDir, r);
            var x := SignedSections(file, ZipLayout(|front|, |centralDir|, |front| + |centralDir|), s, sha);
            && |x.before| % 4096 == 0 && |front| <= |x.before| < |front| + 4096 && x.before[..|front|] == front
            && (forall k :: |front| <= k < |x.before| ==> x.before[k] == 0)
            && x.centralDir == centralDir
            && (|Assemble(x)| < 0x1_0000_0000 ==>
                  && x.eocd == EncodeEnd(r.(cdOffset := |x.before| + |x.block|))
                  && x.block == Block([IdBytes(0x7109_871a, V2Body(s,
                       ExpectedDigest(sha, x.before, centralDir, EncodeEnd(r.(cdOffset := |x.before|)))))]))
  {
    hide ContentDigest, ExpectedDigest, V2Body, Block, EncodeEnd, SetCdOffset;
    var file := Zip(front, centralDir, r);
    var end := |front| + |centralDir|;
    var x := SignedSections(file, ZipLayout(|front|, |centralDir|, end), s, sha);
    assert file[..|front|] == front && file[|front|..end] == centralDir && file[end..] == EncodeEnd(r);
    if |Assemble(x)| < 0x1_0000_0000 {
      PatchedEnd(r, |x.before|);
      PatchedEnd(r, |x.before| + |x.block|);
      DigestIsExpected(sha, x.before, centralDir, SetCdOffset(EncodeEnd(r), |x.before|));
    }
  }
}
