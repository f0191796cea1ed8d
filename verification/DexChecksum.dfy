/** The two nested header checksums of a DEX file. */
module DexChecksum {
  import opened Bytes

  const MOD_ADLER: int := 65521

  function Sum(d: Buf): nat {
    if d == [] then 0 else Sum(d[..|d| - 1]) + d[|d| - 1]
  }

  // n*d[0] + (n-1)*d[1] + ... + d[n-1]
  function Weighted(d: Buf): nat {
    if d == [] then 0 else |d| * d[0] + Weighted(d[1..])
  }

  // Adler-32 in closed form (section 2.2 of RFC 1950).
  function AdlerA(d: Buf): nat { (1 + Sum(d)) % MOD_ADLER }
  function AdlerB(d: Buf): nat { (|d| + Weighted(d)) % MOD_ADLER }
  function Adler32(d: Buf): (r: U32) { AdlerB(d) * 0x1_0000 + AdlerA(d) }

  lemma {:induction false} WeightedSnoc(d: Buf, x: U8)
    ensures Weighted(d + [x]) == Weighted(d) + Sum(d) + x
  {
    hide Weighted, Sum;
    var e := d + [x];
    WeightedHead(e);
    WeightedHead(d);
    if d == [] {
      assert e[1..] == d;
    } else {
      SumHead(d);
      WeightedSnoc(d[1..], x);
      assert e[0] == d[0] && e[1..] == d[1..] + [x];
      OneMore(|d|, d[0]);
    }
  }

  lemma OneMore(n: nat, y: nat)
    ensures (n + 1) * y == n * y + y
  {
  }

  lemma WeightedHead(d: Buf)
    ensures d == [] ==> Weighted(d) == 0 && Sum(d) == 0
    ensures d != [] ==> Weighted(d) == |d| * d[0] + Weighted(d[1..])
  {
  }

  lemma {:induction false} SumHead(d: Buf)
    requires d != []
    ensures Sum(d) == d[0] + Sum(d[1..])
    decreases |d|
  {
    if |d| == 1 {
      assert d[..0] == [] && d[1..] == [];
    } else {
      SumHead(d[..|d| - 1]);
      assert d[..|d| - 1][1..] == d[1..][..|d| - 2];
    }
  }

  lemma ModAdd(u: nat, v: nat)
    ensures (u % MOD_ADLER + v) % MOD_ADLER == (u + v) % MOD_ADLER
    ensures (u % MOD_ADLER + v % MOD_ADLER) % MOD_ADLER == (u + v) % MOD_ADLER
  {
  }

  lemma AdlerStep(d: Buf, x: U8)
    ensures AdlerA(d + [x]) == (AdlerA(d) + x) % MOD_ADLER
    ensures AdlerB(d + [x]) == (AdlerB(d) + AdlerA(d + [x])) % MOD_ADLER
  {
    hide Sum, Weighted;
    var e := d + [x];
    SumSnoc(d, x);
    WeightedSnoc(d, x);
    ModAdd(1 + Sum(d), x);
    ModAdd(|d| + Weighted(d), AdlerA(e));
    ModAdd(|d| + Weighted(d), 1 + Sum(e));
    assert |e| + Weighted(e) == |d| + Weighted(d) + (1 + Sum(e));
  }

  lemma SumSnoc(d: Buf, x: U8)
    ensures Sum(d + [x]) == Sum(d) + x
  {
    assert (d + [x])[..|d|] == d;
  }

  // The running pair of sums is the closed form; every intermediate value fits 32 bits.
  method ComputeAdler32(buf: Buf) returns (r: U32)
    ensures r == Adler32(buf)
  {
    hide AdlerA, AdlerB;
    var a: U32, b: U32 := 1, 0;
    assert AdlerA([]) == 1 && AdlerB([]) == 0 by { AdlerEmpty(); }
    for i := 0 to |buf|
      invariant a == AdlerA(buf[..i]) && b == AdlerB(buf[..i]) && a < MOD_ADLER && b < MOD_ADLER
    {
      AdlerStep(buf[..i], buf[i]);
      assert buf[..i + 1] == buf[..i] + [buf[i]];
      a := (a + buf[i]) % MOD_ADLER;
      b := (b + a) % MOD_ADLER;
    }
    assert buf[..|buf|] == buf;
    r := b * 0x1_0000 + a;
  }

  lemma AdlerEmpty()
    ensures AdlerA([]) == 1 && AdlerB([]) == 0
  {
  }

  // The published value for a known text: the sum of the bytes and one stands in the low half.
  lemma KnownValue()
    ensures Adler32(Ascii("Wikipedia")) == 0x11E6_0398
  {
    hide AdlerA, AdlerB, Sum, Weighted;
    AdlerEmpty();
    var d0: Buf := [];
    var d1 := Extended(d0, 0x57, 88, 88);
    var d2 := Extended(d1, 0x69, 193, 281);
    var d3 := Extended(d2, 0x6b, 300, 581);
    var d4 := Extended(d3, 0x69, 405, 986);
    var d5 := Extended(d4, 0x70, 517, 1503);
    var d6 := Extended(d5, 0x65, 618, 2121);
    var d7 := Extended(d6, 0x64, 718, 2839);
    var d8 := Extended(d7, 0x69, 823, 3662);
    var d9 := Extended(d8, 0x61, 920, 4582);
    assert d9 == Ascii("Wikipedia");
  }

  lemma Extended(d: Buf, x: U8, a: nat, b: nat) returns (e: Buf)
    requires a == (AdlerA(d) + x) % 65521 && b == (AdlerB(d) + a) % 65521
    ensures e == d + [x] && AdlerA(e) == a && AdlerB(e) == b
  {
    e := d + [x];
    AdlerStep(d, x);
  }

  // ---- the header ---------------------------------------------------------------

  // dex[12..32] := SHA-1 of dex[32..], then dex[8..12] := Adler-32 of dex[12..].
  function Sealed(dex: Buf, sha1: Buf -> Buf): (r: Buf)
    requires |dex| >= 32 && |sha1(dex[32..])| == 20
    ensures |r| == |dex|
  {
    var signed := dex[..12] + sha1(dex[32..]) + dex[32..];
    signed[..8] + LE(Adler32(signed[12..]), 4) + signed[12..]
  }

  predicate ChecksumsHold(dex: Buf, sha1: Buf -> Buf) {
    && |dex| >= 32
    && dex[12..32] == sha1(dex[32..])
    && dex[8..12] == LE(Adler32(dex[12..]), 4)
  }

  // Both checksums hold at once although each covers bytes near the other, and nothing
  // outside bytes 8..32 changes.
  lemma SealedIsConsistent(dex: Buf, sha1: Buf -> Buf)
    requires |dex| >= 32 && |sha1(dex[32..])| == 20
    ensures ChecksumsHold(Sealed(dex, sha1), sha1)
    ensures Sealed(dex, sha1)[..8] == dex[..8] && Sealed(dex, sha1)[32..] == dex[32..]
  {
    var digest := sha1(dex[32..]);
    var signed := dex[..12] + digest + dex[32..];
    var r := Sealed(dex, sha1);
    assert r[12..] == signed[12..];
    assert r[8..12] == LE(Adler32(signed[12..]), 4);
    assert r[32..] == signed[32..] == dex[32..];
    assert r[12..32] == signed[12..32] == digest;
    assert r[..8] == signed[..8] == dex[..8];
  }

  method RecomputeHeaderChecksums(dex: array<U8>, sha1: Buf -> Buf) returns (ok: bool)
    requires dex.Length >= 32 ==> |sha1(dex[32..])| == 20
    modifies dex
    ensures ok == (dex.Length >= 32)
    ensures dex[..] == if ok then Sealed(old(dex[..]), sha1) else old(dex[..])
  {
    if dex.Length < 32 {
      return false;
    }
    ghost var was := dex[..];
    var digest := sha1(dex[32..]);
    Overwrite(dex, 12, digest);
    ghost var signed := dex[..];
    assert dex[12..] == signed[12..];
    var adler := ComputeAdler32(dex[12..]);
    Overwrite(dex, 8, LE(adler, 4));
    assert was[32..] == old(dex[32..]);
    return true;
  }

  method Overwrite(dex: array<U8>, at: nat, bytes: Buf)
    requires at + |bytes| <= dex.Length
    modifies dex
    ensures dex[..] == old(dex[..at]) + bytes + old(dex[at + |bytes|..])
  {
    for k := 0 to |bytes|
      invariant dex[..] == old(dex[..at]) + bytes[..k] + old(dex[at + k..])
    {
      dex[at + k] := bytes[k];
    }
  }
}
