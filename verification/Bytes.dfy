/** Bytes, fixed-width integers and the two byte orders the repository uses. */
module Bytes {

  type U8 = x: int | 0 <= x < 0x100
  type U16 = x: int | 0 <= x < 0x1_0000
  type U32 = x: int | 0 <= x < 0x1_0000_0000
  type U64 = x: int | 0 <= x < 0x1_0000_0000_0000_0000

  type Buf = seq<U8>

  datatype Option<+T> = None | Some(value: T)

  datatype Result<+T> = Ok(value: T) | Err {
    predicate IsFailure() { Err? }
    function PropagateFailure<U>(): Result<U> requires Err? { Err }
    function Extract(): T requires Ok? { value }
  }

  function Pow256(k: nat): (p: nat)
    ensures p > 0
  {
    if k == 0 then 1 else 256 * Pow256(k - 1)
  }

  // Little endian, k bytes; wider values lose their high bytes, as a Rust `as` cast does.
  function LE(n: nat, k: nat): (s: Buf)
    ensures |s| == k
    decreases k, n
  {
    if k == 0 then [] else [n % 256] + LE(n / 256, k - 1)
  }

  function FromLE(s: Buf): nat {
    if s == [] then 0 else s[0] + 256 * FromLE(s[1..])
  }

  // Big endian, k bytes.
  function BE(n: nat, k: nat): (s: Buf)
    ensures |s| == k
    decreases k, n
  {
    if k == 0 then [] else BE(n / 256, k - 1) + [n % 256]
  }

  function FromBE(s: Buf): nat {
    if s == [] then 0 else 256 * FromBE(s[..|s| - 1]) + s[|s| - 1]
  }

  lemma {:induction false} LERoundTrip(n: nat, k: nat)
    requires n < Pow256(k)
    ensures FromLE(LE(n, k)) == n
    decreases k
  {
    if k > 0 {
      assert n / 256 < Pow256(k - 1);
      LERoundTrip(n / 256, k - 1);
      assert LE(n, k)[1..] == LE(n / 256, k - 1);
    }
  }

  lemma {:induction false} FromLEBound(s: Buf)
    ensures FromLE(s) < Pow256(|s|)
  {
    if s != [] {
      FromLEBound(s[1..]);
    }
  }

  lemma {:induction false} BERoundTrip(n: nat, k: nat)
    requires n < Pow256(k)
    ensures FromBE(BE(n, k)) == n
    decreases k
  {
    if k > 0 {
      assert n / 256 < Pow256(k - 1);
      BERoundTrip(n / 256, k - 1);
      assert BE(n, k)[..k - 1] == BE(n / 256, k - 1);
    }
  }

  lemma {:induction false} FromBEBound(s: Buf)
    ensures FromBE(s) < Pow256(|s|)
  {
    if s != [] {
      FromBEBound(s[..|s| - 1]);
    }
  }

  lemma PowersOf256()
    ensures Pow256(1) == 0x100 && Pow256(2) == 0x1_0000 && Pow256(4) == 0x1_0000_0000
    ensures Pow256(8) == 0x1_0000_0000_0000_0000
  {
    assert Pow256(1) == 0x100;
    assert Pow256(2) == 0x1_0000;
    assert Pow256(3) == 0x100_0000;
    assert Pow256(4) == 0x1_0000_0000;
    assert Pow256(5) == 0x100_0000_0000;
    assert Pow256(6) == 0x1_0000_0000_0000;
    assert Pow256(7) == 0x100_0000_0000_0000;
  }

  // `part` stands at offset p of buf.
  predicate At(buf: Buf, p: nat, part: Buf) { p + |part| <= |buf| && buf[p..p + |part|] == part }

  lemma AtSplit(buf: Buf, p: nat, a: Buf, b: Buf)
    ensures At(buf, p, a + b) <==> At(buf, p, a) && At(buf, p + |a|, b)
  {
    if At(buf, p, a + b) {
      assert buf[p..p + |a|] == (a + b)[..|a|] == a;
      assert buf[p + |a|..p + |a| + |b|] == (a + b)[|a|..] == b;
    }
    if At(buf, p, a) && At(buf, p + |a|, b) {
      assert buf[p..p + |a| + |b|] == buf[p..p + |a|] + buf[p + |a|..p + |a| + |b|];
    }
  }

  lemma SliceOfTail(b: Buf, k: nat, lo: nat, hi: nat)
    requires k <= lo <= hi <= |b|
    ensures b[lo..hi] == b[k..][lo - k..hi - k]
  {
  }

  // A half word or word that stands at i, and what follows it.
  lemma HalfAt(c: Buf, i: nat, n: nat, rest: Buf)
    requires At(c, i, LE(n, 2) + rest) && n < 0x1_0000
    ensures i + 2 <= |c| && FromLE(c[i..i + 2]) == n && At(c, i + 2, rest)
  {
    AtSplit(c, i, LE(n, 2), rest);
    PowersOf256();
    LERoundTrip(n, 2);
  }

  lemma WordAt(c: Buf, i: nat, n: nat, rest: Buf)
    requires At(c, i, LE(n, 4) + rest) && n < 0x1_0000_0000
    ensures i + 4 <= |c| && FromLE(c[i..i + 4]) == n && At(c, i + 4, rest)
  {
    AtSplit(c, i, LE(n, 4), rest);
    PowersOf256();
    LERoundTrip(n, 4);
  }

  // The bytes of an ASCII text.
  function Ascii(s: string): Buf {
    seq(|s|, k requires 0 <= k < |s| => if s[k] < 128 as char then s[k] as int else 0)
  }

  // The concatenation of a list of byte strings.
  function Concat(parts: seq<Buf>): Buf {
    if parts == [] then [] else parts[0] + Concat(parts[1..])
  }

  lemma Associative<T>(a: seq<T>, b: seq<T>, c: seq<T>)
    ensures (a + b) + c == a + (b + c)
  {
  }

  lemma {:induction false} ConcatAppend(xs: seq<Buf>, ys: seq<Buf>)
    ensures Concat(xs + ys) == Concat(xs) + Concat(ys)
  {
    if xs == [] {
      assert xs + ys == ys;
    } else {
      ConcatAppend(xs[1..], ys);
      assert (xs + ys)[0] == xs[0] && (xs + ys)[1..] == xs[1..] + ys;
      Associative(xs[0], Concat(xs[1..]), Concat(ys));
    }
  }

  lemma ConcatNone()
    ensures Concat([]) == []
  {
  }

  lemma ConcatOne(x: Buf)
    ensures Concat([x]) == x
  {
    assert [x][1..] == [];
    assert Concat([x]) == x + Concat([]);
  }
}
