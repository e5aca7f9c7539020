/** Byte strings: fixed-width little-endian integers and the lexicographic key order. */
module Bytes {
  import opened Arithmetic

  type byte = b: int | 0 <= b < 256

  const U16_LIMIT := 0x1_0000
  const U32_LIMIT := 0x1_0000_0000
  const U64_LIMIT := 0x1_0000_0000_0000_0000

  type u16 = n: int | 0 <= n < U16_LIMIT
  type u32 = n: int | 0 <= n < U32_LIMIT
  type u64 = n: int | 0 <= n < U64_LIMIT

  datatype Option<+T> = None | Some(value: T)
  datatype Result<+T, +E> = Ok(value: T) | Err(error: E)

  // ---------------------------------------------------------------------
  // Slices
  // ---------------------------------------------------------------------

  lemma Associative<T>(a: seq<T>, b: seq<T>, c: seq<T>)
    ensures a + (b + c) == (a + b) + c
  {
  }

  lemma SliceOfSlice<T>(s: seq<T>, a: nat, b: nat, i: nat, j: nat)
    requires a <= b <= |s| && i <= j <= b - a
    ensures s[a..b][i..j] == s[a + i..a + j]
  {
    var t := s[a..b];
    forall k | 0 <= k < j - i ensures t[i..j][k] == s[a + i..a + j][k] {
      assert t[i..j][k] == t[i + k] == s[a + i + k];
    }
  }

  lemma SliceOfRight<T>(x: seq<T>, y: seq<T>, i: nat, j: nat)
    requires i <= j <= |y|
    ensures (x + y)[|x| + i..|x| + j] == y[i..j]
  {
  }

  lemma SliceOfLeft<T>(x: seq<T>, y: seq<T>, i: nat, j: nat)
    requires i <= j <= |x|
    ensures (x + y)[i..j] == x[i..j]
  {
  }

  /** A piece of a block placed at `off` sits at `off` plus its own start. */
  lemma PieceOfBlock<T>(s: seq<T>, off: nat, block: seq<T>, i: nat, j: nat, piece: seq<T>)
    requires off + |block| <= |s| && s[off..off + |block|] == block
    requires i <= j <= |block| && block[i..j] == piece
    ensures s[off + i..off + j] == piece
  {
    SliceOfSlice(s, off, off + |block|, i, j);
  }

  /** Byte strings one after another. */
  function Concat(parts: seq<seq<byte>>): seq<byte>
  {
    if parts == [] then [] else parts[0] + Concat(parts[1..])
  }

  // ---------------------------------------------------------------------
  // Little-endian integers
  // ---------------------------------------------------------------------

  function Pow256(n: nat): (r: nat)
    ensures r > 0
  {
    if n == 0 then 1 else 256 * Pow256(n - 1)
  }

  /** The `n` low bytes of `v`, least significant first. */
  function LE(v: nat, n: nat): (s: seq<byte>)
    ensures |s| == n
  {
    if n == 0 then [] else [v % 256] + LE(v / 256, n - 1)
  }

  function FromLE(s: seq<byte>): (v: nat)
    ensures v < Pow256(|s|)
  {
    if s == [] then 0 else s[0] + 256 * FromLE(s[1..])
  }

  lemma {:induction false} FromLEOfLE(v: nat, n: nat)
    requires v < Pow256(n)
    ensures FromLE(LE(v, n)) == v
  {
    if n > 0 {
      FromLEOfLE(v / 256, n - 1);
      assert LE(v, n)[1..] == LE(v / 256, n - 1);
    }
  }

  lemma {:induction false} LEOfFromLE(s: seq<byte>)
    ensures LE(FromLE(s), |s|) == s
  {
    hide Pow256;
    if s != [] {
      LEOfFromLE(s[1..]);
      LowByte(s[0], FromLE(s[1..]));
      assert s == [s[0]] + s[1..];
    }
  }

  lemma LowByte(b: byte, rest: nat)
    ensures (b + 256 * rest) % 256 == b && (b + 256 * rest) / 256 == rest
  {
  }

  /** Byte `i` has weight 256 to the power `i`. */
  lemma {:induction false} LEAt(v: nat, n: nat, i: nat)
    requires i < n
    ensures LE(v, n)[i] == (v / Pow256(i)) % 256
  {
    if i == 0 {
      assert v / Pow256(0) == v;
    } else {
      LEAt(v / 256, n - 1, i - 1);
      assert LE(v, n)[i] == LE(v / 256, n - 1)[i - 1];
      DivTwice(v, Pow256(i - 1));
    }
  }

  lemma PowersOf256()
    ensures Pow256(2) == U16_LIMIT
    ensures Pow256(4) == U32_LIMIT
    ensures Pow256(6) == 0x1_0000_0000_0000
    ensures Pow256(8) == U64_LIMIT
  {
    assert Pow256(2) == 256 * Pow256(1) == 256 * 256;
    assert Pow256(4) == 256 * Pow256(3) == 256 * 256 * Pow256(2);
    assert Pow256(6) == 256 * Pow256(5) == 256 * 256 * Pow256(4);
    assert Pow256(8) == 256 * Pow256(7) == 256 * 256 * Pow256(6);
  }

  function LE16(v: u16): (s: seq<byte>) ensures |s| == 2 { LE(v, 2) }
  function LE32(v: u32): (s: seq<byte>) ensures |s| == 4 { LE(v, 4) }
  function LE64(v: u64): (s: seq<byte>) ensures |s| == 8 { LE(v, 8) }

  /** The little-endian `u16` at `off`. */
  function U16At(s: seq<byte>, off: nat): (v: u16)
    requires off + 2 <= |s|
  {
    PowersOf256();
    FromLE(s[off..off + 2])
  }

  function U32At(s: seq<byte>, off: nat): (v: u32)
    requires off + 4 <= |s|
  {
    PowersOf256();
    FromLE(s[off..off + 4])
  }

  function U64At(s: seq<byte>, off: nat): (v: u64)
    requires off + 8 <= |s|
  {
    PowersOf256();
    FromLE(s[off..off + 8])
  }

  lemma U16AtLE16(s: seq<byte>, off: nat, v: u16)
    requires off + 2 <= |s| && s[off..off + 2] == LE16(v)
    ensures U16At(s, off) == v
  {
    PowersOf256();
    FromLEOfLE(v, 2);
  }

  lemma U32AtLE32(s: seq<byte>, off: nat, v: u32)
    requires off + 4 <= |s| && s[off..off + 4] == LE32(v)
    ensures U32At(s, off) == v
  {
    PowersOf256();
    FromLEOfLE(v, 4);
  }

  lemma U64AtLE64(s: seq<byte>, off: nat, v: u64)
    requires off + 8 <= |s| && s[off..off + 8] == LE64(v)
    ensures U64At(s, off) == v
  {
    PowersOf256();
    FromLEOfLE(v, 8);
  }

  function Zeros(n: nat): (s: seq<byte>)
    ensures |s| == n && forall i :: 0 <= i < n ==> s[i] == 0
  {
    seq(n, i => 0)
  }

  // ---------------------------------------------------------------------
  // Lexicographic order on keys
  // ---------------------------------------------------------------------

  /** `a` sorts strictly before `b`. */
  predicate Lt(a: seq<byte>, b: seq<byte>)
  {
    if |b| == 0 then false
    else if |a| == 0 then true
    else a[0] < b[0] || (a[0] == b[0] && Lt(a[1..], b[1..]))
  }

  predicate Le(a: seq<byte>, b: seq<byte>)
  {
    a == b || Lt(a, b)
  }

  lemma {:induction false} LtIrreflexive(a: seq<byte>)
    ensures !Lt(a, a)
  {
    if a != [] { LtIrreflexive(a[1..]); }
  }

  lemma {:induction false} LtTransitive(a: seq<byte>, b: seq<byte>, c: seq<byte>)
    requires Lt(a, b) && Lt(b, c)
    ensures Lt(a, c)
  {
    if a != [] && a[0] == b[0] == c[0] { LtTransitive(a[1..], b[1..], c[1..]); }
  }

  lemma LeTransitive(a: seq<byte>, b: seq<byte>, c: seq<byte>)
    requires Le(a, b) && Le(b, c)
    ensures Le(a, c)
    ensures a != b || b != c ==> Lt(a, c)
  {
    if Lt(a, b) && Lt(b, c) { LtTransitive(a, b, c); }
  }

  lemma LtLeTransitive(a: seq<byte>, b: seq<byte>, c: seq<byte>)
    requires (Lt(a, b) && Le(b, c)) || (Le(a, b) && Lt(b, c))
    ensures Lt(a, c)
  {
    if Lt(a, b) && Lt(b, c) { LtTransitive(a, b, c); }
  }

  /** Trichotomy: exactly one of `a < b`, `a == b`, `b < a`. */
  lemma {:induction false} LtTotal(a: seq<byte>, b: seq<byte>)
    ensures Lt(a, b) || a == b || Lt(b, a)
    ensures !(Lt(a, b) && Lt(b, a))
    ensures Lt(a, b) || Lt(b, a) ==> a != b
  {
    if a != [] && b != [] && a[0] == b[0] {
      LtTotal(a[1..], b[1..]);
      assert a == [a[0]] + a[1..] && b == [b[0]] + b[1..];
    }
  }

  /** `!(a < b)` is `b <= a`. */
  lemma NotLt(a: seq<byte>, b: seq<byte>)
    ensures !Lt(a, b) <==> Le(b, a)
  {
    LtTotal(a, b);
    LtIrreflexive(a);
  }

  lemma {:induction false} LtCommonPrefix(p: seq<byte>, a: seq<byte>, b: seq<byte>)
    ensures Lt(p + a, p + b) <==> Lt(a, b)
  {
    if p == [] {
      assert p + a == a && p + b == b;
    } else {
      LtCommonPrefix(p[1..], a, b);
      assert (p + a)[1..] == p[1..] + a && (p + b)[1..] == p[1..] + b;
    }
  }

  /** `k ‖ 0x00` is the immediate successor of `k`: nothing sorts strictly between them. */
  lemma {:induction false} SuccessorIsExact(k: seq<byte>, x: seq<byte>)
    ensures Le(k + [0], x) <==> Lt(k, x)
  {
    if k == [] {
      var z := k + [0];
      assert z == [0] && z[1..] == [];
      if |x| == 1 {
        assert x == [x[0]];
      } else if |x| > 1 {
        assert Lt(z[1..], x[1..]);
      }
    } else {
      assert (k + [0])[1..] == k[1..] + [0];
      if x != [] && x[0] == k[0] {
        SuccessorIsExact(k[1..], x[1..]);
        assert x == [x[0]] + x[1..] && k + [0] == [k[0]] + (k[1..] + [0]);
      }
    }
  }

  /** Keys between two keys that carry prefix `p` carry it too. */
  lemma {:induction false} BetweenSharesPrefix(p: seq<byte>, a: seq<byte>, x: seq<byte>, b: seq<byte>)
    requires p <= a && p <= b && Le(a, x) && Le(x, b)
    ensures p <= x
  {
    if p != [] {
      BetweenSharesPrefix(p[1..], a[1..], x[1..], b[1..]);
      assert p == [p[0]] + p[1..] && x == [x[0]] + x[1..];
    }
  }

  /** A key that carries `p` sorts at or above `p`. */
  lemma {:induction false} PrefixIsLe(p: seq<byte>, k: seq<byte>)
    requires p <= k
    ensures Le(p, k)
  {
    if p != [] {
      PrefixIsLe(p[1..], k[1..]);
      assert p == [p[0]] + p[1..] && k == [k[0]] + k[1..];
    }
  }

  /** Length of the longest common prefix of two keys. */
  function CommonLen(a: seq<byte>, b: seq<byte>): (n: nat)
    ensures n <= |a| && n <= |b|
    ensures a[..n] == b[..n]
    ensures n < |a| && n < |b| ==> a[n] != b[n]
  {
    if a == [] || b == [] || a[0] != b[0] then 0
    else
      var m := CommonLen(a[1..], b[1..]);
      assert a[..1 + m] == [a[0]] + a[1..][..m];
      assert b[..1 + m] == [b[0]] + b[1..][..m];
      1 + m
  }

  /** A shared prefix is no longer than `CommonLen`. */
  lemma CommonLenIsLongest(a: seq<byte>, b: seq<byte>, p: seq<byte>)
    requires p <= a && p <= b
    ensures |p| <= CommonLen(a, b)
  {
  }
}
