/** Bytes, machine integers and big-endian words, shared by every other module. */
module Words {
  datatype Option<+T> = None | Some(value: T)

  type byte = x: int | 0 <= x < 0x100
  type u64 = x: int | 0 <= x < 0x1_0000_0000_0000_0000
  type u128 = x: int | 0 <= x < U128_LIMIT
  type u256 = x: int | 0 <= x < U256_LIMIT

  const U64_LIMIT: int := 0x1_0000_0000_0000_0000
  const U128_LIMIT: int := 0x1_0000_0000_0000_0000_0000_0000_0000_0000
  const U256_LIMIT: int :=
    0x1_0000_0000_0000_0000_0000_0000_0000_0000_0000_0000_0000_0000_0000_0000_0000_0000

  type Bytes = seq<byte>
  type Bytes32 = s: Bytes | |s| == 32 witness seq(32, i => 0)
  type Address = s: Bytes | |s| == 20 witness seq(20, i => 0)

  /** The integer a big-endian byte string denotes. */
  function FromBe(s: Bytes): nat {
    if s == [] then 0 else FromBe(s[..|s| - 1]) * 256 + s[|s| - 1]
  }

  /** The low `len` bytes of `n`, big-endian (two's complement when `n < 0`). */
  function ToBe(n: int, len: nat): (s: Bytes)
    ensures |s| == len
    decreases len, n
  {
    if len == 0 then [] else ToBe(n / 256, len - 1) + [n % 256]
  }

  function Pow256(k: nat): (p: nat)
    ensures p >= 1
  {
    if k == 0 then 1 else 256 * Pow256(k - 1)
  }

  function Zeros(n: nat): (z: Bytes)
    ensures |z| == n
  {
    seq(n, i => 0)
  }

  /** `a` precedes `b` in the order Rust gives equal-length byte arrays. */
  predicate LexLess(a: Bytes, b: Bytes) {
    exists k :: 0 <= k < |a| && k < |b| && a[..k] == b[..k] && a[k] < b[k]
  }

  lemma {:induction false} FromBeConcat(a: Bytes, b: Bytes)
    ensures FromBe(a + b) == FromBe(a) * Pow256(|b|) + FromBe(b)
  {
    if b == [] {
      assert a + b == a;
    } else {
      var b' := b[..|b| - 1];
      FromBeConcat(a, b');
      assert (a + b)[..|a + b| - 1] == a + b';
      assert FromBe(a) * Pow256(|b|) == 256 * (FromBe(a) * Pow256(|b'|));
    }
  }

  lemma FromBeFour(b: Bytes)
    requires |b| == 4
    ensures FromBe(b) == b[0] as int * 0x100_0000 + b[1] as int * 0x1_0000 + b[2] as int * 0x100 + b[3]
  {
    assert b[..3][..2] == b[..2] && b[..2][..1] == b[..1] && b[..1][..0] == [];
    assert FromBe(b[..1]) == b[0];
    assert FromBe(b[..2]) == b[0] as int * 0x100 + b[1];
    assert FromBe(b[..3]) == b[0] as int * 0x1_0000 + b[1] as int * 0x100 + b[2];
  }

  lemma FromBeEight(b: Bytes)
    requires |b| == 8
    ensures FromBe(b) == (b[0] as int * 0x100_0000 + b[1] as int * 0x1_0000 + b[2] as int * 0x100 + b[3]) * 0x1_0000_0000
                         + b[4] as int * 0x100_0000 + b[5] as int * 0x1_0000 + b[6] as int * 0x100 + b[7]
  {
    assert b == b[..4] + b[4..];
    FromBeConcat(b[..4], b[4..]);
    FromBeFour(b[..4]);
    FromBeFour(b[4..]);
    assert Pow256(4) == 0x1_0000_0000;
  }

  lemma {:induction false} ToBeFromBe(s: Bytes)
    ensures ToBe(FromBe(s), |s|) == s
  {
    if s != [] {
      ToBeFromBe(s[..|s| - 1]);
    }
  }

  lemma {:induction false} FromBeToBe(n: nat, len: nat)
    requires n < Pow256(len)
    ensures FromBe(ToBe(n, len)) == n
  {
    if len > 0 {
      FromBeToBe(n / 256, len - 1);
      assert ToBe(n, len)[..len - 1] == ToBe(n / 256, len - 1);
    }
  }

  lemma {:induction false} FromBeBound(s: Bytes)
    ensures FromBe(s) < Pow256(|s|)
  {
    if s != [] {
      FromBeBound(s[..|s| - 1]);
    }
  }

  lemma {:induction false} FromBeZeros(n: nat)
    ensures FromBe(Zeros(n)) == 0
  {
    if n > 0 {
      FromBeZeros(n - 1);
      assert Zeros(n)[..n - 1] == Zeros(n - 1);
    }
  }

  /** Equal-length byte strings that denote the same integer are the same string. */
  lemma FromBeInjective(a: Bytes, b: Bytes)
    requires |a| == |b| && FromBe(a) == FromBe(b)
    ensures a == b
  {
    ToBeFromBe(a);
    ToBeFromBe(b);
  }

  lemma ToBeInjective(m: nat, n: nat, len: nat)
    requires m < Pow256(len) && n < Pow256(len) && ToBe(m, len) == ToBe(n, len)
    ensures m == n
  {
    FromBeToBe(m, len);
    FromBeToBe(n, len);
  }

  /** The powers of 256 that bound the machine integers. */
  lemma WordLimits()
    ensures Pow256(8) == U64_LIMIT && Pow256(16) == U128_LIMIT && Pow256(32) == U256_LIMIT
  {
    assert Pow256(4) == 0x1_0000_0000;
    assert Pow256(8) == 0x1_0000_0000_0000_0000;
    assert Pow256(12) == 0x1_0000_0000_0000_0000_0000_0000;
    assert Pow256(16) == 0x1_0000_0000_0000_0000_0000_0000_0000_0000;
    assert Pow256(20) == 0x1_0000_0000_0000_0000_0000_0000_0000_0000_0000_0000;
    assert Pow256(24) == 0x1_0000_0000_0000_0000_0000_0000_0000_0000_0000_0000_0000_0000;
    assert Pow256(28) == 0x1_0000_0000_0000_0000_0000_0000_0000_0000_0000_0000_0000_0000_0000_0000;
  }

  /** Widening a word on the left with zero bytes does not change what it denotes. */
  lemma {:induction false} ToBePad(v: nat, pad: nat, len: nat)
    requires v < Pow256(len)
    ensures ToBe(v, pad + len) == Zeros(pad) + ToBe(v, len)
  {
    if len > 0 {
      ToBePad(v / 256, pad, len - 1);
    } else if pad > 0 {
      ToBePad(0, pad - 1, 0);
    }
  }

  /** Array order on equal-length big-endian words is integer order. */
  lemma {:induction false} LexIsIntegerOrder(a: Bytes, b: Bytes)
    requires |a| == |b|
    ensures LexLess(a, b) <==> FromBe(a) < FromBe(b)
  {
    if a != [] {
      var n := |a| - 1;
      var a', b' := a[..n], b[..n];
      LexIsIntegerOrder(a', b');
      if LexLess(a', b') {
        var k :| 0 <= k < |a'| && a'[..k] == b'[..k] && a'[k] < b'[k];
        assert a[..k] == a'[..k] && b[..k] == b'[..k];
      }
      if LexLess(a, b) {
        var k :| 0 <= k < |a| && a[..k] == b[..k] && a[k] < b[k];
        if k < n {
          assert a'[..k] == a[..k] && b'[..k] == b[..k] && a'[k] < b'[k];
        }
      }
      if FromBe(a') == FromBe(b') {
        FromBeInjective(a', b');
        if a[n] < b[n] {
          assert a[..n] == b[..n];
        }
      }
    }
  }
}
