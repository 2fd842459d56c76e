/** Bytes, sectors and the little-endian words stored in them. */
module Words {

  type byte = b: int | 0 <= b < 256

  const SECTOR_SIZE := 512

  const WORD32 := 0x1_0000_0000

  type word32 = w: int | 0 <= w < WORD32

  /** FAT32_LAST_CLUSTER and FAT32_INVALID_CLUSTER: the same all-ones word. */
  const LAST := 0xFFFF_FFFF

  type Sector = s: seq<byte> | |s| == SECTOR_SIZE witness seq(SECTOR_SIZE, _ => 0)

  function Zeros(n: nat): (s: seq<byte>)
    ensures |s| == n
  {
    seq(n, _ => 0)
  }

  /** One more than the largest value of n bytes. */
  function Radix(n: nat): (r: nat)
    ensures r >= 1
  {
    if n == 0 then 1 else 0x100 * Radix(n - 1)
  }

  lemma Radices()
    ensures Radix(2) == 0x1_0000 && Radix(4) == WORD32
  {
    assert Radix(1) == 0x100;
    assert Radix(3) == 0x100 * Radix(2);
  }

  /** The n bytes from p on, lowest first. */
  function Load(s: seq<byte>, p: nat, n: nat): (v: nat)
    requires p + n <= |s|
    ensures v < Radix(n)
    decreases n
  {
    if n == 0 then 0 else s[p] + 0x100 * Load(s, p + 1, n - 1)
  }

  function Store(s: seq<byte>, p: nat, v: nat, n: nat): (r: seq<byte>)
    requires p + n <= |s|
    ensures |r| == |s|
    decreases n
  {
    if n == 0 then s else Store(s[p := v % 0x100], p + 1, v / 0x100, n - 1)
  }

  lemma {:induction false} StoreFrame(s: seq<byte>, p: nat, v: nat, n: nat)
    requires p + n <= |s|
    ensures forall i :: 0 <= i < |s| && !(p <= i < p + n) ==> Store(s, p, v, n)[i] == s[i]
    decreases n
  {
    if n > 0 {
      StoreFrame(s[p := v % 0x100], p + 1, v / 0x100, n - 1);
    }
  }

  lemma QuotientAndRest(a: nat, d: nat, q: nat, r: nat)
    requires a == d * q + r && r < d
    ensures a % d == r
  {
    var q' := a / d;
    assert a == d * q' + a % d;
    MulOneMore(q, d);
    MulOneMore(q', d);
    if q < q' {
      MulMonotone(q + 1, q', d);
      assert false;
    }
    if q' < q {
      MulMonotone(q' + 1, q, d);
      assert false;
    }
  }

  lemma MulOneMore(q: nat, d: nat)
    ensures (q + 1) * d == d * q + d
  {
  }

  lemma LowBytes(v: nat, r: nat)
    requires r >= 1
    ensures v % 0x100 + 0x100 * (v / 0x100 % r) == v % (0x100 * r)
  {
    var q, k := v / 0x100, v / 0x100 / r;
    assert q == r * k + q % r;
    assert v == 0x100 * q + v % 0x100;
    assert 0x100 * (r * k) == 0x100 * r * k;
    QuotientAndRest(v, 0x100 * r, k, v % 0x100 + 0x100 * (q % r));
  }

  /** Storing then loading gives the value back, truncated to the width. */
  lemma {:induction false} LoadStore(s: seq<byte>, p: nat, v: nat, n: nat)
    requires p + n <= |s|
    ensures Load(Store(s, p, v, n), p, n) == v % Radix(n)
    decreases n
  {
    if n > 0 {
      var s1 := s[p := v % 0x100];
      LoadStore(s1, p + 1, v / 0x100, n - 1);
      StoreFrame(s1, p + 1, v / 0x100, n - 1);
      LowBytes(v, Radix(n - 1));
    }
  }

  /** Storing what is there changes nothing. */
  lemma {:induction false} StoreLoad(s: seq<byte>, p: nat, n: nat)
    requires p + n <= |s|
    ensures Store(s, p, Load(s, p, n), n) == s
    decreases n
  {
    if n > 0 {
      var v := Load(s, p, n);
      assert v % 0x100 == s[p] && v / 0x100 == Load(s, p + 1, n - 1);
      assert s[p := s[p]] == s;
      StoreLoad(s, p + 1, n - 1);
    }
  }

  lemma {:induction false} LoadSame(s: seq<byte>, t: seq<byte>, p: nat, n: nat)
    requires p + n <= |s| && p + n <= |t|
    requires forall i :: p <= i < p + n ==> s[i] == t[i]
    ensures Load(s, p, n) == Load(t, p, n)
    decreases n
  {
    if n > 0 {
      LoadSame(s, t, p + 1, n - 1);
    }
  }

  function Get16(s: seq<byte>, p: nat): (v: nat)
    requires p + 2 <= |s|
    ensures v < 0x1_0000
  {
    Radices();
    Load(s, p, 2)
  }

  function Put16(s: seq<byte>, p: nat, v: nat): (r: seq<byte>)
    requires p + 2 <= |s|
    ensures |r| == |s|
  {
    Store(s, p, v, 2)
  }

  function Get32(s: seq<byte>, p: nat): (v: nat)
    requires p + 4 <= |s|
    ensures v < WORD32
  {
    Radices();
    Load(s, p, 4)
  }

  function Put32(s: seq<byte>, p: nat, v: nat): (r: seq<byte>)
    requires p + 4 <= |s|
    ensures |r| == |s|
  {
    Store(s, p, v, 4)
  }

  /** Two and four bytes as a word, lowest first, written out. */
  function Two(s: seq<byte>, p: nat): nat
    requires p + 2 <= |s|
  {
    var low: nat, high: nat := s[p], s[p + 1];
    low + 0x100 * high
  }

  function Four(s: seq<byte>, p: nat): nat
    requires p + 4 <= |s|
  {
    Two(s, p) + 0x1_0000 * Two(s, p + 2)
  }

  lemma WordsAre(s: seq<byte>, p: nat)
    requires p + 2 <= |s|
    ensures Get16(s, p) == Two(s, p)
    ensures p + 4 <= |s| ==> Get32(s, p) == Four(s, p)
  {
    assert Load(s, p, 2) == s[p] + 0x100 * Load(s, p + 1, 1);
    assert Load(s, p + 1, 1) == s[p + 1] + 0x100 * Load(s, p + 2, 0);
    if p + 4 <= |s| {
      assert Load(s, p, 4) == s[p] + 0x100 * Load(s, p + 1, 3);
      assert Load(s, p + 1, 3) == s[p + 1] + 0x100 * Load(s, p + 2, 2);
      assert Load(s, p + 2, 2) == s[p + 2] + 0x100 * Load(s, p + 3, 1);
      assert Load(s, p + 3, 1) == s[p + 3] + 0x100 * Load(s, p + 4, 0);
    }
  }

  lemma MulMonotone(a: nat, b: nat, k: nat)
    requires a <= b
    ensures a * k <= b * k
  {
  }
}
