/** Bytes, fixed-width words and their network byte order, with the two
    outcome datatypes the other modules share. */
module Words {

  datatype Option<+T> = None | Some(value: T)

  datatype Result<+T, +E> = Ok(value: T) | Err(error: E)

  type Byte = x: int | 0 <= x < 0x100
  type U32 = x: int | 0 <= x < 0x1_0000_0000
  type U64 = x: int | 0 <= x < 0x1_0000_0000_0000_0000
  type Bytes = seq<Byte>

  function Min(a: int, b: int): int {
    if a <= b then a else b
  }

  function Max(a: int, b: int): int {
    if a <= b then b else a
  }

  function Pow256(n: nat): (p: nat)
    ensures p >= 1
  {
    if n == 0 then 1 else 256 * Pow256(n - 1)
  }

  /** The n low-order bytes of v, most significant byte first. */
  function BigEndian(v: nat, n: nat): (s: Bytes)
    ensures |s| == n
  {
    if n == 0 then [] else BigEndian(v / 256, n - 1) + [v % 256]
  }

  function FromBigEndian(s: Bytes): (v: nat)
    ensures v < Pow256(|s|)
  {
    if s == [] then 0 else 256 * FromBigEndian(s[..|s| - 1]) + s[|s| - 1]
  }

  lemma Pow256Words()
    ensures Pow256(1) == 0x100
    ensures Pow256(4) == 0x1_0000_0000
    ensures Pow256(8) == 0x1_0000_0000_0000_0000
  {
    assert Pow256(2) == 0x1_0000;
    assert Pow256(3) == 0x100_0000;
    assert Pow256(5) == 0x100_0000_0000;
    assert Pow256(6) == 0x1_0000_0000_0000;
    assert Pow256(7) == 0x100_0000_0000_0000;
  }

  lemma {:induction false} FromToBigEndian(v: nat, n: nat)
    requires v < Pow256(n)
    ensures FromBigEndian(BigEndian(v, n)) == v
  {
    if n > 0 {
      FromToBigEndian(v / 256, n - 1);
      assert BigEndian(v, n)[..n - 1] == BigEndian(v / 256, n - 1);
    }
  }

  lemma {:induction false} ToFromBigEndian(s: Bytes)
    ensures BigEndian(FromBigEndian(s), |s|) == s
  {
    if s != [] {
      var init := s[..|s| - 1];
      ToFromBigEndian(init);
      assert FromBigEndian(s) / 256 == FromBigEndian(init);
      assert s == init + [s[|s| - 1]];
    }
  }

  lemma MulAtLeast(p: nat, k: int)
    requires k >= 1
    ensures p * k >= p
  {
    assert p * k == p + p * (k - 1);
    assert p * (k - 1) >= 0;
  }

  lemma DivUnique(w: nat, p: nat, q: nat, r: nat)
    requires w == p * q + r && r < p
    ensures w / p == q && w % p == r
  {
    var d := w / p - q;
    assert w == p * (w / p) + w % p;
    assert p * (w / p) == p * q + p * d;
    if d >= 1 { MulAtLeast(p, d); }
    if d <= -1 { MulAtLeast(p, -d); }
  }

  lemma DivDiv(v: nat, p: nat)
    requires p >= 1
    ensures v / 256 / p == v / (256 * p)
  {
    var w := v / 256;
    var q, r := w / p, w % p;
    assert w == p * q + r;
    assert (256 * p) * q == 256 * (p * q);
    assert v == (256 * p) * q + (256 * r + v % 256);
    DivUnique(v, 256 * p, q, 256 * r + v % 256);
  }

  /** Byte i of the encoding is what a shift by 8 * (n - 1 - i) and a mask give. */
  lemma {:induction false} BigEndianAt(v: nat, n: nat, i: nat)
    requires i < n
    ensures BigEndian(v, n)[i] == v / Pow256(n - 1 - i) % 256
  {
    if i < n - 1 {
      BigEndianAt(v / 256, n - 1, i);
      DivDiv(v, Pow256(n - 2 - i));
    }
  }
}
