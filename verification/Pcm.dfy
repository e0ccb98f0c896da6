/** 16-bit samples and their little-endian bytes ("<i2"). Dividing an int16 by 32768 is
    exact in float32, so reals lose nothing here. */
module Pcm {
  import opened Words

  type Sample = x: int | -0x8000 <= x < 0x8000

  /** numpy's tobytes() on an "<i2" array: two's complement, low byte first. */
  function ToBytes(samples: seq<Sample>): (b: Bytes)
    ensures |b| == 2 * |samples|
  {
    seq(2 * |samples|, i requires 0 <= i < 2 * |samples| =>
      var u := samples[i / 2] as int % 0x1_0000;
      if i % 2 == 0 then u % 0x100 else u / 0x100)
  }

  function Decode(low: Byte, high: Byte): Sample {
    var u := low as int + 0x100 * high as int;
    if u < 0x8000 then u else u - 0x1_0000
  }

  /** numpy's frombuffer(..., "<i2") on an even number of bytes. */
  function FromBytes(b: Bytes): (samples: seq<Sample>)
    requires |b| % 2 == 0
    ensures |samples| == |b| / 2
  {
    seq(|b| / 2, i requires 0 <= i < |b| / 2 => Decode(b[2 * i], b[2 * i + 1]))
  }

  /** samples / 32768.0 */
  function Scaled(samples: seq<Sample>): (xs: seq<real>)
    ensures |xs| == |samples|
  {
    seq(|samples|, i requires 0 <= i < |samples| => samples[i] as real / 32768.0)
  }

  /** pcm_bytes_to_float32: a stray last byte is dropped. */
  function ToFloat(b: Bytes): seq<real> {
    var even := if |b| % 2 != 0 then b[..|b| - 1] else b;
    Scaled(FromBytes(even))
  }

  lemma FromToBytes(samples: seq<Sample>)
    ensures FromBytes(ToBytes(samples)) == samples
    ensures ToFloat(ToBytes(samples)) == Scaled(samples)
  {
    forall i | 0 <= i < |samples| ensures FromBytes(ToBytes(samples))[i] == samples[i] {
      assert (2 * i) / 2 == i && (2 * i + 1) / 2 == i;
    }
  }

  /** The serialised samples, byte by byte: 256 times the high byte plus the low one, taken
      modulo 2 ** 16, is the sample; and each becomes the fraction of 32768 it is. */
  lemma BytesWrittenOut(samples: seq<Sample>, i: nat)
    requires i < |samples|
    ensures |ToBytes(samples)| == 2 * |samples| && |Scaled(samples)| == |samples|
    ensures var (low, high) := (ToBytes(samples)[2 * i] as int, ToBytes(samples)[2 * i + 1] as int);
            low + 0x100 * high == if samples[i] >= 0 then samples[i] as int else samples[i] as int + 0x1_0000
    ensures Scaled(samples)[i] * 32768.0 == samples[i] as real
  {
    var u := samples[i] as int % 0x1_0000;
    assert (2 * i) / 2 == i && (2 * i + 1) / 2 == i && (2 * i + 1) % 2 == 1;
    assert u == 0x100 * (u / 0x100) + u % 0x100;
  }

  lemma DecodedBytes(low: Byte, high: Byte)
    ensures Decode(low, high) as int % 0x1_0000 == low as int + 0x100 * high as int
    ensures (low as int + 0x100 * high as int) % 0x100 == low
    ensures (low as int + 0x100 * high as int) / 0x100 == high
  {
  }

  lemma ToFromBytes(b: Bytes)
    requires |b| % 2 == 0
    ensures ToBytes(FromBytes(b)) == b
  {
    hide Decode;
    forall i | 0 <= i < |b| ensures ToBytes(FromBytes(b))[i] == b[i] {
      var k := i / 2;
      DecodedBytes(b[2 * k], b[2 * k + 1]);
      assert i == 2 * k + i % 2;
    }
  }

  lemma ScaledInjective(s: seq<Sample>, t: seq<Sample>)
    requires Scaled(s) == Scaled(t)
    ensures s == t
  {
    assert |s| == |Scaled(s)| == |Scaled(t)| == |t|;
    forall i | 0 <= i < |s| ensures s[i] == t[i] {
      assert Scaled(s)[i] == Scaled(t)[i];
    }
  }

  /** Two byte strings give the recogniser the same audio exactly when they agree on all
      their whole samples; every value lies in [-1, 1). */
  lemma ToFloatMeaning(a: Bytes, b: Bytes)
    ensures ToFloat(a) == ToFloat(b) <==>
            |a| / 2 == |b| / 2 && a[..|a| / 2 * 2] == b[..|b| / 2 * 2]
    ensures forall x :: x in ToFloat(a) ==> -1.0 <= x < 1.0
  {
    var wholeA, wholeB := a[..|a| / 2 * 2], b[..|b| / 2 * 2];
    assert ToFloat(a) == Scaled(FromBytes(wholeA));
    assert ToFloat(b) == Scaled(FromBytes(wholeB));
    if ToFloat(a) == ToFloat(b) {
      ScaledInjective(FromBytes(wholeA), FromBytes(wholeB));
      ToFromBytes(wholeA);
      ToFromBytes(wholeB);
    }
  }
}
