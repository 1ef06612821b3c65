/** Fixed-width integers as bytes: big-endian for frames and DNS, little-endian two's
    complement for timestamps. */
module Numbers {
  import opened Foundations

  function Pow256(k: nat): nat
  {
    if k == 0 then 1 else 0x100 * Pow256(k - 1)
  }

  function BigEndian(n: nat, width: nat): (b: Bytes)
    ensures |b| == width
  {
    if width == 0 then [] else BigEndian(n / 0x100, width - 1) + [n % 0x100]
  }

  function FromBigEndian(b: Bytes): nat
  {
    if b == [] then 0 else FromBigEndian(b[..|b| - 1]) * 0x100 + b[|b| - 1]
  }

  function LittleEndian(n: nat, width: nat): (b: Bytes)
    ensures |b| == width
  {
    if width == 0 then [] else [n % 0x100] + LittleEndian(n / 0x100, width - 1)
  }

  function FromLittleEndian(b: Bytes): nat
  {
    if b == [] then 0 else b[0] + 0x100 * FromLittleEndian(b[1..])
  }

  lemma {:induction false} BigEndianReadsBack(n: nat, width: nat)
    requires n < Pow256(width)
    ensures FromBigEndian(BigEndian(n, width)) == n
  {
    if width > 0 {
      BigEndianReadsBack(n / 0x100, width - 1);
      assert BigEndian(n, width)[..width - 1] == BigEndian(n / 0x100, width - 1);
    }
  }

  lemma {:induction false} BigEndianCanonical(b: Bytes)
    ensures FromBigEndian(b) < Pow256(|b|)
    ensures BigEndian(FromBigEndian(b), |b|) == b
  {
    if b != [] {
      var init, last := b[..|b| - 1], b[|b| - 1];
      BigEndianCanonical(init);
      var n := FromBigEndian(b);
      assert n / 0x100 == FromBigEndian(init) && n % 0x100 == last;
      assert b == init + [last];
    }
  }

  lemma {:induction false} LittleEndianReadsBack(n: nat, width: nat)
    requires n < Pow256(width)
    ensures FromLittleEndian(LittleEndian(n, width)) == n
  {
    if width > 0 {
      LittleEndianReadsBack(n / 0x100, width - 1);
      assert LittleEndian(n, width)[1..] == LittleEndian(n / 0x100, width - 1);
    }
  }

  /** Two and four bytes, most significant first. */
  lemma BigEndianReadsAs(b: Bytes)
    ensures |b| == 2 ==> FromBigEndian(b) == 0x100 * (b[0] as int) + b[1] as int
    ensures |b| == 4 ==>
      FromBigEndian(b) == 0x100_0000 * (b[0] as int) + 0x1_0000 * (b[1] as int) + 0x100 * (b[2] as int) + b[3] as int
  {
    if |b| == 2 {
      FromBigEndianOne(b[..1]);
    } else if |b| == 4 {
      var c := b[..3];
      FromBigEndianOne(b[..1]);
      assert c[..2][..1] == b[..1] && c[..2] == b[..2] && b[..2][..1] == b[..1];
      assert FromBigEndian(b[..2]) == 0x100 * (b[0] as int) + b[1] as int;
      assert FromBigEndian(c) == FromBigEndian(b[..2]) * 0x100 + b[2] as int;
    }
  }

  lemma FromBigEndianOne(b: Bytes)
    requires |b| == 1
    ensures FromBigEndian(b) == b[0]
  {
    assert b[..0] == [];
  }

  const TWO_64: nat := 0x1_0000_0000_0000_0000
  const TWO_63: nat := 0x8000_0000_0000_0000

  type i64 = x: int | -0x8000_0000_0000_0000 <= x < 0x8000_0000_0000_0000

  /** Two's complement, least significant byte first. */
  function TimestampBytes(ts: i64): (b: Bytes)
    ensures |b| == 8
  {
    LittleEndian(if ts < 0 then ts + TWO_64 else ts, 8)
  }

  lemma TimestampBytesInjective(a: i64, b: i64)
    requires TimestampBytes(a) == TimestampBytes(b)
    ensures a == b
  {
    Pow256At8();
    LittleEndianReadsBack(if a < 0 then a + TWO_64 else a, 8);
    LittleEndianReadsBack(if b < 0 then b + TWO_64 else b, 8);
  }

  /** A time's eight bytes are its value, least significant first; a negative one's its complement. */
  lemma TimestampReadsAs(ts: i64)
    ensures var b := TimestampBytes(ts);
      (if ts < 0 then ts + TWO_64 else ts) ==
        (b[0] as int) + 0x100 * (b[1] as int) + 0x1_0000 * (b[2] as int) + 0x100_0000 * (b[3] as int)
        + 0x1_0000_0000 * (b[4] as int) + 0x100_0000_0000 * (b[5] as int)
        + 0x1_0000_0000_0000 * (b[6] as int) + 0x100_0000_0000_0000 * (b[7] as int)
  {
    var b := TimestampBytes(ts);
    Pow256At8();
    LittleEndianReadsBack(if ts < 0 then ts + TWO_64 else ts, 8);
    FromLittleEndianFour(b[4..]);
    assert b[1..][1..][1..][1..] == b[4..];
    hide LittleEndian;
    assert FromLittleEndian(b) == b[0] as int + 0x100 * FromLittleEndian(b[1..]);
    assert FromLittleEndian(b[1..]) == b[1] as int + 0x100 * FromLittleEndian(b[1..][1..]);
    assert FromLittleEndian(b[1..][1..]) == b[2] as int + 0x100 * FromLittleEndian(b[1..][1..][1..]);
    assert FromLittleEndian(b[1..][1..][1..]) == b[3] as int + 0x100 * FromLittleEndian(b[4..]);
  }

  lemma FromLittleEndianFour(b: Bytes)
    requires |b| == 4
    ensures FromLittleEndian(b) == (b[0] as int) + 0x100 * (b[1] as int) + 0x1_0000 * (b[2] as int) + 0x100_0000 * (b[3] as int)
  {
    assert FromLittleEndian(b) == b[0] as int + 0x100 * FromLittleEndian(b[1..]);
    assert FromLittleEndian(b[1..]) == b[1] as int + 0x100 * FromLittleEndian(b[1..][1..]);
    assert FromLittleEndian(b[1..][1..]) == b[2] as int + 0x100 * FromLittleEndian(b[1..][1..][1..]);
    assert FromLittleEndian(b[1..][1..][1..]) == b[3] as int + 0x100 * FromLittleEndian(b[1..][1..][1..][1..]);
  }

  lemma Pow256At8()
    ensures Pow256(8) == TWO_64
  {
    assert Pow256(8) == 0x100 * Pow256(7) && Pow256(7) == 0x100 * Pow256(6) && Pow256(6) == 0x100 * Pow256(5)
      && Pow256(5) == 0x100 * Pow256(4) && Pow256(4) == 0x100 * Pow256(3) && Pow256(3) == 0x100 * Pow256(2)
      && Pow256(2) == 0x100 * Pow256(1) && Pow256(1) == 0x100 * Pow256(0);
  }
}
