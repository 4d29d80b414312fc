/** Base-256 digit strings: fixed-width big and little endian, and the shortest
    big-endian form that RLP uses for integers. */
module Digits {
  import opened Prelude

  function Pow256(k: nat): (p: nat)
    ensures p > 0
  {
    if k == 0 then 1 else 256 * Pow256(k - 1)
  }

  function BigEndian(n: nat, k: nat): (b: Bytes)
    ensures |b| == k
  {
    if k == 0 then [] else BigEndian(n / 256, k - 1) + [n % 256]
  }

  function BigValue(b: Bytes): nat {
    if b == [] then 0 else BigValue(b[..|b| - 1]) * 256 + b[|b| - 1]
  }

  function LittleEndian(n: nat, k: nat): (b: Bytes)
    ensures |b| == k
  {
    if k == 0 then [] else [n % 256] + LittleEndian(n / 256, k - 1)
  }

  function LittleValue(b: Bytes): nat {
    if b == [] then 0 else b[0] + 256 * LittleValue(b[1..])
  }

  /** The shortest big-endian digit string; zero is the empty string. */
  function Shortest(n: nat): Bytes {
    if n == 0 then [] else Shortest(n / 256) + [n % 256]
  }

  lemma PowersOf256()
    ensures Pow256(8) == U64_BOUND && Pow256(4) == U32_BOUND
  {
    assert Pow256(4) == 0x1_0000_0000;
    assert Pow256(8) == 256 * (256 * (256 * (256 * Pow256(4))));
  }

  lemma {:induction false} BigEndianValue(n: nat, k: nat)
    requires n < Pow256(k)
    ensures BigValue(BigEndian(n, k)) == n
  {
    if k > 0 {
      BigEndianValue(n / 256, k - 1);
      var b := BigEndian(n, k);
      assert b[..|b| - 1] == BigEndian(n / 256, k - 1);
    }
  }

  lemma {:induction false} BigValueDigits(b: Bytes)
    ensures BigValue(b) < Pow256(|b|) && BigEndian(BigValue(b), |b|) == b
  {
    if b != [] {
      BigValueDigits(b[..|b| - 1]);
      assert b == b[..|b| - 1] + [b[|b| - 1]];
    }
  }

  lemma {:induction false} LittleEndianValue(n: nat, k: nat)
    requires n < Pow256(k)
    ensures LittleValue(LittleEndian(n, k)) == n
  {
    if k > 0 {
      LittleEndianValue(n / 256, k - 1);
    }
  }

  lemma {:induction false} ShortestValue(n: nat, k: nat)
    requires n < Pow256(k)
    ensures BigValue(Shortest(n)) == n && |Shortest(n)| <= k
    ensures n > 0 ==> Shortest(n) != [] && Shortest(n)[0] != 0
  {
    if n > 0 {
      if k == 0 { assert false; }
      ShortestValue(n / 256, k - 1);
      var b := Shortest(n);
      assert b[..|b| - 1] == Shortest(n / 256);
    }
  }

  lemma {:induction false} ShortestDigits(b: Bytes)
    requires b != [] ==> b[0] != 0
    ensures Shortest(BigValue(b)) == b
    ensures b != [] ==> BigValue(b) > 0
  {
    if b != [] {
      ShortestDigits(b[..|b| - 1]);
      assert b == b[..|b| - 1] + [b[|b| - 1]];
    }
  }
}
