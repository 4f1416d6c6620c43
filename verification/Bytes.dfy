/** Octets, the optional value used for C's null pointers, and fixed-width unsigned
    integers as octet strings. */
module Bytes {

  type byte = x: int | 0 <= x < 256

  const TWO_TO_THE_32: nat := 0x1_0000_0000
  const TWO_TO_THE_64: nat := 0x1_0000_0000_0000_0000

  datatype Option<+T> = None | Some(value: T)

  /** An IP address in 16 octets. */
  type Quad = s: seq<byte> | |s| == 16 witness seq(16, i => 0)

  function Zeros(n: nat): (s: seq<byte>)
    ensures |s| == n
  {
    seq(n, _ => 0)
  }

  /** A new key adds one value to a map. */
  lemma AppendAssoc<T>(a: seq<T>, b: seq<T>, c: seq<T>)
    ensures a + (b + c) == (a + b) + c
  {
  }

  lemma ValuesInsert<K, V>(m: map<K, V>, k: K, v: V)
    requires k !in m
    ensures m[k := v].Values == m.Values + {v}
  {
    assert forall j :: j in m ==> m[k := v][j] == m[j];
    assert m[k := v][k] == v;
  }

  function Pow256(k: nat): (r: nat)
    ensures r > 0
  {
    if k == 0 then 1 else 256 * Pow256(k - 1)
  }

  lemma Pow256Words()
    ensures Pow256(1) == 256
    ensures Pow256(4) == TWO_TO_THE_32
    ensures Pow256(8) == TWO_TO_THE_64
  {
    assert Pow256(2) == 0x1_0000;
    assert Pow256(4) == 256 * (256 * Pow256(2));
    assert Pow256(6) == 256 * (256 * Pow256(4));
    assert Pow256(8) == 256 * (256 * Pow256(6));
  }

  /** The `k` low octets of `n`, most significant first. */
  function BigEndian(n: nat, k: nat): (b: seq<byte>)
    ensures |b| == k
  {
    if k == 0 then [] else BigEndian(n / 256, k - 1) + [n % 256]
  }

  /** The number an octet string denotes, most significant octet first. */
  function FromBigEndian(b: seq<byte>): (n: nat)
  {
    if b == [] then 0
    else FromBigEndian(b[..|b| - 1]) * 256 + b[|b| - 1] as int
  }

  /** Nothing is lost as long as the number fits the width. */
  lemma {:induction false} BigEndianRoundTrip(n: nat, k: nat)
    requires n < Pow256(k)
    ensures FromBigEndian(BigEndian(n, k)) == n
  {
    if k > 0 {
      assert n / 256 < Pow256(k - 1);
      BigEndianRoundTrip(n / 256, k - 1);
      var b := BigEndian(n, k);
      assert b[..k - 1] == BigEndian(n / 256, k - 1);
    }
  }
}
