/** The Bloom filter of an SST (`src/store/lsm/sst.rs`): 10 bits per key, three hashes. */
module Bloom {
  import opened Keys
  import opened Codec

  const HASHES: nat := 3

  /** `1 << (i % 8)` */
  function Mask(i: nat): (m: bv8)
  {
    var bit := i % 8;
    if bit == 0 then 1 else if bit == 1 then 2 else if bit == 2 then 4 else if bit == 3 then 8
    else if bit == 4 then 16 else if bit == 5 then 32 else if bit == 6 then 64 else 128
  }

  predicate HasBit(byte: bv8, bit: nat)
  {
    byte & Mask(bit) != 0
  }

  function WithBit(byte: bv8, bit: nat): (r: bv8)
  {
    byte | Mask(bit)
  }

  predicate BitSet(bits: seq<bv8>, bit: nat)
  {
    bit / 8 < |bits| && HasBit(bits[bit / 8], bit)
  }

  function BitOf(env: Platform, key: Key, i: nat, m: nat): (bit: nat)
    requires m > 0
    ensures bit < m
  {
    env.hash(key, i) % m
  }

  /** Every bit that key `key` hashes to is set. */
  predicate Holds(env: Platform, bits: seq<bv8>, m: nat, key: Key, k: nat)
    requires m > 0
  {
    forall i :: 0 <= i < k ==> BitSet(bits, BitOf(env, key, i, m))
  }

  function SetBit(bits: seq<bv8>, bit: nat): (r: seq<bv8>)
    requires bit / 8 < |bits|
    ensures |r| == |bits|
  {
    bits[bit / 8 := WithBit(bits[bit / 8], bit)]
  }

  /** Two bits share a mask exactly when they have the same place in their byte. */
  lemma MasksMeet(a: nat, b: nat)
    ensures Mask(a) & Mask(b) != 0 <==> a % 8 == b % 8
  {
  }

  lemma OrHits(a: bv8, b: bv8, mask: bv8)
    ensures (a | b) & mask != 0 <==> a & mask != 0 || b & mask != 0
  {
  }

  lemma ByteHit(byte: bv8, bit: nat, x: nat)
    ensures HasBit(WithBit(byte, bit), x) <==> HasBit(byte, x) || bit % 8 == x % 8
  {
    hide Mask;
    OrHits(byte, Mask(bit), Mask(x));
    MasksMeet(bit, x);
  }

  lemma SamePlace(a: nat, b: nat)
    ensures a / 8 == b / 8 && a % 8 == b % 8 <==> a == b
  {
    assert a == 8 * (a / 8) + a % 8 && b == 8 * (b / 8) + b % 8;
  }

  /** Setting a bit sets that bit and no other. */
  lemma SetBitIs(bits: seq<bv8>, bit: nat, x: nat)
    requires bit / 8 < |bits|
    ensures BitSet(SetBit(bits, bit), x) <==> BitSet(bits, x) || x == bit
  {
    hide Mask, HasBit, WithBit;
    SamePlace(bit, x);
    var i, j := bit / 8, x / 8;
    if i == j {
      ByteHit(bits[i], bit, x);
    }
  }

  /** Some of the first `n` hashes of the key names the bit. */
  ghost predicate Named(env: Platform, key: Key, m: nat, n: nat, bit: nat)
    requires m > 0
  {
    exists i :: 0 <= i < n && env.hash(key, i) % m == bit
  }

  /** Sets exactly the bits one key hashes to. */
  method SetKey(env: Platform, bits: seq<bv8>, m: nat, key: Key) returns (bits': seq<bv8>)
    requires 0 < m <= 8 * |bits|
    ensures |bits'| == |bits| && Holds(env, bits', m, key, HASHES)
    ensures forall bit :: BitSet(bits', bit) <==> BitSet(bits, bit) || Named(env, key, m, 3, bit)
  {
    hide BitSet, SetBit;
    bits' := bits;
    for i := 0 to HASHES
      invariant |bits'| == |bits|
      invariant forall bit :: BitSet(bits', bit) <==> BitSet(bits, bit) || Named(env, key, m, i, bit)
    {
      var bit := BitOf(env, key, i, m);
      forall x
        ensures BitSet(SetBit(bits', bit), x) <==> BitSet(bits, x) || Named(env, key, m, i + 1, x)
      {
        SetBitIs(bits', bit, x);
      }
      bits' := SetBit(bits', bit);
    }
  }

  /** The bits of all keys. */
  ghost predicate NamedByAny(env: Platform, keys: seq<Key>, m: nat, n: nat, bit: nat)
    requires m > 0 && n <= |keys|
  {
    exists j :: 0 <= j < n && Named(env, keys[j], m, 3, bit)
  }

  lemma NothingSet(n: nat, bit: nat)
    ensures !BitSet(seq(n, _ => 0), bit)
  {
  }

  /** Ten bits per key, of which exactly those are set that some key hashes to: no key is ever denied. */
  method BuildBloom(env: Platform, keys: seq<Key>) returns (bits: seq<bv8>, m: nat)
    ensures m == 10 * (if keys == [] then 1 else |keys|) && |bits| == (m + 7) / 8
    ensures forall bit :: BitSet(bits, bit) <==> NamedByAny(env, keys, m, |keys|, bit)
    ensures forall i :: 0 <= i < |keys| ==> Holds(env, bits, m, keys[i], HASHES)
  {
    hide BitSet, Named;
    var n := if |keys| > 1 then |keys| else 1;
    m := n * 10;
    bits := seq((m + 7) / 8, _ => 0);
    forall bit
      ensures !BitSet(bits, bit)
    {
      NothingSet((m + 7) / 8, bit);
    }
    for i := 0 to |keys|
      invariant |bits| == (m + 7) / 8
      invariant forall bit :: BitSet(bits, bit) <==> NamedByAny(env, keys, m, i, bit)
    {
      bits := SetKey(env, bits, m, keys[i]);
    }
    forall i | 0 <= i < |keys|
      ensures Holds(env, bits, m, keys[i], HASHES)
    {
      KeyPasses(env, bits, m, keys, i);
    }
  }

  lemma KeyPasses(env: Platform, bits: seq<bv8>, m: nat, keys: seq<Key>, i: nat)
    requires m > 0 && i < |keys| && forall bit :: BitSet(bits, bit) <==> NamedByAny(env, keys, m, |keys|, bit)
    ensures Holds(env, bits, m, keys[i], HASHES)
  {
    hide BitSet;
    forall h | 0 <= h < HASHES
      ensures BitSet(bits, BitOf(env, keys[i], h, m))
    {
      assert Named(env, keys[i], m, 3, BitOf(env, keys[i], h, m));
    }
  }
}
