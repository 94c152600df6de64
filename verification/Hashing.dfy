/**
SHA3-256 as any function with 32-byte output, and the encodings hashed with it
(`src/crypto/hash.rs`). Nothing else is assumed about the function: results that rest on
collision resistance exhibit two different strings, both really hashed, with one digest.
*/
module Hashing {
  import opened Common

  type Sha3 = Bytes -> Bytes

  /** Digests have 32 bytes. */
  ghost predicate Digest32(h: Sha3)
  {
    forall x :: |h(x)| == 32
  }

  predicate Collides(h: Sha3, x: Bytes, y: Bytes)
  {
    x != y && h(x) == h(y)
  }

  /** Some string of `xs` and a different string of `ys` have the same digest. */
  ghost predicate Collision(h: Sha3, xs: set<Bytes>, ys: set<Bytes>)
  {
    exists x, y {:trigger Collides(h, x, y)} :: x in xs && y in ys && Collides(h, x, y)
  }

  lemma CollisionGrows(h: Sha3, xs: set<Bytes>, ys: set<Bytes>, xs': set<Bytes>, ys': set<Bytes>)
    requires Collision(h, xs, ys) && xs <= xs' && ys <= ys'
    ensures Collision(h, xs', ys')
  {
    var x, y :| x in xs && y in ys && Collides(h, x, y);
    assert x in xs' && y in ys';
  }

  /** Two hashed strings with one digest are equal or collide. */
  lemma SameDigest(h: Sha3, x: Bytes, y: Bytes, xs: set<Bytes>, ys: set<Bytes>)
    requires h(x) == h(y) && x in xs && y in ys
    ensures x == y || Collision(h, xs, ys)
  {
    assert x == y || Collides(h, x, y);
  }

  /** `width` bytes, least significant first. */
  function LittleEndian(n: nat, width: nat): (b: Bytes)
    ensures |b| == width
  {
    if width == 0 then [] else [(n % 256) as bv8] + LittleEndian(n / 256, width - 1)
  }

  function FromLittleEndian(b: Bytes): nat
  {
    if b == [] then 0 else b[0] as nat + 256 * FromLittleEndian(b[1..])
  }

  /** How many values `width` bytes can hold. */
  function ByteRange(width: nat): nat
  {
    if width == 0 then 1 else 256 * ByteRange(width - 1)
  }

  lemma ByteValue(n: int)
    requires 0 <= n < 256
    ensures (n as bv8) as int == n
  {
    if n < 32 {
    } else if n < 64 {
    } else if n < 96 {
    } else if n < 128 {
    } else if n < 160 {
    } else if n < 192 {
    } else {
    }
  }

  /** Reading back what was written, for values that fit. */
  lemma {:induction false} LittleEndianInverse(n: nat, width: nat)
    requires n < ByteRange(width)
    ensures FromLittleEndian(LittleEndian(n, width)) == n
  {
    if width > 0 {
      var low, high := n % 256, n / 256;
      assert n == low + 256 * high;
      var rest := LittleEndian(high, width - 1);
      LittleEndianInverse(high, width - 1);
      ByteValue(low);
      assert LittleEndian(n, width) == [low as bv8] + rest;
      assert ([low as bv8] + rest)[1..] == rest;
    }
  }

  function Concat(parts: seq<Bytes>): Bytes
  {
    if parts == [] then [] else parts[0] + Concat(parts[1..])
  }

  /** What `sha3_hash_domain` hashes: the domain's length and name, then the parts. */
  function DomainInput(domain: Bytes, parts: seq<Bytes>): Bytes
  {
    DomainPrefix(domain) + Concat(parts)
  }

  function DomainPrefix(domain: Bytes): (p: Bytes)
    ensures |p| == 4 + |domain|
  {
    LittleEndian(|domain|, 4) + domain
  }

  lemma ConcatTwo(x: Bytes, y: Bytes)
    ensures Concat([x, y]) == x + y
  {
    assert [x, y][1..] == [y] && [y][1..] == [];
    assert Concat([y]) == y + Concat([]);
  }
}
