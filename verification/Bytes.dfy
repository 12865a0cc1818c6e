/** Bytes, digests and the byte-level loops of js/core/bytes.js. */
module Bytes {
  newtype byte = x: int | 0 <= x < 256

  type Bytes = seq<byte>

  type Digest = d: Bytes | |d| == 32 witness seq(32, _ => 0)

  /** SHA-256 is any function from byte strings to 32 bytes; nothing says it is injective. */
  type Sha = Bytes -> Digest

  predicate Collide(sha: Sha, x: Bytes, y: Bytes) {
    x != y && sha(x) == sha(y)
  }

  /**
   * A collision between a string of `a` and a string of `b`.  The two sets are always the strings that two
   * named computations hash, so this is a statement about those finitely many strings.
   */
  ghost predicate Clash(sha: Sha, a: set<Bytes>, b: set<Bytes>) {
    exists x, y :: x in a && y in b && Collide(sha, x, y)
  }

  // ----- concatAll -----

  function Join(parts: seq<Bytes>): Bytes {
    if parts == [] then [] else parts[0] + Join(parts[1..])
  }

  lemma JoinSplitsAt(front: seq<Bytes>, back: seq<Bytes>)
    ensures Join(front + back) == Join(front) + Join(back)
  {
    if front == [] {
      assert front + back == back;
    } else {
      assert (front + back)[1..] == front[1..] + back;
      JoinSplitsAt(front[1..], back);
    }
  }

  method ConcatAll(arrays: seq<Bytes>) returns (bytes: Bytes)
    ensures bytes == Join(arrays)
  {
    var total := 0;
    for k := 0 to |arrays|
      invariant total == |Join(arrays[..k])|
    {
      assert arrays[..k + 1] == arrays[..k] + [arrays[k]];
      JoinSplitsAt(arrays[..k], [arrays[k]]);
      total := total + |arrays[k]|;
    }
    assert arrays[..|arrays|] == arrays;
    var out := new byte[total];
    var offset := 0;
    for k := 0 to |arrays|
      invariant offset == |Join(arrays[..k])| <= total
      invariant out[..offset] == Join(arrays[..k])
    {
      JoinSplitsAt(arrays[..k], [arrays[k]]);
      JoinSplitsAt(arrays[..k + 1], arrays[k + 1..]);
      assert arrays[..k + 1] == arrays[..k] + [arrays[k]];
      assert arrays == arrays[..k + 1] + arrays[k + 1..];
      var a := arrays[k];
      forall i | 0 <= i < |a| {
        out[offset + i] := a[i];
      }
      offset := offset + |a|;
    }
    return out[..];
  }

  // ----- equalBytes -----

  /** JavaScript's `^` and `|` on non-negative integers, bit by bit. */
  function Xor(x: nat, y: nat): nat {
    if x == 0 && y == 0 then 0 else (x + y) % 2 + 2 * Xor(x / 2, y / 2)
  }

  function Or(x: nat, y: nat): nat {
    if x == 0 && y == 0 then 0 else (if x % 2 + y % 2 > 0 then 1 else 0) + 2 * Or(x / 2, y / 2)
  }

  lemma {:induction false} XorIsZeroOnlyOnEqual(x: nat, y: nat)
    ensures Xor(x, y) == 0 <==> x == y
  {
    if x != 0 || y != 0 {
      XorIsZeroOnlyOnEqual(x / 2, y / 2);
    }
  }

  lemma {:induction false} OrIsZeroOnlyOnZeros(x: nat, y: nat)
    ensures Or(x, y) == 0 <==> x == 0 && y == 0
  {
    if x != 0 || y != 0 {
      OrIsZeroOnlyOnZeros(x / 2, y / 2);
    }
  }

  method EqualBytes(a: Bytes, b: Bytes) returns (equal: bool)
    ensures equal <==> a == b
  {
    if |a| != |b| {
      return false;
    }
    var diff: nat := 0;
    for i := 0 to |a|
      invariant diff == 0 <==> a[..i] == b[..i]
    {
      XorIsZeroOnlyOnEqual(a[i] as nat, b[i] as nat);
      OrIsZeroOnlyOnZeros(diff, Xor(a[i] as nat, b[i] as nat));
      assert a[..i + 1] == a[..i] + [a[i]] && b[..i + 1] == b[..i] + [b[i]];
      diff := Or(diff, Xor(a[i] as nat, b[i] as nat));
    }
    assert a[..|a|] == a && b[..|b|] == b;
    return diff == 0;
  }
}
