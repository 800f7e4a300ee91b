/** Facts about sequences that proofs are better off stating than rediscovering. */
module Seqs {
  import opened Words

  /** Byte strings end to end. */
  function Concat(parts: seq<seq<uint8>>): seq<uint8> {
    if parts == [] then [] else Concat(parts[..|parts| - 1]) + parts[|parts| - 1]
  }

  lemma {:induction false} ConcatGrows(parts: seq<seq<uint8>>, i: nat, j: nat)
    requires i <= j <= |parts|
    ensures |Concat(parts[..i])| <= |Concat(parts[..j])|
    decreases j
  {
    if i < j {
      ConcatGrows(parts, i, j - 1);
      assert parts[..j][..j - 1] == parts[..j - 1];
    }
  }

  lemma Assoc<T>(a: seq<T>, b: seq<T>, c: seq<T>)
    ensures a + (b + c) == (a + b) + c
  {
  }

  lemma JoinSlices<T>(s: seq<T>, a: nat, b: nat, c: nat)
    requires a <= b <= c <= |s|
    ensures s[a..b] + s[b..c] == s[a..c]
  {
  }

  lemma SliceAt<T>(s: seq<T>, a: nat, b: nat, k: nat)
    requires a <= b <= |s| && k < b - a
    ensures s[a..b][k] == s[a + k]
  {
  }

  lemma SliceOfDrop<T>(s: seq<T>, o: nat, a: nat, b: nat)
    requires o + a <= o + b <= |s|
    ensures s[o..][a..b] == s[o + a..o + b]
  {
  }

  lemma SliceOfTake<T>(s: seq<T>, n: nat, a: nat, b: nat)
    requires a <= b <= n <= |s|
    ensures s[..n][a..b] == s[a..b]
  {
  }

  lemma DropOfDrop<T>(s: seq<T>, o: nat, a: nat)
    requires o + a <= |s|
    ensures s[o..][a..] == s[o + a..]
  {
  }
}
