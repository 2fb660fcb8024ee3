/** Byte sequences: overwriting a range, and agreeing outside one. */
module ByteStore {

  /** A slice, cut in two. */
  lemma CutSlice(s: seq<bv8>, lo: nat, mid: nat, hi: nat)
    requires lo <= mid <= hi <= |s|
    ensures s[lo..hi] == s[lo..mid] + s[mid..hi]
  {
  }

  lemma SameCut(a: seq<bv8>, b: seq<bv8>, c: seq<bv8>, d: seq<bv8>)
    requires a + b == c + d && |a| == |c|
    ensures a == c && b == d
  {
    assert a == (a + b)[..|a|] && c == (c + d)[..|c|];
    assert b == (a + b)[|a|..] && d == (c + d)[|c|..];
  }

  /** A stretch of RAM, cut in two. */
  lemma CutRam(a: array<bv8>, lo: nat, mid: nat, hi: nat)
    requires lo <= mid <= hi <= a.Length
    ensures a[lo..hi] == a[lo..mid] + a[mid..hi]
  {
  }

  /** s with the bytes from `off` on overwritten by d. */
  function Splice(s: seq<bv8>, off: nat, d: seq<bv8>): (r: seq<bv8>)
    requires off + |d| <= |s|
    ensures |r| == |s|
  {
    seq(|s|, i requires 0 <= i < |s| => if off <= i < off + |d| then d[i - off] else s[i])
  }

  ghost predicate SameOutside(s: seq<bv8>, t: seq<bv8>, lo: nat, hi: nat) {
    |s| == |t| && forall i :: 0 <= i < |s| && !(lo <= i < hi) ==> s[i] == t[i]
  }

  /** Whatever an earlier attempt left inside the range, a later full write decides it. */
  lemma SpliceForgets(s: seq<bv8>, t: seq<bv8>, off: nat, d: seq<bv8>)
    requires off + |d| <= |s| && SameOutside(s, t, off, off + |d|)
    ensures Splice(t, off, d) == Splice(s, off, d)
  {
  }

  /** Two adjacent writes are one. */
  lemma SpliceJoin(s: seq<bv8>, off: nat, d: seq<bv8>, e: seq<bv8>)
    requires off + |d| + |e| <= |s|
    ensures Splice(Splice(s, off, d), off + |d|, e) == Splice(s, off, d + e)
  {
  }

  /** Patching the front of a block that was read and writing the block back changes only the patch. */
  lemma SplicePatch(s: seq<bv8>, off: nat, d: seq<bv8>, size: nat)
    requires |d| <= size && off + size <= |s|
    ensures Splice(s, off, d + s[off + |d|..off + size]) == Splice(s, off, d)
  {
  }

  /** The bytes went to the card, and nothing else changed. */
  ghost predicate Written(before: seq<bv8>, after: seq<bv8>, offset: nat, bytes: seq<bv8>) {
    offset + |bytes| <= |before| && after == Splice(before, offset, bytes)
  }
}
