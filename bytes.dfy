/** Byte strings, as Go's []byte, and the search of package bytes used by the markup repair. */
module Bytes {

  newtype Byte = b: int | 0 <= b < 256

  type Bytes = seq<Byte>

  /** `sep` occurs in `s` starting at position `i`. */
  predicate OccursAt(s: Bytes, sep: Bytes, i: int)
  {
    0 <= i && i + |sep| <= |s| && s[i..i + |sep|] == sep
  }

  /** bytes.Index: the first position at or after `from` where `sep` occurs, or -1. */
  function IndexFrom(s: Bytes, sep: Bytes, from: nat): (i: int)
    requires from <= |s|
    ensures i == -1 || from <= i <= |s| - |sep|
    ensures i == -1 <==> forall p :: from <= p <= |s| ==> !OccursAt(s, sep, p)
    ensures i != -1 ==> OccursAt(s, sep, i) && forall p :: from <= p < i ==> !OccursAt(s, sep, p)
    decreases |s| - from
  {
    if from + |sep| > |s| then
      assert forall p :: from <= p <= |s| ==> !OccursAt(s, sep, p);
      -1
    else if s[from..from + |sep|] == sep then
      assert OccursAt(s, sep, from);
      from
    else if from == |s| then
      -1
    else
      IndexFrom(s, sep, from + 1)
  }

  /** bytes.Index(s, sep): the first position where `sep` occurs in `s`, or -1 when it does not occur. */
  function Index(s: Bytes, sep: Bytes): (i: int)
    ensures i == -1 || 0 <= i <= |s| - |sep|
    ensures i == -1 <==> forall p :: 0 <= p <= |s| ==> !OccursAt(s, sep, p)
    ensures i != -1 ==> OccursAt(s, sep, i) && forall p :: 0 <= p < i ==> !OccursAt(s, sep, p)
  {
    IndexFrom(s, sep, 0)
  }
}
