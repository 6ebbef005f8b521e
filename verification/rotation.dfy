/**
  Sequence reshaping used by the circle method: reversal of the right half
  of the lineup, and the right rotation by one of the non-fixed players.
*/
module Rotation {

  /** The elements of `s` in reverse order. */
  function Reverse<T>(s: seq<T>): (r: seq<T>)
    ensures |r| == |s|
    ensures forall i :: 0 <= i < |s| ==> r[i] == s[|s| - 1 - i]
  {
    if s == [] then [] else Reverse(s[1..]) + [s[0]]
  }

  /** One right rotation: the last element moves to the front. */
  function RotateRight<T>(s: seq<T>): (r: seq<T>)
    requires |s| > 0
    ensures |r| == |s|
    ensures r[0] == s[|s| - 1]
    ensures forall j :: 0 < j < |s| ==> r[j] == s[j - 1]
  {
    [s[|s| - 1]] + s[..|s| - 1]
  }

  /** `s` after `k` right rotations. */
  function RotateTimes<T>(s: seq<T>, k: nat): (r: seq<T>)
    requires |s| > 0
    ensures |r| == |s|
    decreases k
  {
    if k == 0 then s else RotateTimes(RotateRight(s), k - 1)
  }

  /** One rotation sends the element at `j - 1` (cyclically) to `j`. */
  lemma RotateRightIndex<T>(s: seq<T>, j: nat)
    requires j < |s|
    ensures RotateRight(s)[j] == s[(j - 1) % |s|]
  {
  }

  /** After `k` rotations the element at `j` came from `(j - k) mod |s|`. */
  lemma {:induction false} RotateTimesIndex<T>(s: seq<T>, k: nat, j: nat)
    requires k < |s| && j < |s|
    ensures RotateTimes(s, k)[j] == s[(j - k) % |s|]
    decreases k
  {
    if k > 0 {
      var m := |s|;
      var j' := (j - k + 1) % m;
      RotateTimesIndex(RotateRight(s), k - 1, j);
      RotateRightIndex(s, j');
      ModSmall(j - k + 1, m);
      ModSmall(j' - 1, m);
      ModSmall(j - k, m);
    }
  }

  /** A rotation is a permutation. */
  lemma RotateRightPermutes<T>(s: seq<T>)
    requires |s| > 0
    ensures multiset(RotateRight(s)) == multiset(s)
  {
    assert s == s[..|s| - 1] + [s[|s| - 1]];
  }

  /** Any number of rotations is a permutation. */
  lemma {:induction false} RotateTimesPermutes<T>(s: seq<T>, k: nat)
    requires |s| > 0
    ensures multiset(RotateTimes(s, k)) == multiset(s)
    decreases k
  {
    if k > 0 {
      RotateRightPermutes(s);
      RotateTimesPermutes(RotateRight(s), k - 1);
    }
  }

  /** Euclidean remainder of a value less than one modulus away from [0, m). */
  lemma ModSmall(v: int, m: int)
    requires 0 < m && -m <= v < 2 * m
    ensures v % m == if v < 0 then v + m else if v < m then v else v - m
  {
  }
}
