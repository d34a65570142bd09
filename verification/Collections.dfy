/** What several components use of values and sequences. */
module Collections {

  datatype Option<T> = None | Some(value: T)

  /** n times x. */
  function Repeat<T>(x: T, n: nat): (s: seq<T>)
    ensures |s| == n && forall i :: 0 <= i < n ==> s[i] == x
  {
    seq(n, _ => x)
  }

  /** The sequence without its element j. */
  function Without<T>(l: seq<T>, j: nat): seq<T>
    requires j < |l|
  {
    l[..j] + l[j + 1..]
  }

  /** The place of the first element from i on that satisfies p; past the end if none. */
  function First<T>(s: seq<T>, p: T -> bool, i: nat): (r: nat)
    requires i <= |s|
    ensures i <= r <= |s| && (r < |s| ==> p(s[r]))
    ensures forall k :: i <= k < r ==> !p(s[k])
    decreases |s| - i
  {
    if i == |s| || p(s[i]) then i else First(s, p, i + 1)
  }
}
