/** Searching a string for a character, as String.prototype.indexOf and lastIndexOf do. */
module Strings {
  import opened Wrappers

  /** The first position at or after `from` that holds `c`, if any. */
  function IndexOf(s: string, c: char, from: nat): (r: Option<nat>)
    decreases |s| - from
    ensures r.Some? ==> from <= r.value < |s| && s[r.value] == c
    ensures forall k | from <= k < |s| && (r.None? || k < r.value) :: s[k] != c
  {
    if from >= |s| then None
    else if s[from] == c then Some(from)
    else IndexOf(s, c, from + 1)
  }

  /** The last position of `s` that holds `c`, if any. */
  function LastIndexOf(s: string, c: char): (r: Option<nat>)
    ensures r.Some? ==> r.value < |s| && s[r.value] == c
    ensures forall k | 0 <= k < |s| && (r.None? || r.value < k) :: s[k] != c
  {
    if s == [] then None
    else if s[|s| - 1] == c then Some(|s| - 1)
    else LastIndexOf(s[..|s| - 1], c)
  }
}
