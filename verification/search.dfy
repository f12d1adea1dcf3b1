/** Positional searches over sequences: the first element satisfying a
    predicate (Python's `tuple.index`, `next(gen, None)` and a `for ... break`
    scan all have this meaning) and the last occurrence of an element
    (`str.rsplit(sep, 1)` and `str.rfind`). */
module Search {
  import opened Wrappers

  /** The index of the first element of `s` satisfying `p`, or `None`. */
  function FirstWhere<T>(s: seq<T>, p: T -> bool): (r: Option<nat>)
    ensures r.Some? ==> r.value < |s| && p(s[r.value])
    ensures r.Some? ==> forall k | 0 <= k < r.value :: !p(s[k])
    ensures r.None? <==> forall k | 0 <= k < |s| :: !p(s[k])
  {
    if |s| == 0 then None
    else if p(s[0]) then Some(0)
    else
      match FirstWhere(s[1..], p)
      case None => None
      case Some(i) => Some(i + 1)
  }

  /** The first-match contract determines the answer: an index that satisfies
      `p` and is preceded only by elements that do not is what `FirstWhere`
      returns. */
  lemma FirstWhereUnique<T>(s: seq<T>, p: T -> bool, i: nat)
    requires i < |s| && p(s[i])
    requires forall k | 0 <= k < i :: !p(s[k])
    ensures FirstWhere(s, p) == Some(i)
  {
  }

  /** Scanning a longer sequence: a match in the prefix wins; otherwise the
      new last element is tried. */
  lemma FirstWhereSnoc<T>(s: seq<T>, x: T, p: T -> bool)
    ensures FirstWhere(s + [x], p) ==
      if FirstWhere(s, p).Some? then FirstWhere(s, p)
      else if p(x) then Some(|s|)
      else None
  {
    var t := s + [x];
    var r := FirstWhere(s, p);
    if r.Some? {
      FirstWhereUnique(t, p, r.value);
    } else if p(x) {
      FirstWhereUnique(t, p, |s|);
    } else {
      assert forall k | 0 <= k < |t| :: !p(t[k]) by {
        forall k | 0 <= k < |t| ensures !p(t[k]) {
          if k < |s| { assert t[k] == s[k]; }
        }
      }
    }
  }

  /** The index of the last occurrence of `x` in `s`, or `None`. */
  function LastIndexOf(s: string, x: char): (r: Option<nat>)
    ensures r.Some? ==> r.value < |s| && s[r.value] == x
    ensures r.Some? ==> forall k | r.value < k < |s| :: s[k] != x
    ensures r.None? <==> x !in s
  {
    if |s| == 0 then None
    else
      match LastIndexOf(s[1..], x)
      case Some(i) => Some(i + 1)
      case None => if s[0] == x then Some(0) else None
  }

  /** The last-occurrence contract determines the answer. */
  lemma LastIndexOfUnique(s: string, x: char, p: nat)
    requires p < |s| && s[p] == x
    requires forall k | p < k < |s| :: s[k] != x
    ensures LastIndexOf(s, x) == Some(p)
  {
  }
}
