/** A bounded deque, as Python's collections.deque(maxlen = n) behaves:
    appending to a full deque first discards the oldest element. */
module Deque {

  /** The newest `n` elements of `s` (all of `s` when it is no longer than `n`). */
  function Keep<T>(s: seq<T>, n: nat): (r: seq<T>)
    ensures |r| == if |s| <= n then |s| else n
    ensures r == s[|s| - |r|..]
  {
    if |s| <= n then s else s[|s| - n..]
  }

  /** `append(x)` on a deque bounded by `maxlen`. */
  function Push<T>(s: seq<T>, x: T, maxlen: nat): (r: seq<T>)
    requires 0 < maxlen
    ensures r == Keep(s + [x], maxlen)
    ensures |r| <= maxlen && r[|r| - 1] == x
  {
    if |s| < maxlen then s + [x]
    else
      assert (s + [x])[|s| + 1 - maxlen..] == s[|s| - maxlen + 1..] + [x];
      s[|s| - maxlen + 1..] + [x]
  }

  /** Trimming to the newest `n` before appending more changes nothing
      once the result is trimmed again. */
  lemma KeepOfKeep<T>(a: seq<T>, b: seq<T>, n: nat)
    ensures Keep(Keep(a, n) + b, n) == Keep(a + b, n)
  {
    var m := |a| - |Keep(a, n)|;
    assert Keep(a, n) + b == (a + b)[m..];
    if |Keep(a, n) + b| > n {
      assert Keep((a + b)[m..], n) == (a + b)[|a + b| - n..];
    }
  }

  lemma ConcatAssoc<T>(a: seq<T>, b: seq<T>, c: seq<T>)
    ensures a + b + c == a + (b + c)
  {
  }
}
