/**
 * `collections.deque(maxlen=n)` used as a stack: the right end is the top.
 * Appending to a full deque silently discards the leftmost (oldest) entry.
 */
module BoundedStack {

  /** `d.append(e)` on a deque with `maxlen == cap`. */
  function Push<T>(s: seq<T>, e: T, cap: nat): (r: seq<T>)
    requires 0 < cap && |s| <= cap
    ensures |r| <= cap && |r| > 0 && r[|r| - 1] == e
    ensures |s| < cap ==> r == s + [e]
    ensures |s| == cap ==> r == s[1..] + [e]
  {
    if |s| == cap then s[1..] + [e] else s + [e]
  }

  /** `d[-1]`. */
  function Top<T>(s: seq<T>): T
    requires |s| > 0
  {
    s[|s| - 1]
  }

  /** What `d.pop()` leaves behind. */
  function Pop<T>(s: seq<T>): (r: seq<T>)
    requires |s| > 0
    ensures |r| == |s| - 1
  {
    s[..|s| - 1]
  }

  /** Below capacity, popping what was pushed gives the deque back. */
  lemma PopPush<T>(s: seq<T>, e: T, cap: nat)
    requires 0 < cap && |s| < cap
    ensures Pop(Push(s, e, cap)) == s && Top(Push(s, e, cap)) == e
  {
    assert Push(s, e, cap) == s + [e];
  }

  /** Pushing back what was popped gives the deque back. */
  lemma PushPop<T>(s: seq<T>, cap: nat)
    requires 0 < |s| <= cap
    ensures Push(Pop(s), Top(s), cap) == s
  {
  }
}
