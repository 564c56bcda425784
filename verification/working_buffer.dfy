/** The working buffer of `MemoryManager` (memory_manager.py): a `deque(maxlen=capacity)`
    of the most recent turns, modelled as a sequence that keeps its last `capacity` items. */
module WorkingBuffer {
  import opened Seqs

  /** `WORKING_CAPACITY`. */
  const WorkingCapacity: nat := 6

  /** `working_capacity or settings.WORKING_CAPACITY`: an absent or zero request falls
      back to the setting. */
  function Capacity(requested: nat): (r: nat)
    ensures r > 0
    ensures requested > 0 ==> r == requested
    ensures requested == 0 ==> r == WorkingCapacity
  {
    if requested == 0 then WorkingCapacity else requested
  }

  /** `buf.append(x)` on a deque bounded by `cap`: when full, the oldest item drops out. */
  function Push<T>(buf: seq<T>, cap: nat, x: T): (r: seq<T>)
    ensures |r| <= cap
    ensures |buf| < cap ==> r == buf + [x]
    ensures 0 < cap && |buf| == cap ==> r == buf[1..] + [x]
    ensures 0 < cap ==> |r| > 0 && r[|r| - 1] == x
  {
    Last(buf + [x], cap)
  }

  /** On a buffer within its capacity, a push leaves the new item last, preceded by the
      old items minus the oldest one exactly when the buffer was full. */
  lemma PushShape<T>(buf: seq<T>, cap: nat, x: T)
    requires 0 < cap && |buf| <= cap
    ensures var r := Push(buf, cap, x);
      && |r| == (if |buf| < cap then |buf| + 1 else cap)
      && r[|r| - 1] == x
      && r[..|r| - 1] == (if |buf| < cap then buf else buf[1..])
  {
    var r := Push(buf, cap, x);
    if |buf| < cap {
      assert r == buf + [x];
    } else {
      assert r == buf[1..] + [x];
    }
  }

  /** Appending each of `xs` in turn. */
  function PushAll<T>(buf: seq<T>, cap: nat, xs: seq<T>): (r: seq<T>)
    decreases |xs|
  {
    if |xs| == 0 then buf else PushAll(Push(buf, cap, xs[0]), cap, xs[1..])
  }

  /** Keeping the last `cap` items and then appending one keeps the last `cap` of the
      whole. */
  lemma LastThenPush<T>(a: seq<T>, cap: nat, x: T)
    ensures Push(Last(a, cap), cap, x) == Last(a + [x], cap)
  {
    var l := Last(a, cap);
    var full := a + [x];
    assert l + [x] == full[|full| - |l| - 1..];
  }

  /** Pushing a whole run keeps the last `cap` items of everything pushed so far. */
  lemma {:induction false} PushAllKeepsLast<T>(buf: seq<T>, cap: nat, xs: seq<T>)
    requires |buf| <= cap
    ensures PushAll(buf, cap, xs) == Last(buf + xs, cap)
    decreases |xs|
  {
    if |xs| == 0 {
      assert buf + xs == buf;
    } else {
      var next := Push(buf, cap, xs[0]);
      calc {
        PushAll(buf, cap, xs);
        PushAll(next, cap, xs[1..]);
        { PushAllKeepsLast(next, cap, xs[1..]); }
        Last(next + xs[1..], cap);
        { assert Last(buf, cap) == buf;
          LastThenPush(buf, cap, xs[0]); }
        Last(Last(buf + [xs[0]], cap) + xs[1..], cap);
        { LastOfLast(buf + [xs[0]], cap, xs[1..]); }
        Last(buf + [xs[0]] + xs[1..], cap);
        { assert buf + [xs[0]] + xs[1..] == buf + xs; }
        Last(buf + xs, cap);
      }
    }
  }

  /** Trimming to the last `cap` items before appending more does not change the last `cap`
      items of the result. */
  lemma LastOfLast<T>(a: seq<T>, cap: nat, b: seq<T>)
    ensures Last(Last(a, cap) + b, cap) == Last(a + b, cap)
  {
    var l := Last(a, cap);
    var r1 := Last(l + b, cap);
    var r2 := Last(a + b, cap);
    assert |r1| == |r2|;
    forall i | 0 <= i < |r1| ensures r1[i] == r2[i] {
      var j := |l + b| - |r1| + i;
      if j >= |l| {
        assert (l + b)[j] == b[j - |l|];
      }
    }
  }

  /** Starting from an empty buffer, `n` turns leave the last `min(n, cap)` of them, in the
      order they were pushed. */
  lemma PushAllFromEmpty<T>(cap: nat, xs: seq<T>)
    ensures PushAll([], cap, xs) == Last(xs, cap)
    ensures |PushAll([], cap, xs)| == if |xs| < cap then |xs| else cap
  {
    PushAllKeepsLast([], cap, xs);
    assert [] + xs == xs;
  }
}
