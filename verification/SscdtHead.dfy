/** One SSCDT policy instance as a value: its calls, and what every sequence of calls keeps. */
module SscdtHead {
  import opened Common
  import opened SscdtOrder
  import opened BinaryHeap

  const WRAP: nat := 0x1_0000_0000_0000_0000

  /** `++` on a `__u64`. */
  function Bump(n: nat): nat {
    if n + 1 == WRAP then 0 else n + 1
  }

  /** `nrs_sscdt_head`: the heap, the 64-bit counter, and the number written into each request. */
  datatype Head = Head(heap: seq<Rpc>, sequence: nat, numbers: map<nat, nat>)

  const FRESH: Head := Head([], 1, map[])

  /** Enqueue (with `room` false when the heap cannot grow), poll, and dequeue. */
  datatype Op = Add(r: Rpc, room: bool) | Get(peek: bool) | Del(id: nat)

  /** An operation together with the interval in force when it runs. */
  datatype Call = Call(interval: Interval, op: Op)

  predicate Queued(h: seq<Rpc>, id: nat) {
    exists i :: 0 <= i < |h| && h[i].id == id
  }

  function IndexOf(h: seq<Rpc>, id: nat): (i: nat)
    requires Queued(h, id)
    ensures i < |h| && h[i].id == id
  {
    if h[0].id == id then 0
    else
      assert Queued(h[1..], id) by {
        var i :| 0 <= i < |h| && h[i].id == id;
        assert h[1..][i - 1].id == id;
      }
      1 + IndexOf(h[1..], id)
  }

  /** What the callers guarantee: a request is enqueued once, and only a queued one is dequeued. */
  predicate Enabled(head: Head, op: Op) {
    match op
    case Add(r, _) => !Queued(head.heap, r.id)
    case Get(_) => true
    case Del(id) => Queued(head.heap, id)
  }

  function Apply(head: Head, c: Call): Head
    requires Enabled(head, c.op)
  {
    var less := Comparator(c.interval);
    match c.op
    case Add(r, room) =>
      Head(if room then Insert(less, head.heap, r) else head.heap,
           Bump(head.sequence),
           head.numbers[r.id := head.sequence])
    case Get(peek) =>
      if peek || head.heap == [] then head else head.(heap := RemoveAt(less, head.heap, 0))
    case Del(id) => head.(heap := RemoveAt(less, head.heap, IndexOf(head.heap, id)))
  }

  /** What a get returns: the root, or nothing. */
  function Reply(head: Head): Option<Rpc> {
    if head.heap == [] then None else Some(head.heap[0])
  }

  ghost predicate CanRun(head: Head, calls: seq<Call>)
    decreases |calls|
  {
    calls == [] || (Enabled(head, calls[0].op) && CanRun(Apply(head, calls[0]), calls[1..]))
  }

  ghost function Run(head: Head, calls: seq<Call>): Head
    requires CanRun(head, calls)
    decreases |calls|
  {
    if calls == [] then head else Run(Apply(head, calls[0]), calls[1..])
  }

  // ---------- What a sequence of calls did ----------

  function ServedNow(head: Head, c: Call): seq<Rpc> {
    if c.op == Get(false) && head.heap != [] then [head.heap[0]] else []
  }

  /** Requests handed out by non-peek gets, in order. */
  ghost function Served(head: Head, calls: seq<Call>): seq<Rpc>
    requires CanRun(head, calls)
    decreases |calls|
  {
    if calls == [] then [] else ServedNow(head, calls[0]) + Served(Apply(head, calls[0]), calls[1..])
  }

  function DequeuedNow(head: Head, c: Call): seq<Rpc>
    requires Enabled(head, c.op)
  {
    if c.op.Del? then [head.heap[IndexOf(head.heap, c.op.id)]] else []
  }

  ghost function Dequeued(head: Head, calls: seq<Call>): seq<Rpc>
    requires CanRun(head, calls)
    decreases |calls|
  {
    if calls == [] then [] else DequeuedNow(head, calls[0]) + Dequeued(Apply(head, calls[0]), calls[1..])
  }

  function EnqueuedNow(c: Call): seq<Rpc> {
    if c.op.Add? && c.op.room then [c.op.r] else []
  }

  ghost function Enqueued(calls: seq<Call>): seq<Rpc> {
    if calls == [] then [] else EnqueuedNow(calls[0]) + Enqueued(calls[1..])
  }

  /** The number read back from the request after an enqueue attempt. */
  function AssignedNow(head: Head, c: Call): seq<nat>
    requires Enabled(head, c.op)
  {
    if c.op.Add? then [Apply(head, c).numbers[c.op.r.id]] else []
  }

  /** Sequence numbers in the order in which enqueue attempts received them. */
  ghost function Assigned(head: Head, calls: seq<Call>): seq<nat>
    requires CanRun(head, calls)
    decreases |calls|
  {
    if calls == [] then [] else AssignedNow(head, calls[0]) + Assigned(Apply(head, calls[0]), calls[1..])
  }

  ghost function Attempts(calls: seq<Call>): nat {
    if calls == [] then 0 else (if calls[0].op.Add? then 1 else 0) + Attempts(calls[1..])
  }

  // ---------- Order ----------

  lemma ComparatorIsStrictWeak(interval: Interval)
    ensures StrictWeakOrder(Comparator(interval))
  {
    var less := Comparator(interval);
    forall a, b | less(a, b)
      ensures !less(b, a)
    {
      PrecedesIsLexicographic(interval, a, b);
      PrecedesIsLexicographic(interval, b, a);
    }
    forall a, b, c | less(a, c)
      ensures less(a, b) || less(b, c)
    {
      PrecedesIsLexicographic(interval, a, c);
      PrecedesIsLexicographic(interval, a, b);
      PrecedesIsLexicographic(interval, b, c);
    }
  }

  ghost predicate InOrder(interval: Interval, head: Head) {
    Ordered(Comparator(interval), head.heap)
  }

  lemma ApplyKeepsOrder(head: Head, c: Call)
    requires Enabled(head, c.op) && InOrder(c.interval, head)
    ensures InOrder(c.interval, Apply(head, c))
  {
    var less := Comparator(c.interval);
    ComparatorIsStrictWeak(c.interval);
    match c.op
    case Add(r, room) => InsertOrders(less, head.heap, r);
    case Get(peek) =>
      if head.heap != [] {
        RemoveAtOrders(less, head.heap, 0);
      }
    case Del(id) => RemoveAtOrders(less, head.heap, IndexOf(head.heap, id));
  }

  /** A member of the bag that no member precedes. */
  ghost predicate IsLeast(interval: Interval, bag: multiset<Rpc>, r: Rpc) {
    r in bag && forall q :: q in bag ==> !Precedes(interval, q, r)
  }

  /** The root of an ordered heap is a least member of the bag. */
  lemma ReplyIsLeast(interval: Interval, head: Head)
    requires InOrder(interval, head) && head.heap != []
    ensures IsLeast(interval, multiset(head.heap), head.heap[0])
  {
    ComparatorIsStrictWeak(interval);
    assert head.heap[0] in multiset(head.heap);
    forall q | q in multiset(head.heap)
      ensures !Precedes(interval, q, head.heap[0])
    {
      assert q in head.heap;
      var i :| 0 <= i < |head.heap| && head.heap[i] == q;
      RootIsLeast(Comparator(interval), head.heap, i);
    }
  }

  lemma SwitchKeepsOrder(i: Interval, j: Interval, head: Head)
    requires InOrder(i, head) && (Interchangeable(i, j) || |head.heap| <= 1)
    ensures InOrder(j, head)
  {
    if Interchangeable(i, j) {
      forall k | 0 < k < |head.heap|
        ensures !Comparator(j)(head.heap[k], head.heap[Parent(k)])
      {
        InterchangeableAgree(i, j, head.heap[k], head.heap[Parent(k)]);
      }
    }
  }

  // ---------- Conservation ----------

  /** Each call changes the bag of queued requests by exactly the request it names. */
  lemma ApplyChangesBag(head: Head, c: Call)
    requires Enabled(head, c.op)
    ensures var bag, next := multiset(head.heap), multiset(Apply(head, c).heap);
            match c.op
            case Add(r, room) => next == if room then bag + multiset{r} else bag
            case Get(peek) => next == if peek || head.heap == [] then bag else bag - multiset{head.heap[0]}
            case Del(id) =>
              var q := head.heap[IndexOf(head.heap, id)];
              q in bag && q.id == id && next == bag - multiset{q}
  {
    var less := Comparator(c.interval);
    match c.op
    case Add(r, room) => InsertAdds(less, head.heap, r);
    case Get(peek) =>
      if head.heap != [] {
        RemoveAtRemoves(less, head.heap, 0);
      }
    case Del(id) => RemoveAtRemoves(less, head.heap, IndexOf(head.heap, id));
  }

  lemma ApplyConserves(head: Head, c: Call)
    requires Enabled(head, c.op)
    ensures multiset(Apply(head, c).heap) + multiset(ServedNow(head, c)) + multiset(DequeuedNow(head, c))
            == multiset(head.heap) + multiset(EnqueuedNow(c))
  {
    ApplyChangesBag(head, c);
    if c.op == Get(false) && head.heap != [] {
      assert head.heap[0] in multiset(head.heap);
    }
  }

  lemma JoinBalances(a: multiset<Rpc>, b: multiset<Rpc>, c: multiset<Rpc>,
                     s1: seq<Rpc>, s2: seq<Rpc>, d1: seq<Rpc>, d2: seq<Rpc>, e1: seq<Rpc>, e2: seq<Rpc>)
    requires b + multiset(s1) + multiset(d1) == a + multiset(e1)
    requires c + multiset(s2) + multiset(d2) == b + multiset(e2)
    ensures c + multiset(s1 + s2) + multiset(d1 + d2) == a + multiset(e1 + e2)
  {
    calc {
      c + multiset(s1 + s2) + multiset(d1 + d2);
      c + multiset(s2) + multiset(d2) + multiset(s1) + multiset(d1);
      b + multiset(s1) + multiset(d1) + multiset(e2);
      a + multiset(e1 + e2);
    }
  }

  /** Over any calls, under any intervals: what was queued or enqueued is served, dequeued or still there. */
  lemma {:induction false} RunConserves(head: Head, calls: seq<Call>)
    requires CanRun(head, calls)
    ensures multiset(Run(head, calls).heap) + multiset(Served(head, calls)) + multiset(Dequeued(head, calls))
            == multiset(head.heap) + multiset(Enqueued(calls))
    decreases |calls|
  {
    if calls != [] {
      var c, next, rest := calls[0], Apply(head, calls[0]), calls[1..];
      ApplyConserves(head, c);
      RunConserves(next, rest);
      JoinBalances(multiset(head.heap), multiset(next.heap), multiset(Run(next, rest).heap),
                   ServedNow(head, c), Served(next, rest), DequeuedNow(head, c), Dequeued(next, rest),
                   EnqueuedNow(c), Enqueued(rest));
    }
  }

  lemma EmptyIffBalanced(end: seq<Rpc>, served: seq<Rpc>, dequeued: seq<Rpc>, enqueued: seq<Rpc>)
    requires multiset(end) + multiset(served) + multiset(dequeued) == multiset(enqueued)
    ensures |enqueued| == |served| + |dequeued| + |end|
    ensures end == [] <==> multiset(enqueued) == multiset(served) + multiset(dequeued)
  {
    assert |multiset(end) + multiset(served) + multiset(dequeued)| == |end| + |served| + |dequeued|;
  }

  /** `LASSERT(cfs_binheap_is_empty)` at stop holds exactly when every successful enqueue was cleared. */
  lemma StopAssertionIffBalanced(calls: seq<Call>)
    requires CanRun(FRESH, calls)
    ensures |Enqueued(calls)| == |Served(FRESH, calls)| + |Dequeued(FRESH, calls)| + |Run(FRESH, calls).heap|
    ensures Run(FRESH, calls).heap == []
            <==> multiset(Enqueued(calls)) == multiset(Served(FRESH, calls)) + multiset(Dequeued(FRESH, calls))
  {
    RunConserves(FRESH, calls);
    EmptyIffBalanced(Run(FRESH, calls).heap, Served(FRESH, calls), Dequeued(FRESH, calls), Enqueued(calls));
  }

  // ---------- Sequence numbers ----------

  /** What one call does to the counter and the numbers. */
  lemma ApplyCounts(head: Head, c: Call)
    requires Enabled(head, c.op)
    ensures var next := Apply(head, c);
            if c.op.Add? then
              && next.sequence == Bump(head.sequence)
              && next.numbers == head.numbers[c.op.r.id := head.sequence]
              && AssignedNow(head, c) == [head.sequence]
            else
              && next.sequence == head.sequence && next.numbers == head.numbers
              && AssignedNow(head, c) == []
  {
  }

  /** The counter after `k` increments. */
  ghost function Bumped(n: nat, k: nat): nat
    decreases k
  {
    if k == 0 then n else Bumped(Bump(n), k - 1)
  }

  lemma {:induction false} BumpedIsModular(n: nat, k: nat)
    requires n < WRAP
    ensures Bumped(n, k) == (n + k) % 0x1_0000_0000_0000_0000
    decreases k
  {
    if k > 0 {
      BumpedIsModular(Bump(n), k - 1);
    }
  }

  lemma {:induction false} CounterAfter(head: Head, calls: seq<Call>)
    requires CanRun(head, calls)
    ensures |Assigned(head, calls)| == Attempts(calls)
    ensures Run(head, calls).sequence == Bumped(head.sequence, Attempts(calls))
    decreases |calls|
  {
    if calls != [] {
      ApplyCounts(head, calls[0]);
      CounterAfter(Apply(head, calls[0]), calls[1..]);
    }
  }

  lemma {:induction false} AssignedFromCounter(head: Head, calls: seq<Call>, k: nat)
    requires CanRun(head, calls) && k < |Assigned(head, calls)|
    ensures Assigned(head, calls)[k] == Bumped(head.sequence, k)
    decreases |calls|
  {
    var c, next := calls[0], Apply(head, calls[0]);
    ApplyCounts(head, c);
    if !c.op.Add? {
      AssignedFromCounter(next, calls[1..], k);
    } else if k > 0 {
      AssignedFromCounter(next, calls[1..], k - 1);
    }
  }

  /** The k-th attempt gets 1 + k modulo 2^64; refused attempts use up a number too. */
  lemma AssignedNumber(calls: seq<Call>, k: nat)
    requires CanRun(FRESH, calls) && k < Attempts(calls)
    ensures |Assigned(FRESH, calls)| == Attempts(calls)
    ensures Assigned(FRESH, calls)[k] == (1 + k) % 0x1_0000_0000_0000_0000
    ensures k + 1 < WRAP ==> Assigned(FRESH, calls)[k] == 1 + k
  {
    CounterAfter(FRESH, calls);
    AssignedFromCounter(FRESH, calls, k);
    BumpedIsModular(1, k);
  }

  ghost predicate Increasing(s: seq<nat>) {
    forall i, j :: 0 <= i < j < |s| ==> s[i] < s[j]
  }

  /** Numbers run 1, 2, 3, ... strictly upwards exactly while fewer than 2^64 attempts were made. */
  lemma NumbersIncreaseIffNoWrap(calls: seq<Call>)
    requires CanRun(FRESH, calls)
    ensures Increasing(Assigned(FRESH, calls)) <==> Attempts(calls) < WRAP
  {
    var s, n := Assigned(FRESH, calls), Attempts(calls);
    CounterAfter(FRESH, calls);
    if n < WRAP {
      forall k | 0 <= k < |s|
        ensures s[k] == 1 + k
      {
        AssignedNumber(calls, k);
      }
    } else {
      AssignedNumber(calls, 0);
      AssignedNumber(calls, WRAP - 1);
      assert s[0] == 1 && s[WRAP - 1] == 0;
    }
  }

  /** Queued requests carry distinct numbers below the counter. */
  ghost predicate NumberedBag(bag: multiset<Rpc>, numbers: map<nat, nat>, sequence: nat) {
    && (forall q :: q in bag ==> q.id in numbers && 1 <= numbers[q.id] < sequence)
    && (forall q, r | q in bag && r in bag :: numbers[q.id] == numbers[r.id] ==> q.id == r.id)
  }

  ghost predicate Numbered(head: Head) {
    NumberedBag(multiset(head.heap), head.numbers, head.sequence)
  }

  lemma AddKeepsNumbered(bag: multiset<Rpc>, numbers: map<nat, nat>, sequence: nat, r: Rpc)
    requires NumberedBag(bag, numbers, sequence) && 1 <= sequence
    requires forall q :: q in bag ==> q.id != r.id
    ensures NumberedBag(bag + multiset{r}, numbers[r.id := sequence], sequence + 1)
    ensures NumberedBag(bag, numbers[r.id := sequence], sequence + 1)
  {
  }

  lemma FewerKeepNumbered(bag: multiset<Rpc>, fewer: multiset<Rpc>, numbers: map<nat, nat>, sequence: nat)
    requires NumberedBag(bag, numbers, sequence) && fewer <= bag
    ensures NumberedBag(fewer, numbers, sequence)
  {
    assert forall q :: q in fewer ==> q in bag;
  }

  lemma ApplyKeepsNumbered(head: Head, c: Call)
    requires Enabled(head, c.op) && Numbered(head) && 1 <= head.sequence
    requires c.op.Add? ==> head.sequence < WRAP - 1
    ensures Numbered(Apply(head, c))
  {
    var next := Apply(head, c);
    ApplyCounts(head, c);
    ApplyChangesBag(head, c);
    if !c.op.Add? {
      assert multiset(next.heap) <= multiset(head.heap);
      FewerKeepNumbered(multiset(head.heap), multiset(next.heap), head.numbers, head.sequence);
    } else {
      forall q | q in multiset(head.heap)
        ensures q.id != c.op.r.id
      {
        assert q in head.heap;
      }
      AddKeepsNumbered(multiset(head.heap), head.numbers, head.sequence, c.op.r);
    }
  }

  lemma {:induction false} RunKeepsNumbered(head: Head, calls: seq<Call>)
    requires CanRun(head, calls) && Numbered(head) && 1 <= head.sequence
    requires head.sequence + Attempts(calls) < WRAP
    ensures Numbered(Run(head, calls))
    ensures Run(head, calls).sequence == head.sequence + Attempts(calls)
    decreases |calls|
  {
    if calls != [] {
      ApplyCounts(head, calls[0]);
      ApplyKeepsNumbered(head, calls[0]);
      RunKeepsNumbered(Apply(head, calls[0]), calls[1..]);
    }
  }
}
