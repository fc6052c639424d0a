/** Service order of one SSCDT instance: draining, and how long a request can wait. */
module SscdtService {
  import opened Common
  import opened SscdtOrder
  import opened BinaryHeap
  import opened SscdtHead

  // ---------- Draining ----------

  ghost function Gets(interval: Interval, n: nat): seq<Call> {
    seq(n, _ => Call(interval, Get(false)))
  }

  /** No later request precedes an earlier one. */
  ghost predicate Sorted(interval: Interval, s: seq<Rpc>) {
    forall i, j :: 0 <= i < j < |s| ==> !Precedes(interval, s[j], s[i])
  }

  lemma SortedCons(interval: Interval, r: Rpc, rest: seq<Rpc>, bag: multiset<Rpc>)
    requires Sorted(interval, rest)
    requires IsLeast(interval, bag, r) && multiset(rest) == bag - multiset{r}
    ensures Sorted(interval, [r] + rest)
    ensures multiset([r] + rest) == bag
  {
    forall j | 0 <= j < |rest|
      ensures !Precedes(interval, rest[j], r)
    {
      assert rest[j] in multiset(rest);
    }
  }

  lemma GetsStep(interval: Interval, head: Head, n: nat)
    requires head.heap != []
    requires CanRun(Apply(head, Call(interval, Get(false))), Gets(interval, n))
    ensures var next := Apply(head, Call(interval, Get(false)));
            && CanRun(head, Gets(interval, n + 1))
            && Run(head, Gets(interval, n + 1)) == Run(next, Gets(interval, n))
            && Served(head, Gets(interval, n + 1)) == [head.heap[0]] + Served(next, Gets(interval, n))
  {
    assert Gets(interval, n + 1)[1..] == Gets(interval, n);
  }

  /** As many gets as there are requests hand out a sorted permutation of the queue and empty it. */
  lemma {:induction false} DrainSorts(interval: Interval, head: Head)
    requires InOrder(interval, head)
    ensures CanRun(head, Gets(interval, |head.heap|))
    ensures Run(head, Gets(interval, |head.heap|)).heap == []
    ensures multiset(Served(head, Gets(interval, |head.heap|))) == multiset(head.heap)
    ensures Sorted(interval, Served(head, Gets(interval, |head.heap|)))
    decreases |head.heap|
  {
    if head.heap != [] {
      var c := Call(interval, Get(false));
      var next := Apply(head, c);
      var n := |next.heap|;
      assert |head.heap| == n + 1;
      assert InOrder(interval, next) by { ApplyKeepsOrder(head, c); }
      DrainSorts(interval, next);
      GetsStep(interval, head, n);
      var rest := Served(next, Gets(interval, n));
      assert multiset(rest) == multiset(head.heap) - multiset{head.heap[0]} by { ApplyChangesBag(head, c); }
      ReplyIsLeast(interval, head);
      SortedCons(interval, head.heap[0], rest, multiset(head.heap));
    }
  }

  /** In a sorted service order, requests of one client in one window are contiguous. */
  lemma SameKeyIsContiguous(interval: Interval, s: seq<Rpc>, i: nat, j: nat, k: nat)
    requires Sorted(interval, s) && i <= j <= k < |s|
    requires KeyOf(interval, s[i]) == KeyOf(interval, s[k])
    ensures KeyOf(interval, s[j]) == KeyOf(interval, s[i])
  {
    PrecedesIsLexicographic(interval, s[j], s[i]);
    PrecedesIsLexicographic(interval, s[k], s[j]);
  }

  /** Two servers hand out any two distinct keys they share in the same relative order. */
  lemma ServersAgree(interval: Interval, s: seq<Rpc>, t: seq<Rpc>, i: nat, j: nat, k: nat, l: nat)
    requires Sorted(interval, s) && Sorted(interval, t)
    requires i < j < |s| && k < |t| && l < |t|
    requires KeyOf(interval, s[i]) == KeyOf(interval, t[k]) && KeyOf(interval, s[j]) == KeyOf(interval, t[l])
    requires KeyOf(interval, s[i]) != KeyOf(interval, s[j])
    ensures k < l
  {
    PrecedesIsLexicographic(interval, s[j], s[i]);
    PrecedesIsLexicographic(interval, t[k], t[l]);
  }

  // ---------- The key sequence is a function of the queued keys ----------

  ghost function Keys(interval: Interval, s: seq<Rpc>): (k: seq<Key>)
    ensures |k| == |s| && forall i :: 0 <= i < |s| ==> k[i] == KeyOf(interval, s[i])
  {
    seq(|s|, i requires 0 <= i < |s| => KeyOf(interval, s[i]))
  }

  lemma KeysOfConcat(interval: Interval, s: seq<Rpc>, t: seq<Rpc>)
    ensures Keys(interval, s + t) == Keys(interval, s) + Keys(interval, t)
  {
  }

  /** Pulling one request to the front permutes requests and keys alike. */
  lemma PullToFront(interval: Interval, t: seq<Rpc>, i: nat)
    requires i < |t|
    ensures var u := t[..i] + t[i + 1..];
            && multiset(t) == multiset{t[i]} + multiset(u)
            && multiset(Keys(interval, t)) == multiset{KeyOf(interval, t[i])} + multiset(Keys(interval, u))
  {
    assert t == t[..i] + ([t[i]] + t[i + 1..]);
    KeysOfConcat(interval, t[..i], [t[i]] + t[i + 1..]);
    KeysOfConcat(interval, [t[i]], t[i + 1..]);
    KeysOfConcat(interval, t[..i], t[i + 1..]);
    assert Keys(interval, [t[i]]) == [KeyOf(interval, t[i])];
  }

  lemma {:induction false} PermutedKeys(interval: Interval, s: seq<Rpc>, t: seq<Rpc>)
    requires multiset(s) == multiset(t)
    ensures multiset(Keys(interval, s)) == multiset(Keys(interval, t))
    decreases |s|
  {
    if s == [] {
      assert |multiset(t)| == 0;
    } else {
      assert s[0] in multiset(t);
      var i :| 0 <= i < |t| && t[i] == s[0];
      PullToFront(interval, s, 0);
      PullToFront(interval, t, i);
      assert s[..0] + s[1..] == s[1..];
      var u := t[..i] + t[i + 1..];
      assert multiset(s[1..]) == multiset(s) - multiset{s[0]} && multiset(u) == multiset(t) - multiset{t[i]};
      PermutedKeys(interval, s[1..], u);
    }
  }

  ghost predicate SortedKeys(s: seq<Key>) {
    forall i, j :: 0 <= i < j < |s| ==> !KeyLess(s[j], s[i])
  }

  lemma FirstKeyIsLeast(s: seq<Key>, t: seq<Key>)
    requires SortedKeys(t) && multiset(s) == multiset(t) && s != []
    ensures t != [] && !KeyLess(s[0], t[0])
  {
    assert s[0] in multiset(t);
    var i :| 0 <= i < |t| && t[i] == s[0];
  }

  lemma SameFirstKey(s: seq<Key>, t: seq<Key>)
    requires SortedKeys(s) && SortedKeys(t) && multiset(s) == multiset(t) && s != [] && t != []
    ensures s[0] == t[0]
    ensures multiset(s[1..]) == multiset(t[1..])
  {
    FirstKeyIsLeast(s, t);
    FirstKeyIsLeast(t, s);
    assert s == [s[0]] + s[1..] && t == [t[0]] + t[1..];
    assert multiset(s[1..]) == multiset(s) - multiset{s[0]};
  }

  lemma {:induction false} SortedKeysAreUnique(s: seq<Key>, t: seq<Key>)
    requires SortedKeys(s) && SortedKeys(t) && multiset(s) == multiset(t)
    ensures s == t
    decreases |s|
  {
    assert |multiset(s)| == |multiset(t)|;
    if s != [] {
      SameFirstKey(s, t);
      SortedKeysAreUnique(s[1..], t[1..]);
      assert s == [s[0]] + s[1..] && t == [t[0]] + t[1..];
    }
  }

  /** Whatever their histories, two queues holding the same keys are served in the same key sequence. */
  lemma KeySequenceIsDetermined(interval: Interval, a: Head, b: Head)
    requires InOrder(interval, a) && InOrder(interval, b)
    requires multiset(Keys(interval, a.heap)) == multiset(Keys(interval, b.heap))
    ensures CanRun(a, Gets(interval, |a.heap|)) && CanRun(b, Gets(interval, |b.heap|))
    ensures Keys(interval, Served(a, Gets(interval, |a.heap|))) == Keys(interval, Served(b, Gets(interval, |b.heap|)))
  {
    DrainSorts(interval, a);
    DrainSorts(interval, b);
    var s, t := Served(a, Gets(interval, |a.heap|)), Served(b, Gets(interval, |b.heap|));
    PermutedKeys(interval, s, a.heap);
    PermutedKeys(interval, t, b.heap);
    SortedGiveSortedKeys(interval, s);
    SortedGiveSortedKeys(interval, t);
    SortedKeysAreUnique(Keys(interval, s), Keys(interval, t));
  }

  lemma SortedGiveSortedKeys(interval: Interval, s: seq<Rpc>)
    requires Sorted(interval, s)
    ensures SortedKeys(Keys(interval, s))
  {
    forall i, j | 0 <= i < j < |s|
      ensures !KeyLess(KeyOf(interval, s[j]), KeyOf(interval, s[i]))
    {
      PrecedesIsLexicographic(interval, s[j], s[i]);
    }
  }

  // ---------- Every queue can arise ----------

  ghost function Adds(interval: Interval, rs: seq<Rpc>): seq<Call> {
    seq(|rs|, i requires 0 <= i < |rs| => Call(interval, Add(rs[i], true)))
  }

  ghost predicate FreshFor(h: seq<Rpc>, rs: seq<Rpc>) {
    && (forall i, j :: 0 <= i < j < |rs| ==> rs[i].id != rs[j].id)
    && (forall i, j :: 0 <= i < |h| && 0 <= j < |rs| ==> h[i].id != rs[j].id)
  }

  lemma AddKeepsFresh(interval: Interval, head: Head, rs: seq<Rpc>)
    requires rs != [] && FreshFor(head.heap, rs)
    ensures Enabled(head, Add(rs[0], true))
    ensures FreshFor(Apply(head, Call(interval, Add(rs[0], true))).heap, rs[1..])
  {
    var next := Apply(head, Call(interval, Add(rs[0], true)));
    ApplyChangesBag(head, Call(interval, Add(rs[0], true)));
    forall i, j | 0 <= i < |next.heap| && 0 <= j < |rs[1..]|
      ensures next.heap[i].id != rs[1..][j].id
    {
      assert next.heap[i] in multiset(next.heap);
      assert next.heap[i] == rs[0] || next.heap[i] in head.heap;
    }
  }

  lemma AddsStep(interval: Interval, head: Head, rs: seq<Rpc>)
    requires rs != [] && Enabled(head, Add(rs[0], true))
    requires CanRun(Apply(head, Call(interval, Add(rs[0], true))), Adds(interval, rs[1..]))
    ensures CanRun(head, Adds(interval, rs))
    ensures Run(head, Adds(interval, rs)) == Run(Apply(head, Call(interval, Add(rs[0], true))), Adds(interval, rs[1..]))
  {
    assert Adds(interval, rs)[1..] == Adds(interval, rs[1..]);
  }

  lemma ConsBag(bag: multiset<Rpc>, rs: seq<Rpc>)
    requires rs != []
    ensures bag + multiset{rs[0]} + multiset(rs[1..]) == bag + multiset(rs)
  {
    assert rs == [rs[0]] + rs[1..];
  }

  /** Any requests with distinct ids can be queued, in any order, and then exactly these are queued. */
  lemma {:induction false} EnqueueAll(interval: Interval, head: Head, rs: seq<Rpc>)
    requires FreshFor(head.heap, rs)
    ensures CanRun(head, Adds(interval, rs))
    ensures multiset(Run(head, Adds(interval, rs)).heap) == multiset(head.heap) + multiset(rs)
    decreases |rs|
  {
    if rs != [] {
      AddKeepsFresh(interval, head, rs);
      var c := Call(interval, Add(rs[0], true));
      assert multiset(Apply(head, c).heap) == multiset(head.heap) + multiset{rs[0]} by { ApplyChangesBag(head, c); }
      EnqueueAll(interval, Apply(head, c), rs[1..]);
      AddsStep(interval, head, rs);
      ConsBag(multiset(head.heap), rs);
    }
  }

  // ---------- Bounded overtaking ----------

  /** Ids name requests. */
  ghost predicate DistinctIds(bag: multiset<Rpc>) {
    && (forall q :: q in bag ==> bag[q] == 1)
    && (forall q, r :: q in bag && r in bag && q.id == r.id ==> q == r)
  }

  /** Queued requests other than `t` that `t` does not precede. */
  ghost function Ahead(interval: Interval, bag: multiset<Rpc>, t: Rpc): set<Rpc> {
    set q | q in bag && q != t && !Precedes(interval, t, q)
  }

  ghost function GetCount(calls: seq<Call>): nat {
    if calls == [] then 0 else (if calls[0].op == Get(false) then 1 else 0) + GetCount(calls[1..])
  }

  /** Later arrivals that `t` does not precede. */
  ghost function Arrivals(interval: Interval, calls: seq<Call>, t: Rpc): nat {
    if calls == [] then 0
    else (if calls[0].op.Add? && !Precedes(interval, t, calls[0].op.r) then 1 else 0)
         + Arrivals(interval, calls[1..], t)
  }

  lemma ApplyKeepsDistinct(head: Head, c: Call)
    requires Enabled(head, c.op) && DistinctIds(multiset(head.heap))
    ensures DistinctIds(multiset(Apply(head, c).heap))
  {
    ApplyChangesBag(head, c);
    var bag, next := multiset(head.heap), multiset(Apply(head, c).heap);
    if c.op.Add? {
      assert forall q :: q in bag ==> q in head.heap;
      AddKeepsDistinct(bag, c.op.r);
    } else {
      FewerKeepDistinct(bag, next);
    }
  }

  lemma AddKeepsDistinct(bag: multiset<Rpc>, r: Rpc)
    requires DistinctIds(bag) && forall q :: q in bag ==> q.id != r.id
    ensures DistinctIds(bag + multiset{r})
  {
    assert bag[r] == 0;
  }

  lemma {:induction false} DistinctPositions(h: seq<Rpc>)
    requires forall i, j :: 0 <= i < j < |h| ==> h[i].id != h[j].id
    ensures DistinctIds(multiset(h))
  {
    if h != [] {
      var g, last := h[..|h| - 1], h[|h| - 1];
      DistinctPositions(g);
      forall q: Rpc | q in multiset(g)
        ensures q.id != last.id
      {
        assert q in g;
      }
      assert h == g + [last];
      AddKeepsDistinct(multiset(g), last);
    }
  }

  lemma FewerKeepDistinct(bag: multiset<Rpc>, fewer: multiset<Rpc>)
    requires DistinctIds(bag) && fewer <= bag
    ensures DistinctIds(fewer)
  {
    assert forall q :: q in fewer ==> q in bag && fewer[q] <= bag[q];
  }

  lemma AheadAfterAdd(interval: Interval, bag: multiset<Rpc>, r: Rpc, t: Rpc)
    ensures |Ahead(interval, bag + multiset{r}, t)|
            <= |Ahead(interval, bag, t)| + if Precedes(interval, t, r) then 0 else 1
  {
    var before, after := Ahead(interval, bag, t), Ahead(interval, bag + multiset{r}, t);
    if Precedes(interval, t, r) {
      assert after == before;
    } else {
      SubsetSize(after, before + {r});
    }
  }

  lemma AheadAfterRemoval(interval: Interval, bag: multiset<Rpc>, m: Rpc, t: Rpc)
    requires DistinctIds(bag) && m in bag && m != t
    ensures Ahead(interval, bag - multiset{m}, t) == Ahead(interval, bag, t) - {m}
  {
    assert bag[m] == 1;
  }

  lemma LeastIsAhead(interval: Interval, bag: multiset<Rpc>, m: Rpc, t: Rpc)
    requires DistinctIds(bag) && t in bag && IsLeast(interval, bag, m) && m != t
    ensures t in bag - multiset{m}
    ensures |Ahead(interval, bag - multiset{m}, t)| + 1 == |Ahead(interval, bag, t)|
  {
    AheadAfterRemoval(interval, bag, m, t);
    assert m in Ahead(interval, bag, t);
  }

  /** One call that neither serves nor dequeues `t` moves the number of requests ahead of it as expected. */
  lemma ApplyMovesAhead(interval: Interval, head: Head, c: Call, t: Rpc)
    requires Enabled(head, c.op)
    requires InOrder(interval, head) && DistinctIds(multiset(head.heap)) && t in multiset(head.heap)
    requires c.op != Del(t.id) && ServedNow(head, c) != [t]
    ensures var bag, next := multiset(head.heap), multiset(Apply(head, c).heap);
            && t in next
            && |Ahead(interval, next, t)| + (if c.op == Get(false) then 1 else 0)
               <= |Ahead(interval, bag, t)| + if c.op.Add? && !Precedes(interval, t, c.op.r) then 1 else 0
  {
    ApplyChangesBag(head, c);
    var bag := multiset(head.heap);
    match c.op
    case Add(r, room) => AheadAfterAdd(interval, bag, r, t);
    case Get(peek) =>
      assert t in head.heap;
      if !peek {
        ReplyIsLeast(interval, head);
        LeastIsAhead(interval, bag, head.heap[0], t);
      }
    case Del(id) => AheadAfterRemoval(interval, bag, head.heap[IndexOf(head.heap, id)], t);
  }

  lemma SubsetSize<T>(a: set<T>, b: set<T>)
    requires a <= b
    ensures |a| <= |b|
  {
    assert b == a + (b - a);
  }

  /**
    A queued request that is not dequeued is served once the gets exceed the requests ahead of it plus
    the arrivals that it does not precede.
   */
  lemma {:induction false} ServedInTime(interval: Interval, head: Head, calls: seq<Call>, t: Rpc)
    requires CanRun(head, calls)
    requires forall c :: c in calls ==> Interchangeable(interval, c.interval) && c.op != Del(t.id)
    requires InOrder(interval, head) && DistinctIds(multiset(head.heap)) && t in multiset(head.heap)
    requires GetCount(calls) > |Ahead(interval, multiset(head.heap), t)| + Arrivals(interval, calls, t)
    ensures t in Served(head, calls)
    decreases |calls|
  {
    var c, next := calls[0], Apply(head, calls[0]);
    assert c in calls;
    if ServedNow(head, c) != [t] {
      ApplyMovesAhead(interval, head, c, t);
      ApplyKeepsDistinct(head, c);
      SwitchKeepsOrder(interval, c.interval, head);
      ApplyKeepsOrder(head, c);
      SwitchKeepsOrder(c.interval, interval, next);
      ServedInTime(interval, next, calls[1..], t);
    }
  }

  /** Arrivals from strictly later windows never delay a request. */
  lemma {:induction false} LaterWindowsNeverDelay(interval: Interval, calls: seq<Call>, t: Rpc)
    requires forall c :: c in calls && c.op.Add? ==> Window(interval, c.op.r.sent) > Window(interval, t.sent)
    ensures Arrivals(interval, calls, t) == 0
  {
    if calls != [] {
      var c := calls[0];
      assert c in calls;
      if c.op.Add? {
        PrecedesIsLexicographic(interval, t, c.op.r);
      }
      LaterWindowsNeverDelay(interval, calls[1..], t);
    }
  }
}
