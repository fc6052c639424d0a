/** Any number of SSCDT instances sharing the module-wide interval: whole runs and their refinement of bags. */
module SscdtSystem {
  import opened Common
  import opened SscdtOrder
  import opened BinaryHeap
  import Head = SscdtHead
  import Service = SscdtService

  /** `interval` is the raw `__u32`; it is zero only after a write whose low 32 bits are zero. */
  datatype System = System(interval: nat, heads: map<nat, Head.Head>)

  datatype Op =
    | Start(p: nat)
    | Stop(p: nat)
    | On(p: nat, op: Head.Op)
    | ReadInterval
    | WriteInterval(arg: nat)
    | UnknownCtl

  /** Storing a `__u64` into the `__u32` keeps its low 32 bits. */
  function Low32(arg: nat): nat {
    arg % 0x1_0000_0000
  }

  predicate IsInterval(i: nat) {
    0 < i < 0x1_0000_0000
  }

  /** What the callers guarantee; a comparison under interval zero would divide by zero. */
  predicate Enabled(s: System, op: Op) {
    match op
    case Start(p) => p !in s.heads
    case Stop(p) => p in s.heads && s.heads[p].heap == []
    case On(p, o) => IsInterval(s.interval) && p in s.heads && Head.Enabled(s.heads[p], o)
    case _ => true
  }

  function Step(s: System, op: Op): System
    requires Enabled(s, op)
  {
    match op
    case Start(p) => s.(heads := s.heads[p := Head.FRESH])
    case Stop(p) => s.(heads := s.heads - {p})
    case On(p, o) => s.(heads := s.heads[p := Head.Apply(s.heads[p], Head.Call(s.interval, o))])
    case WriteInterval(arg) => s.(interval := Low32(arg))
    case ReadInterval => s
    case UnknownCtl => s
  }

  ghost predicate CanRun(s: System, ops: seq<Op>)
    decreases |ops|
  {
    ops == [] || (Enabled(s, ops[0]) && CanRun(Step(s, ops[0]), ops[1..]))
  }

  ghost function Run(s: System, ops: seq<Op>): System
    requires CanRun(s, ops)
    decreases |ops|
  {
    if ops == [] then s else Run(Step(s, ops[0]), ops[1..])
  }

  // ---------- Heap order over runs ----------

  ghost predicate Consistent(s: System) {
    && IsInterval(s.interval)
    && forall p :: p in s.heads ==>
         Head.InOrder(s.interval, s.heads[p]) && Service.DistinctIds(multiset(s.heads[p].heap))
  }

  /** The test that makes an interval write harmless: same order, or nothing to reorder. */
  predicate SafeWrite(s: System, arg: nat)
    requires IsInterval(s.interval)
  {
    && IsInterval(Low32(arg))
    && (Interchangeable(s.interval, Low32(arg)) || forall p :: p in s.heads ==> |s.heads[p].heap| <= 1)
  }

  predicate SafeOp(s: System, op: Op)
    requires IsInterval(s.interval)
  {
    op.WriteInterval? ==> SafeWrite(s, op.arg)
  }

  ghost predicate SafeRun(s: System, ops: seq<Op>)
    requires CanRun(s, ops)
    decreases |ops|
  {
    ops == [] || (IsInterval(s.interval) && SafeOp(s, ops[0]) && SafeRun(Step(s, ops[0]), ops[1..]))
  }

  lemma StepKeepsConsistent(s: System, op: Op)
    requires Enabled(s, op) && Consistent(s) && SafeOp(s, op)
    ensures Consistent(Step(s, op))
  {
    match op
    case On(p, o) =>
      Head.ApplyKeepsOrder(s.heads[p], Head.Call(s.interval, o));
      Service.ApplyKeepsDistinct(s.heads[p], Head.Call(s.interval, o));
    case WriteInterval(arg) =>
      forall p | p in s.heads
        ensures Head.InOrder(Low32(arg), s.heads[p])
      {
        Head.SwitchKeepsOrder(s.interval, Low32(arg), s.heads[p]);
      }
    case _ =>
  }

  /** Every run with safe interval writes keeps every heap ordered under the current comparator. */
  lemma {:induction false} RunKeepsConsistent(s: System, ops: seq<Op>)
    requires CanRun(s, ops) && Consistent(s) && SafeRun(s, ops)
    ensures Consistent(Run(s, ops))
    decreases |ops|
  {
    if ops != [] {
      StepKeepsConsistent(s, ops[0]);
      RunKeepsConsistent(Step(s, ops[0]), ops[1..]);
    }
  }

  // ---------- Refinement of bags ----------

  type Bags = map<nat, multiset<Rpc>>

  ghost function BagsOf(s: System): Bags {
    map p | p in s.heads :: multiset(s.heads[p].heap)
  }

  /** What a call may do to one bag, and what a get may return: no heap, no positions. */
  ghost predicate BagCall(interval: Interval, bag: multiset<Rpc>, o: Head.Op, reply: Option<Rpc>, bag': multiset<Rpc>) {
    match o
    case Add(r, room) => bag' == if room then bag + multiset{r} else bag
    case Get(peek) =>
      if bag == multiset{} then reply == None && bag' == bag
      else
        && reply.Some? && Head.IsLeast(interval, bag, reply.value)
        && bag' == if peek then bag else bag - multiset{reply.value}
    case Del(id) => exists q :: q in bag && q.id == id && bag' == bag - multiset{q}
  }

  /** What an operation may do to the bags of all instances. */
  ghost predicate BagStep(interval: nat, b: Bags, op: Op, reply: Option<Rpc>, b': Bags) {
    match op
    case Start(p) => b' == b[p := multiset{}]
    case Stop(p) => p in b && b[p] == multiset{} && b' == b - {p}
    case On(p, o) =>
      && IsInterval(interval) && p in b && p in b'
      && BagCall(interval, b[p], o, reply, b'[p])
      && b' == b[p := b'[p]]
    case _ => b' == b
  }

  function ReplyTo(s: System, op: Op): Option<Rpc> {
    if op.On? && op.op.Get? && op.p in s.heads then Head.Reply(s.heads[op.p]) else None
  }

  lemma CallRefinesBag(interval: Interval, head: Head.Head, o: Head.Op)
    requires Head.Enabled(head, o) && Head.InOrder(interval, head)
    ensures BagCall(interval, multiset(head.heap), o, if o.Get? then Head.Reply(head) else None,
                    multiset(Head.Apply(head, Head.Call(interval, o)).heap))
  {
    Head.ApplyChangesBag(head, Head.Call(interval, o));
    if o.Get? {
      if head.heap == [] {
        assert multiset(head.heap) == multiset{};
      } else {
        assert head.heap[0] in multiset(head.heap);
        Head.ReplyIsLeast(interval, head);
      }
    }
  }

  lemma OnRefinesBags(s: System, p: nat, o: Head.Op)
    requires Enabled(s, On(p, o)) && Consistent(s)
    ensures BagStep(s.interval, BagsOf(s), On(p, o), ReplyTo(s, On(p, o)), BagsOf(Step(s, On(p, o))))
  {
    var b: Bags, b': Bags := BagsOf(s), BagsOf(Step(s, On(p, o)));
    assert b' == b[p := b'[p]];
    CallRefinesBag(s.interval, s.heads[p], o);
  }

  lemma StartStopRefineBags(s: System, op: Op)
    requires Enabled(s, op) && (op.Start? || op.Stop?)
    ensures BagStep(s.interval, BagsOf(s), op, None, BagsOf(Step(s, op)))
  {
    var b: Bags, b': Bags := BagsOf(s), BagsOf(Step(s, op));
    if op.Start? {
      assert b' == b[op.p := multiset{}];
    } else {
      assert b[op.p] == multiset{};
      assert b' == b - {op.p};
    }
  }

  lemma StepRefinesBags(s: System, op: Op)
    requires Enabled(s, op) && Consistent(s)
    ensures BagStep(s.interval, BagsOf(s), op, ReplyTo(s, op), BagsOf(Step(s, op)))
  {
    if op.On? {
      OnRefinesBags(s, op.p, op.op);
    } else if op.Start? || op.Stop? {
      StartStopRefineBags(s, op);
    } else {
      assert Step(s, op).heads == s.heads;
    }
  }

  lemma {:induction false} RunSplits(s: System, ops: seq<Op>, k: nat)
    requires CanRun(s, ops) && k <= |ops|
    ensures CanRun(s, ops[..k]) && CanRun(Run(s, ops[..k]), ops[k..])
    decreases k
  {
    if k > 0 {
      RunSplits(Step(s, ops[0]), ops[1..], k - 1);
      assert ops[..k][1..] == ops[1..][..k - 1] && ops[1..][k - 1..] == ops[k..];
    }
  }

  /** At every step of every safe run, the heaps did what bags would: each get returned a minimum. */
  lemma {:induction false} RunRefinesBags(s: System, ops: seq<Op>, k: nat)
    requires CanRun(s, ops) && Consistent(s) && SafeRun(s, ops) && k < |ops|
    ensures CanRun(s, ops[..k]) && CanRun(s, ops[..k + 1])
    ensures var before, after := Run(s, ops[..k]), Run(s, ops[..k + 1]);
            BagStep(before.interval, BagsOf(before), ops[k], ReplyTo(before, ops[k]), BagsOf(after))
    decreases k
  {
    RunSplits(s, ops, k);
    RunSplits(s, ops, k + 1);
    StepKeepsConsistent(s, ops[0]);
    if k == 0 {
      assert ops[..0] == [] && ops[..1][1..] == [];
      StepRefinesBags(s, ops[0]);
    } else {
      assert ops[..k][1..] == ops[1..][..k - 1] && ops[..k + 1][1..] == ops[1..][..k];
      RunRefinesBags(Step(s, ops[0]), ops[1..], k - 1);
    }
  }

  // ---------- Exactly which interval writes are harmless ----------

  /** A heap of `n` requests whose root is `a` and whose other keys are those of `b`. */
  ghost function Topped(a: Rpc, b: Rpc, n: nat): (h: seq<Rpc>)
    ensures |h| == n
    ensures forall k :: 0 <= k < n ==> h[k] == if k == 0 then a.(id := 0) else b.(id := k)
  {
    seq(n, k requires 0 <= k < n => if k == 0 then a.(id := 0) else b.(id := k))
  }

  lemma ToppedIsDistinct(a: Rpc, b: Rpc, n: nat)
    ensures Service.DistinctIds(multiset(Topped(a, b, n)))
  {
    Service.DistinctPositions(Topped(a, b, n));
  }

  ghost predicate Sized(s: System, i: Interval, sizes: map<nat, nat>) {
    s.interval == i && s.heads.Keys == sizes.Keys && forall p :: p in sizes ==> |s.heads[p].heap| == sizes[p]
  }

  /**
    A write from `i` to `j` keeps every consistent system with these queue lengths consistent if and only if
    the widths are interchangeable or no queue holds two requests.
   */
  lemma WriteIsHarmlessIff(i: Interval, j: Interval, sizes: map<nat, nat>)
    ensures (forall s :: Sized(s, i, sizes) && Consistent(s) ==> Consistent(s.(interval := j)))
            <==> (Interchangeable(i, j) || forall p :: p in sizes ==> sizes[p] <= 1)
  {
    if Interchangeable(i, j) || forall p :: p in sizes ==> sizes[p] <= 1 {
      forall s | Sized(s, i, sizes) && Consistent(s)
        ensures Consistent(s.(interval := j))
      {
        assert Low32(j) == j;
        StepKeepsConsistent(s, WriteInterval(j));
      }
    } else {
      var p :| p in sizes && sizes[p] > 1;
      var s := HarmedSystem(i, j, sizes, p);
    }
  }

  ghost function ToppedSystem(i: Interval, a: Rpc, b: Rpc, sizes: map<nat, nat>): (s: System)
    ensures Sized(s, i, sizes)
    ensures forall p :: p in sizes ==> s.heads[p].heap == Topped(a, b, sizes[p])
  {
    System(i, map p | p in sizes :: Head.Head(Topped(a, b, sizes[p]), 1, map[]))
  }

  lemma HarmedSystem(i: Interval, j: Interval, sizes: map<nat, nat>, p: nat) returns (s: System)
    requires !Interchangeable(i, j) && p in sizes && sizes[p] > 1
    ensures Sized(s, i, sizes) && Consistent(s) && !Consistent(s.(interval := j))
  {
    var a, b := InversionExists(i, j);
    s := ToppedSystem(i, a, b, sizes);
    forall q | q in sizes
      ensures Head.InOrder(i, s.heads[q]) && Service.DistinctIds(multiset(s.heads[q].heap))
    {
      ToppedIsDistinct(a, b, sizes[q]);
      ToppedIsOrdered(i, a, b, sizes[q]);
    }
    ToppedIsDisordered(j, a, b, sizes[p]);
  }

  lemma ToppedIsDisordered(j: Interval, a: Rpc, b: Rpc, n: nat)
    requires Precedes(j, b, a) && n > 1
    ensures !Ordered(Comparator(j), Topped(a, b, n))
  {
    var h := Topped(a, b, n);
    assert Comparator(j)(h[1], h[Parent(1)]);
  }

  lemma ToppedIsOrdered(i: Interval, a: Rpc, b: Rpc, n: nat)
    requires Precedes(i, a, b)
    ensures Ordered(Comparator(i), Topped(a, b, n))
  {
    var h := Topped(a, b, n);
    forall k | 0 < k < n
      ensures !Comparator(i)(h[k], h[Parent(k)])
    {
      PrecedesIsLexicographic(i, a, b);
      PrecedesIsLexicographic(i, h[k], h[Parent(k)]);
    }
  }

  lemma TwoAdds(i: Interval, a: Rpc, b: Rpc)
    requires Precedes(i, a, b) && a.id != b.id
    ensures var one := Head.Apply(Head.FRESH, Head.Call(i, Head.Add(a, true)));
            && one.heap == [a]
            && Head.Apply(one, Head.Call(i, Head.Add(b, true))).heap == [a, b]
  {
    assert [] + [a] == [a] && [a] + [b] == [a, b];
    assert Insert(Comparator(i), [], a) == [a];
    assert Insert(Comparator(i), [a], b) == [a, b];
  }

  lemma StartAndAddTwo(i: Interval, p: nat, a: Rpc, b: Rpc)
    requires Precedes(i, a, b) && a.id != b.id
    ensures var s1, one, two := Step(System(i, map[]), Start(p)), On(p, Head.Add(a, true)), On(p, Head.Add(b, true));
            && Enabled(s1, one) && Enabled(Step(s1, one), two)
            && p in Step(Step(s1, one), two).heads && Step(Step(s1, one), two).heads[p].heap == [a, b]
  {
    TwoAdds(i, a, b);
  }

  lemma RunCons(s: System, op: Op, ops: seq<Op>)
    requires Enabled(s, op) && CanRun(Step(s, op), ops)
    ensures CanRun(s, [op] + ops) && Run(s, [op] + ops) == Run(Step(s, op), ops)
  {
    assert ([op] + ops)[1..] == ops;
  }

  lemma RunFour(s: System, o1: Op, o2: Op, o3: Op, o4: Op)
    requires Enabled(s, o1) && Enabled(Step(s, o1), o2) && Enabled(Step(Step(s, o1), o2), o3)
    requires Enabled(Step(Step(Step(s, o1), o2), o3), o4)
    ensures CanRun(s, [o1] + ([o2] + ([o3] + [o4])))
    ensures Run(s, [o1] + ([o2] + ([o3] + [o4]))) == Step(Step(Step(Step(s, o1), o2), o3), o4)
  {
    var s1 := Step(s, o1);
    var s2 := Step(s1, o2);
    assert [o4] + [] == [o4];
    RunCons(Step(s2, o3), o4, []);
    RunCons(s2, o3, [o4]);
    RunCons(s1, o2, [o3] + [o4]);
    RunCons(s, o1, [o2] + ([o3] + [o4]));
  }

  /** After any other change of width, a fresh instance with two requests can hand out the wrong one first. */
  lemma UnsafeWriteMisserves(i: Interval, j: Interval, p: nat) returns (a: Rpc, b: Rpc)
    requires !Interchangeable(i, j)
    ensures var ops := [Start(p)] + ([On(p, Head.Add(a, true))] + ([On(p, Head.Add(b, true))] + [WriteInterval(j)]));
            && CanRun(System(i, map[]), ops)
            && var s := Run(System(i, map[]), ops);
            && ReplyTo(s, On(p, Head.Get(false))) == Some(a)
            && p in s.heads && b in BagsOf(s)[p] && s.interval == j && Precedes(j, b, a)
  {
    a, b := InversionExists(i, j);
    b := b.(id := a.id + 1);
    StartAndAddTwo(i, p, a, b);
    assert b in multiset([a, b]);
    RunFour(System(i, map[]), Start(p), On(p, Head.Add(a, true)), On(p, Head.Add(b, true)), WriteInterval(j));
  }

  // ---------- One instance's view of a run ----------

  /** The calls that instance `p` receives, each with the interval then in force. */
  ghost function CallsOn(s: System, ops: seq<Op>, p: nat): seq<Head.Call>
    requires CanRun(s, ops)
    decreases |ops|
  {
    if ops == [] then []
    else (if ops[0].On? && ops[0].p == p then [Head.Call(s.interval, ops[0].op)] else [])
         + CallsOn(Step(s, ops[0]), ops[1..], p)
  }

  /** Between its start and its stop an instance depends only on its own calls, so the laws of one
      instance (conservation, numbering, waiting) hold of each instance in every run. */
  lemma {:induction false} InstanceSeesOwnCalls(s: System, ops: seq<Op>, p: nat)
    requires CanRun(s, ops) && p in s.heads && Stop(p) !in ops
    ensures Head.CanRun(s.heads[p], CallsOn(s, ops, p))
    ensures p in Run(s, ops).heads
    ensures Run(s, ops).heads[p] == Head.Run(s.heads[p], CallsOn(s, ops, p))
    decreases |ops|
  {
    if ops != [] {
      var op, rest := ops[0], CallsOn(Step(s, ops[0]), ops[1..], p);
      assert op in ops;
      InstanceSeesOwnCalls(Step(s, op), ops[1..], p);
      if op.On? && op.p == p {
        assert CallsOn(s, ops, p) == [Head.Call(s.interval, op.op)] + rest;
        assert CallsOn(s, ops, p)[1..] == rest;
      } else {
        assert CallsOn(s, ops, p) == rest;
        assert Step(s, op).heads[p] == s.heads[p];
      }
    }
  }

  /** From its start on, an instance is a fresh head that saw its own calls. */
  lemma InstanceFromStart(s: System, p: nat, ops: seq<Op>)
    requires Enabled(s, Start(p)) && CanRun(Step(s, Start(p)), ops) && Stop(p) !in ops
    ensures CanRun(s, [Start(p)] + ops)
    ensures var calls := CallsOn(Step(s, Start(p)), ops, p);
            && Head.CanRun(Head.FRESH, calls)
            && p in Run(s, [Start(p)] + ops).heads
            && Run(s, [Start(p)] + ops).heads[p] == Head.Run(Head.FRESH, calls)
  {
    RunCons(s, Start(p), ops);
    InstanceSeesOwnCalls(Step(s, Start(p)), ops, p);
  }

  // ---------- The interval over runs ----------

  /** The argument of the last write, or `default` if there was none. */
  ghost function LastWritten(ops: seq<Op>, default: Option<nat>): Option<nat> {
    if ops == [] then default
    else LastWritten(ops[1..], if ops[0].WriteInterval? then Some(ops[0].arg) else default)
  }

  lemma {:induction false} WrittenStays(ops: seq<Op>, arg: nat)
    ensures LastWritten(ops, Some(arg)).Some?
  {
    if ops != [] {
      WrittenStays(ops[1..], if ops[0].WriteInterval? then ops[0].arg else arg);
    }
  }

  /** `i` is what a 32-bit variable keeps of `arg`. */
  ghost predicate Keeps32(arg: nat, i: nat) {
    i < 0x1_0000_0000 && exists q: nat :: arg == q * 0x1_0000_0000 + i
  }

  lemma Low32Keeps(arg: nat, i: nat)
    ensures Low32(arg) == i <==> Keeps32(arg, i)
  {
    var q: nat := arg / 0x1_0000_0000;
    assert arg == q * 0x1_0000_0000 + Low32(arg);
  }

  /** After every run the interval is what 32 bits keep of the last value written, or what it was. */
  lemma {:induction false} IntervalIsLastWritten(s: System, ops: seq<Op>, default: Option<nat>)
    requires CanRun(s, ops) && (default.Some? ==> Keeps32(default.value, s.interval))
    ensures match LastWritten(ops, default)
            case Some(arg) => Keeps32(arg, Run(s, ops).interval)
            case None => Run(s, ops).interval == s.interval
    decreases |ops|
  {
    if ops != [] {
      var op := ops[0];
      if op.WriteInterval? {
        Low32Keeps(op.arg, Low32(op.arg));
        WrittenStays(ops[1..], op.arg);
      }
      IntervalIsLastWritten(Step(s, op), ops[1..], if op.WriteInterval? then Some(op.arg) else default);
    }
  }
}
