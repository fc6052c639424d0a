/** The SSCDT policy as objects: requests with stored heap positions, the heap, an instance, and the shared interval. */
module SscdtPolicy {
  import opened Common
  import opened SscdtOrder
  import H = BinaryHeap
  import opened SscdtHead
  import Service = SscdtService
  import System = SscdtSystem

  /** `ptlrpc_nrs_request`: the heap position (`chn_index`) and the sequence number are written by the policy. */
  class Request {
    const rpc: Rpc
    var index: int
    var sequence: nat

    constructor (rpc: Rpc)
      ensures this.rpc == rpc && index == -1
    {
      this.rpc := rpc;
      index := -1;
      sequence := 0;
    }
  }

  function Entries(nodes: seq<Request>): (s: seq<Rpc>)
    ensures |s| == |nodes| && forall i :: 0 <= i < |s| ==> s[i] == nodes[i].rpc
  {
    seq(|nodes|, i requires 0 <= i < |nodes| => nodes[i].rpc)
  }

  /** `cfs_binheap`: an array heap whose nodes know where they are. */
  class Binheap {
    var nodes: seq<Request>

    /** Every stored index points back at its node; hence no node is stored twice. */
    ghost predicate Valid()
      reads this, nodes
    {
      forall i :: 0 <= i < |nodes| ==> nodes[i].index == i
    }

    constructor ()
      ensures Valid() && nodes == []
    {
      nodes := [];
    }

    /** Exchanges two nodes and their indices. */
    method Exchange(i: nat, j: nat)
      requires Valid() && i < |nodes| && j < |nodes|
      modifies this, nodes`index
      ensures Valid() && nodes == H.Swap(old(nodes), i, j)
      ensures forall n :: n in nodes <==> n in old(nodes)
      ensures Entries(nodes) == H.Swap(old(Entries(nodes)), i, j)
    {
      nodes := nodes[i := nodes[j]][j := nodes[i]];
      nodes[i].index, nodes[j].index := i, j;
      forall k | 0 <= k < |nodes|
        ensures old(nodes)[k] in nodes
      {
        assert old(nodes)[k] == nodes[if k == i then j else if k == j then i else k];
      }
    }

    /** Moves `e` towards the root. */
    method Bubble(less: (Rpc, Rpc) -> bool, e: Request) returns (moved: bool)
      requires Valid() && e in nodes
      modifies this, nodes`index
      ensures Valid() && forall n :: n in nodes <==> n in old(nodes)
      ensures Entries(nodes) == H.Bubble(less, old(Entries(nodes)), old(e.index))
      ensures moved <==> old(e.index) > 0 && !less(old(nodes)[H.Parent(old(e.index))].rpc, e.rpc)
      ensures !moved ==> nodes == old(nodes)
    {
      var cur := e.index;
      moved := false;
      while cur > 0
        invariant 0 <= cur < |nodes| && Valid() && nodes[cur] == e
        invariant forall n :: n in nodes <==> n in old(nodes)
        invariant H.Bubble(less, Entries(nodes), cur) == H.Bubble(less, old(Entries(nodes)), old(e.index))
        invariant if moved then old(e.index) > 0 && !less(old(nodes)[H.Parent(old(e.index))].rpc, e.rpc)
                  else cur == old(e.index) && nodes == old(nodes)
      {
        var p := H.Parent(cur);
        if less(nodes[p].rpc, e.rpc) {
          break;
        }
        assert forall i :: 0 <= i < |nodes| ==> nodes[i] in old(nodes);
        Exchange(cur, p);
        cur, moved := p, true;
      }
    }

    /** The child of `cur` that must not stay below the other one. */
    method PickChild(less: (Rpc, Rpc) -> bool, cur: nat) returns (c: nat)
      requires 2 * cur + 1 < |nodes|
      ensures c == H.FirstChild(less, Entries(nodes), cur)
    {
      c := 2 * cur + 1;
      if c + 1 < |nodes| && less(nodes[c + 1].rpc, nodes[c].rpc) {
        c := c + 1;
      }
    }

    /** Moves `e` towards the leaves. */
    method Sink(less: (Rpc, Rpc) -> bool, e: Request)
      requires Valid() && e in nodes
      modifies this, nodes`index
      ensures Valid() && forall n :: n in nodes <==> n in old(nodes)
      ensures Entries(nodes) == H.Sink(less, old(Entries(nodes)), old(e.index))
    {
      var cur := e.index;
      while 2 * cur + 1 < |nodes|
        invariant 0 <= cur < |nodes| == |old(nodes)| && Valid() && nodes[cur] == e
        invariant forall n :: n in nodes <==> n in old(nodes)
        invariant H.Sink(less, Entries(nodes), cur) == H.Sink(less, old(Entries(nodes)), old(e.index))
        decreases |nodes| - cur
      {
        var c := PickChild(less, cur);
        if less(e.rpc, nodes[c].rpc) {
          break;
        }
        assert forall i :: 0 <= i < |nodes| ==> nodes[i] in old(nodes);
        Exchange(cur, c);
        cur := c;
      }
    }

    method Insert(less: (Rpc, Rpc) -> bool, e: Request)
      requires Valid() && e !in nodes
      modifies this, nodes`index, e`index
      ensures Valid() && forall n :: n in nodes <==> n in old(nodes) || n == e
      ensures Entries(nodes) == H.Insert(less, old(Entries(nodes)), e.rpc)
    {
      e.index := |nodes|;
      nodes := nodes + [e];
      assert nodes[|nodes| - 1] == e;
      assert Entries(nodes) == old(Entries(nodes)) + [e.rpc];
      var moved := Bubble(less, e);
    }

    method Root() returns (e: Request?)
      ensures e == if nodes == [] then null else nodes[0]
    {
      e := if nodes == [] then null else nodes[0];
    }

    /** Puts the last node into position `i`. */
    method Plug(i: nat)
      requires Valid() && i < |nodes| - 1
      modifies this, nodes`index
      ensures Valid() && |nodes| == |old(nodes)| - 1 && old(nodes)[i].index == -1
      ensures forall n :: n in nodes <==> n in old(nodes) && n != old(nodes)[i]
      ensures Entries(nodes) == H.Plug(old(Entries(nodes)), i)
    {
      var n := |nodes| - 1;
      var last := nodes[n];
      nodes[i].index := -1;
      last.index := i;
      nodes := nodes[..n][i := last];
      assert forall k :: 0 <= k < n ==> nodes[k] == if k == i then old(nodes)[n] else old(nodes)[k];
      forall k | 0 <= k <= n && k != i
        ensures old(nodes)[k] in nodes
      {
        assert old(nodes)[k] == nodes[if k == n then i else k];
      }
    }

    /** Takes `e` out from wherever its index says it is. */
    method Remove(less: (Rpc, Rpc) -> bool, e: Request)
      requires Valid() && e in nodes
      modifies this, nodes`index
      ensures Valid() && e.index == -1
      ensures forall n :: n in nodes <==> n in old(nodes) && n != e
      ensures Entries(nodes) == H.RemoveAt(less, old(Entries(nodes)), old(e.index))
    {
      var i, n := e.index, |nodes| - 1;
      if i == n {
        e.index := -1;
        nodes := nodes[..n];
        assert Entries(nodes) == old(Entries(nodes))[..n];
      } else {
        Plug(i);
        var last := nodes[i];
        ghost var g := Entries(nodes);
        assert forall k :: 0 <= k < |nodes| ==> nodes[k] in old(nodes);
        assert last in nodes;
        var moved := Bubble(less, last);
        if moved {
          assert Entries(nodes) == H.Bubble(less, g, i);
        } else {
          assert Entries(nodes) == g && last.index == i;
          Sink(less, last);
          assert Entries(nodes) == H.Sink(less, g, i);
        }
      }
    }
  }

  datatype Opcode = ReadInterval | WriteInterval | Unknown

  const EINVAL := 22
  const ENOMEM := 12

  /** The module-wide `interval`, a `__u32` shared by all instances. */
  class Tunables {
    var interval: nat

    constructor ()
      ensures interval == 1000
    {
      interval := 1000;
    }

    /** `nrs_sscdt_ctl`; `arg` holds a `__u64` that a read overwrites. */
    method Ctl(opc: Opcode, arg: nat) returns (rc: int, out: nat)
      requires arg < WRAP && interval < 0x1_0000_0000
      modifies this
      ensures rc == if opc.Unknown? then -EINVAL else 0
      ensures out == if opc.ReadInterval? then old(interval) else arg
      ensures interval == if opc.WriteInterval? then System.Low32(arg) else old(interval)
    {
      rc, out := 0, arg;
      match opc
      case Unknown => rc := -EINVAL;
      case ReadInterval => out := interval;
      case WriteInterval => interval := arg % 0x1_0000_0000;
    }
  }

  lemma RepeatCounts(h: seq<Rpc>, i: nat, j: nat)
    requires i < j < |h| && h[i] == h[j]
    ensures multiset(h)[h[i]] >= 2
  {
    assert h == h[..i] + [h[i]] + h[i + 1..j] + [h[j]] + h[j + 1..];
  }

  lemma UniquePosition(h: seq<Rpc>, i: nat, j: nat)
    requires Service.DistinctIds(multiset(h)) && i < |h| && j < |h| && h[i].id == h[j].id
    ensures i == j
  {
    assert h[i] in multiset(h) && h[j] in multiset(h);
    if i != j {
      RepeatCounts(h, if i < j then i else j, if i < j then j else i);
    }
  }

  /** `nrs_sscdt_head`: one policy instance. */
  class Policy {
    const tunables: Tunables
    const heap: Binheap
    var sequence: nat
    ghost var numbers: map<nat, nat>

    ghost function State(): Head
      reads this, heap
    {
      Head(Entries(heap.nodes), sequence, numbers)
    }

    /** Back-pointers are right, and `numbers` records what was written into the queued requests. */
    ghost predicate Valid()
      reads this, heap, heap.nodes
    {
      && heap.Valid()
      && NumbersMatch(heap.nodes)
    }

    ghost predicate NumbersMatch(nodes: seq<Request>)
      reads this, nodes
    {
      forall n :: n in nodes ==> n.rpc.id in numbers && numbers[n.rpc.id] == n.sequence
    }

    /** `nrs_sscdt_start`. */
    constructor (tunables: Tunables)
      ensures Valid() && State() == FRESH && this.tunables == tunables && fresh(heap)
    {
      this.tunables := tunables;
      heap := new Binheap();
      sequence := 1;
      numbers := map[];
    }

    /** `nrs_sscdt_stop`: its assertion demands an empty heap. */
    method Stop()
      requires Valid() && State().heap == []
      ensures heap.nodes == []
    {
      assert |heap.nodes| == 0;
    }

    /** `nrs_sscdt_req_get`. */
    method Get(peek: bool) returns (r: Request?)
      requires Valid() && System.IsInterval(tunables.interval)
      modifies heap, heap.nodes`index
      ensures Valid() && State() == Apply(old(State()), Call(tunables.interval, SscdtHead.Get(peek)))
      ensures (if r == null then None else Some(r.rpc)) == Reply(old(State()))
      ensures r != null ==> r in old(heap.nodes)
      ensures forall n :: n in heap.nodes <==> n in old(heap.nodes) && (peek || n != r)
    {
      r := heap.Root();
      if !peek && r != null {
        heap.Remove(Comparator(tunables.interval), r);
      }
    }

    /** `nrs_sscdt_req_add`; `room` is false when the heap cannot grow. The number is used up either way. */
    method Add(r: Request, room: bool) returns (rc: int)
      requires Valid() && System.IsInterval(tunables.interval)
      requires Enabled(State(), SscdtHead.Add(r.rpc, room))
      modifies this`sequence, this`numbers, heap, heap.nodes`index, r`index, r`sequence
      ensures Valid() && State() == Apply(old(State()), Call(tunables.interval, SscdtHead.Add(r.rpc, room)))
      ensures r.sequence == old(sequence)
      ensures rc == if room then 0 else -ENOMEM
      ensures forall n :: n in heap.nodes <==> n in old(heap.nodes) || (room && n == r)
    {
      ghost var c := Call(tunables.interval, SscdtHead.Add(r.rpc, room));
      ghost var next := Apply(State(), c);
      assert forall n :: n in heap.nodes ==> n.rpc.id != r.rpc.id by {
        assert forall i :: 0 <= i < |heap.nodes| ==> Entries(heap.nodes)[i].id != r.rpc.id;
      }
      rc := if room then 0 else -ENOMEM;
      if room {
        heap.Insert(Comparator(tunables.interval), r);
      }
      r.sequence := sequence;
      numbers := numbers[r.rpc.id := sequence];
      sequence := Bump(sequence);
      assert State() == next;
      assert NumbersMatch(heap.nodes);
    }

    /** `nrs_sscdt_req_del`: the request is found through its stored index, not by searching. Ids stand for
        addresses, so they name queued requests; every operation keeps it so (`ApplyKeepsDistinct`). */
    method Del(r: Request)
      requires Valid() && System.IsInterval(tunables.interval) && r in heap.nodes
      requires Service.DistinctIds(multiset(State().heap))
      modifies heap, heap.nodes`index
      ensures old(Enabled(State(), SscdtHead.Del(r.rpc.id)))
      ensures Valid() && State() == Apply(old(State()), Call(tunables.interval, SscdtHead.Del(r.rpc.id)))
      ensures forall n :: n in heap.nodes <==> n in old(heap.nodes) && n != r
    {
      ghost var h := Entries(heap.nodes);
      assert h[r.index].id == r.rpc.id;
      assert Queued(h, r.rpc.id);
      UniquePosition(h, r.index, IndexOf(h, r.rpc.id));
      heap.Remove(Comparator(tunables.interval), r);
    }
  }
}
