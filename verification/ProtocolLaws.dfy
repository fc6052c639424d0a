/**
  Laws of single events and of passes: what an event leaves alone, what a pass counts, and when exactly the
  controller leaves a barrier.
 */
module ProtocolLaws {
  import opened SignalProtocol
  import opened Drivers
  import opened PromptRuns

  // ---------- What one event changes ----------

  /** The command that an event is about. */
  function Subject(e: Event): nat
    requires Background(e)
  {
    e.k
  }

  /** Commands and workers other than `k`, and files other than `n`, are as before. */
  ghost predicate OthersUnchanged(s: State, t: State, k: nat, n: Addr) {
    && t.pc == s.pc && t.pos == s.pos && t.count == s.count
    && (forall j :: j != k ==>
          (j in t.flying <==> j in s.flying) && (j in t.started <==> j in s.started) && (j in t.ended <==> j in s.ended))
    && (forall m :: m != n ==> SignalOf(t, m) == SignalOf(s, m))
  }

  /** An event of command `k` touches `k` and the file of its node; only a restart stops other workers, and
      exactly those of its node. */
  lemma EventFrame(prog: Program, s: State, e: Event)
    requires Enabled(prog, s, e) && Background(e) && Subject(e) < |prog| && prog[Subject(e)].Post?
    ensures var t, k := Step(prog, s, e), Subject(e);
            && OthersUnchanged(s, t, k, prog[k].node)
            && forall j :: j != k ==>
                 (j in t.running <==> j in s.running
                                      && !(e.Arrive? && prog[k].cmd.Restart? && PostsAt(prog, j, Work, prog[k].node)))
  {
  }

  /** What happens to the command itself and to the file of its node. */
  lemma EventEffect(prog: Program, s: State, e: Event)
    requires Enabled(prog, s, e) && Background(e) && Tidy(prog, s) && Subject(e) < |prog| && prog[Subject(e)].Post?
    ensures var t, k := Step(prog, s, e), Subject(e);
            var cmd, n := prog[k].cmd, prog[k].node;
            && k !in t.flying
            && (k in t.running <==> e.Arrive? && cmd.Work?)
            && (k in t.started <==> k in s.started || (e.Arrive? && cmd.Work?))
            && (k in t.ended <==> e.Finish?)
            && SignalOf(t, n) == (if e.Finish? then Execute
                                  else if e.Arrive? && (cmd.Clear? || cmd.Work?) then Blank
                                  else if e.Arrive? && cmd.MarkReboot? then Reboot
                                  else SignalOf(s, n))
  {
  }

  /** The controller touches neither workers nor files; sending puts one command on its way. */
  lemma ControllerFrame(prog: Program, s: State, e: Event)
    requires Enabled(prog, s, e) && !Background(e)
    ensures var t := Step(prog, s, e);
            && t.running == s.running && t.started == s.started && t.ended == s.ended && t.signals == s.signals
            && t.flying == s.flying + (if e.Send? then {s.pc} else {})
            && (e.Send? ==> t.pc == s.pc + 1 && t.pos == s.pos && t.count == s.count)
            && (e.Poll? ==> t.pc == s.pc && t.pos == s.pos + 1)
            && (e == Poll(false) ==> t.count == s.count)
            && (e.Decide? ==> t.pos == 0 && t.count == 0)
  {
  }

  /** In every reachable state any command may arrive or be lost, any worker may end or die, and the controller
      can go on. */
  lemma NothingIsRefused(prog: Program, start: Track, s: State, es: seq<Event>, k: nat)
    requires StartsAs(start, s) && CanRun(prog, s, es)
    ensures var t := Run(prog, s, es);
            && (k in t.flying ==> Enabled(prog, t, Arrive(k)) && Enabled(prog, t, Lose(k)))
            && (k in t.running ==> Enabled(prog, t, Finish(k)) && Enabled(prog, t, Die(k)))
            && (t.pc < |prog| && prog[t.pc].Post? ==> Enabled(prog, t, Send))
            && (t.pc < |prog| && prog[t.pc].Await? ==>
                  Enabled(prog, t, Decide) || (Enabled(prog, t, Poll(true)) && Enabled(prog, t, Poll(false))))
  {
    RunKeepsInv(prog, start, s, es);
    if k in Run(prog, s, es).flying {
      FlyingWerePosted(prog, s, es, k);
    }
  }

  lemma {:induction false} FlyingWerePosted(prog: Program, s: State, es: seq<Event>, k: nat)
    requires Initial(s) && CanRun(prog, s, es) && k in Run(prog, s, es).flying
    ensures k < |prog| && prog[k].Post?
    decreases |es|
  {
    var front := es[..|es| - 1];
    if k in Run(prog, s, front).flying {
      FlyingWerePosted(prog, s, front, k);
    }
  }

  // ---------- What a pass counts ----------

  lemma {:induction false} PrefixRuns(prog: Program, s: State, es: seq<Event>, k: nat)
    requires CanRun(prog, s, es) && k <= |es|
    ensures CanRun(prog, s, es[..k])
    decreases |es|
  {
    if k < |es| {
      PrefixRuns(prog, s, es[..|es| - 1], k);
      assert es[..|es| - 1][..k] == es[..k];
    } else {
      assert es[..k] == es;
    }
  }

  /** Where the current pass begins: after the last command sent or decision made. */
  function PassStart(es: seq<Event>): (m: nat)
    ensures m <= |es|
  {
    if es == [] then 0
    else if es[|es| - 1].Send? || es[|es| - 1].Decide? then |es|
    else PassStart(es[..|es| - 1])
  }

  /** The k-th event is a read that was answered and showed the wanted signal. */
  ghost predicate Hit(prog: Program, s: State, es: seq<Event>, k: nat) {
    && k < |es| && es[k] == Poll(true) && CanRun(prog, s, es[..k])
    && var t := Run(prog, s, es[..k]);
       && t.pc < |prog| && prog[t.pc].Await? && t.pos < |prog[t.pc].words|
       && SignalOf(t, prog[t.pc].words[t.pos]) == prog[t.pc].want
  }

  ghost function Hits(prog: Program, s: State, es: seq<Event>): set<nat> {
    set k: nat | PassStart(es) <= k < |es| && Hit(prog, s, es, k)
  }

  ghost function Reads(es: seq<Event>): set<nat> {
    set k: nat | PassStart(es) <= k < |es| && es[k].Poll?
  }

  lemma HitsAppend(prog: Program, s: State, front: seq<Event>, e: Event)
    requires CanRun(prog, s, front)
    ensures var es := front + [e];
            if e.Send? || e.Decide? then Hits(prog, s, es) == {} && Reads(es) == {}
            else
              && Hits(prog, s, es) == Hits(prog, s, front) + (if Hit(prog, s, es, |front|) then {|front|} else {})
              && Reads(es) == Reads(front) + (if e.Poll? then {|front|} else {})
  {
    var es := front + [e];
    assert es[..|front|] == front;
    forall k: nat | k < |front|
      ensures Hit(prog, s, es, k) <==> Hit(prog, s, front, k)
    {
      assert es[..k] == front[..k];
    }
  }

  ghost predicate Counts(prog: Program, t: State, hits: nat, polls: nat) {
    t.count == hits && t.pos == polls && (t.pc >= |prog| || prog[t.pc].Post? ==> t.pos == 0 && t.count == 0)
  }

  predicate Shows(prog: Program, t: State)
    requires t.pc < |prog| && prog[t.pc].Await? && t.pos < |prog[t.pc].words|
  {
    SignalOf(t, prog[t.pc].words[t.pos]) == prog[t.pc].want
  }

  /** A read adds to the position, and to the count exactly if it is answered and shows the wanted signal. */
  lemma StepCounts(prog: Program, t: State, e: Event, h: nat, r: nat)
    requires Enabled(prog, t, e) && Counts(prog, t, h, r)
    ensures Counts(prog, Step(prog, t, e),
                   if e.Send? || e.Decide? then 0 else if e == Poll(true) && Shows(prog, t) then h + 1 else h,
                   if e.Send? || e.Decide? then 0 else if e.Poll? then r + 1 else r)
  {
  }

  lemma SizesAppend(prog: Program, s: State, front: seq<Event>, e: Event)
    requires CanRun(prog, s, front) && Enabled(prog, Run(prog, s, front), e)
    ensures |Hits(prog, s, front + [e])|
            == if e.Send? || e.Decide? then 0
               else if e == Poll(true) && Shows(prog, Run(prog, s, front)) then |Hits(prog, s, front)| + 1
               else |Hits(prog, s, front)|
    ensures |Reads(front + [e])|
            == if e.Send? || e.Decide? then 0 else if e.Poll? then |Reads(front)| + 1 else |Reads(front)|
  {
    HitsAppend(prog, s, front, e);
    assert (front + [e])[..|front|] == front;
    assert |front| !in Hits(prog, s, front) && |front| !in Reads(front);
  }

  /** In every run the count is the number of answered reads of this pass that showed the wanted signal, and the
      position is the number of its reads. */
  lemma {:induction false} CountIsHits(prog: Program, s: State, es: seq<Event>)
    requires Initial(s) && CanRun(prog, s, es)
    ensures Counts(prog, Run(prog, s, es), |Hits(prog, s, es)|, |Reads(es)|)
    decreases |es|
  {
    if es != [] {
      var front, e := es[..|es| - 1], es[|es| - 1];
      CountIsHits(prog, s, front);
      StepCounts(prog, Run(prog, s, front), e, |Hits(prog, s, front)|, |Reads(front)|);
      SizesAppend(prog, s, front, e);
      assert front + [e] == es;
    }
  }

  lemma LeavesIff(prog: Program, t: State, e: Event, h: nat, r: nat)
    requires Enabled(prog, t, e) && Counts(prog, t, h, r) && t.pc < |prog| && prog[t.pc].Await?
    ensures Step(prog, t, e).pc != t.pc <==> e.Decide? && h == prog[t.pc].lines
    ensures e.Decide? ==> r == |prog[t.pc].words|
    ensures Step(prog, t, e).pc == t.pc || Step(prog, t, e).pc == t.pc + 1
  {
  }

  /** In every run the controller leaves a barrier at an event if and only if that event is the decision after a
      whole pass whose hits are as many as the table has lines. */
  lemma LeavesBarrierIff(prog: Program, s: State, es: seq<Event>, t: State, e: Event)
    requires Initial(s) && Reaches(prog, s, es, t) && Enabled(prog, t, e) && t.pc < |prog| && prog[t.pc].Await?
    ensures Reaches(prog, s, es + [e], Step(prog, t, e))
    ensures Step(prog, t, e).pc != t.pc <==> e.Decide? && |Hits(prog, s, es)| == prog[t.pc].lines
    ensures e.Decide? ==> |Reads(es)| == |prog[t.pc].words|
    ensures Step(prog, t, e).pc == t.pc || Step(prog, t, e).pc == t.pc + 1
  {
    Extend(prog, s, es, t, e);
    CountIsHits(prog, s, es);
    LeavesIff(prog, t, e, |Hits(prog, s, es)|, |Reads(es)|);
  }

  // ---------- Workers that run at the same time ----------

  /** The workers of a phase whose first command is the instruction at `at`. */
  ghost function PhaseWorkers(at: nat, n: nat): (w: set<nat>)
    ensures forall k :: k in w <==> at <= k < at + n
  {
    if n == 0 then {} else PhaseWorkers(at, n - 1) + {at + n - 1}
  }

  ghost predicate PhaseAt(prog: Program, at: nat, t: Table) {
    && at + |t.words| < |prog|
    && (forall i :: 0 <= i < |t.words| ==> prog[at + i] == Post(Work, t.words[i]))
    && prog[at + |t.words|] == Await(t.words, t.lines, Execute)
  }

  /** The commands of the phase are sent one after the other and none arrives yet. */
  lemma {:induction false} SendAll(prog: Program, s: State, es: seq<Event>, base: State, t: Table, m: nat)
      returns (fs: seq<Event>)
    requires Still(base) && Reaches(prog, s, es, base) && PhaseAt(prog, base.pc, t) && m <= |t.words|
    ensures Reaches(prog, s, fs, base.(pc := base.pc + m, flying := base.flying + PhaseWorkers(base.pc, m)))
    decreases m
  {
    if m == 0 {
      fs := es;
      assert base.flying + PhaseWorkers(base.pc, 0) == base.flying;
    } else {
      fs := SendAll(prog, s, es, base, t, m - 1);
      var u := base.(pc := base.pc + m - 1, flying := base.flying + PhaseWorkers(base.pc, m - 1));
      assert prog[base.pc + (m - 1)] == Post(Work, t.words[m - 1]);
      Extend(prog, s, fs, u, Send);
      fs := fs + [Send];
      assert PhaseWorkers(base.pc, m) == PhaseWorkers(base.pc, m - 1) + {base.pc + m - 1};
      assert u.flying + {u.pc} == base.flying + PhaseWorkers(base.pc, m);
    }
  }

  /** What the arrivals of the first `m` workers leave unchanged. */
  ghost predicate AllRunning(t: State, base: State, n: nat, m: nat) {
    && t.pc == base.pc + n && t.pos == 0 && t.count == 0 && t.ended == base.ended
    && t.flying == base.flying + (PhaseWorkers(base.pc, n) - PhaseWorkers(base.pc, m))
    && t.running == PhaseWorkers(base.pc, m) && t.started == base.started + PhaseWorkers(base.pc, m)
  }

  lemma {:induction false} ArriveAll(prog: Program, s: State, es: seq<Event>, base: State, t: Table, m: nat)
      returns (fs: seq<Event>, u: State)
    requires Still(base) && PhaseAt(prog, base.pc, t) && m <= |t.words|
    requires Reaches(prog, s, es, base.(pc := base.pc + |t.words|, flying := base.flying + PhaseWorkers(base.pc, |t.words|)))
    ensures Reaches(prog, s, fs, u) && AllRunning(u, base, |t.words|, m)
    decreases m
  {
    var n := |t.words|;
    if m == 0 {
      fs, u := es, base.(pc := base.pc + n, flying := base.flying + PhaseWorkers(base.pc, n));
      assert PhaseWorkers(base.pc, 0) == {};
    } else {
      var v: State, k := base, base.pc + m - 1;
      fs, v := ArriveAll(prog, s, es, base, t, m - 1);
      assert prog[base.pc + (m - 1)] == Post(Work, t.words[m - 1]);
      Extend(prog, s, fs, v, Arrive(k));
      fs, u := fs + [Arrive(k)], Step(prog, v, Arrive(k));
      assert PhaseWorkers(base.pc, m) == PhaseWorkers(base.pc, m - 1) + {k};
      assert k !in base.flying;
      assert u.flying == base.flying + (PhaseWorkers(base.pc, n) - PhaseWorkers(base.pc, m));
    }
  }

  /** The workers of `done` have ended since `t`, and nothing else has happened to workers. */
  ghost predicate EndedSince(t: State, u: State, done: set<nat>) {
    && u.pc == t.pc && u.pos == t.pos && u.count == t.count && u.flying == t.flying && u.started == t.started
    && u.running == t.running - done && u.ended == t.ended + done
  }

  ghost predicate ShowExecute(prog: Program, u: State, ks: seq<nat>) {
    forall i :: 0 <= i < |ks| ==> ks[i] < |prog| && prog[ks[i]].Post? && SignalOf(u, prog[ks[i]].node) == Execute
  }

  ghost function Members(ks: seq<nat>): set<nat> {
    set k | k in ks
  }

  lemma FinishOne(prog: Program, t: State, v: State, front: seq<nat>, k: nat)
    requires EndedSince(t, v, Members(front)) && ShowExecute(prog, v, front) && Enabled(prog, v, Finish(k))
    ensures EndedSince(t, Step(prog, v, Finish(k)), Members(front + [k]))
    ensures ShowExecute(prog, Step(prog, v, Finish(k)), front + [k])
  {
    assert Members(front + [k]) == Members(front) + {k};
  }

  /** Running workers end in any order; each writes EXECUTE on its node and stops none of the others. */
  lemma {:induction false} FinishAll(prog: Program, s: State, es: seq<Event>, t: State, order: seq<nat>)
      returns (fs: seq<Event>, u: State)
    requires Reaches(prog, s, es, t)
    requires forall i :: 0 <= i < |order| ==> order[i] in t.running && order[i] < |prog| && prog[order[i]].Post?
    requires forall i, j :: 0 <= i < j < |order| ==> order[i] != order[j]
    ensures Reaches(prog, s, fs, u) && EndedSince(t, u, Members(order)) && ShowExecute(prog, u, order)
    decreases |order|
  {
    if order == [] {
      fs, u := es, t;
    } else {
      var front, k := order[..|order| - 1], order[|order| - 1];
      var v: State;
      fs, v := FinishAll(prog, s, es, t, front);
      assert order == front + [k] && k !in front;
      Extend(prog, s, fs, v, Finish(k));
      FinishOne(prog, t, v, front, k);
      fs, u := fs + [Finish(k)], Step(prog, v, Finish(k));
    }
  }

  /** A run that has all workers of a phase running at once, lets them end in any given order, and passes the barrier. */
  lemma ConcurrentPhase(prog: Program, s: State, es: seq<Event>, base: State, t: Table, order: seq<nat>)
      returns (fs: seq<Event>, gs: seq<Event>)
    requires Still(base) && Reaches(prog, s, es, base) && PhaseAt(prog, base.pc, t) && t.lines == |t.words|
    requires forall k :: k in order <==> k in PhaseWorkers(base.pc, |t.words|)
    requires forall i, j :: 0 <= i < j < |order| ==> order[i] != order[j]
    ensures CanRun(prog, s, fs) && Run(prog, s, fs).running == PhaseWorkers(base.pc, |t.words|)
    ensures CanRun(prog, s, gs) && Run(prog, s, gs).running == {}
    ensures Run(prog, s, gs).ended == base.ended + PhaseWorkers(base.pc, |t.words|)
    ensures Run(prog, s, gs).pc == base.pc + |t.words| + 1
  {
    var n, w := |t.words|, PhaseWorkers(base.pc, |t.words|);
    fs := SendAll(prog, s, es, base, t, n);
    var u: State, v: State;
    fs, u := ArriveAll(prog, s, fs, base, t, n);
    forall i | 0 <= i < |order|
      ensures order[i] in u.running && order[i] < |prog| && prog[order[i]].Post?
    {
      assert order[i] in order;
      var k := order[i] - base.pc;
      assert prog[base.pc + k] == Post(Work, t.words[k]);
    }
    gs, v := FinishAll(prog, s, fs, u, order);
    assert Members(order) == w;
    assert forall n :: n in t.words ==> SignalOf(v, n) == Execute by {
      EveryNodeShows(prog, base.pc, t, order, v);
    }
    gs := PassReady(prog, s, gs, v, t);
  }

  lemma EveryNodeShows(prog: Program, at: nat, t: Table, order: seq<nat>, v: State)
    requires PhaseAt(prog, at, t) && forall k :: k in order <==> k in PhaseWorkers(at, |t.words|)
    requires ShowExecute(prog, v, order)
    ensures forall n :: n in t.words ==> SignalOf(v, n) == Execute
  {
    forall n | n in t.words
      ensures SignalOf(v, n) == Execute
    {
      var i :| 0 <= i < |t.words| && t.words[i] == n;
      assert prog[at + i] == Post(Work, n);
      assert at + i in PhaseWorkers(at, |t.words|);
      var j :| 0 <= j < |order| && order[j] == at + i;
    }
  }

  /** A barrier whose nodes all show the wanted signal is passed by one pass. */
  lemma PassReady(prog: Program, s: State, es: seq<Event>, v: State, t: Table) returns (gs: seq<Event>)
    requires Still(v) && Reaches(prog, s, es, v) && v.pc < |prog| && prog[v.pc] == Await(t.words, t.lines, Execute)
    requires t.lines == |t.words| && forall n :: n in t.words ==> SignalOf(v, n) == Execute
    ensures Reaches(prog, s, gs, v.(pc := v.pc + 1))
  {
    var p := prog[..v.pc];
    NothingFollows(v, p);
    NothingFollows(v, p + [prog[v.pc]]);
    gs := PassBarrier(prog, s, es, v, p, {});
  }
}
