/**
  Runs in which everything is prompt except a few held commands that are still on their way. They show what a
  script can do, as opposed to what it always does.
 */
module PromptRuns {
  import opened SignalProtocol
  import opened Drivers

  /** The controller has just passed an instruction, and no worker is running. */
  ghost predicate Still(s: State) {
    s.pos == s.count == 0 && s.running == {} && forall k :: k in s.flying ==> k < s.pc
  }

  function Effect(cmd: Cmd): Signal {
    if cmd.Work? then Execute else if cmd.MarkReboot? then Reboot else Blank
  }

  /** Signals after the instructions of `p` that follow `base`, when every command outside `held` arrives, and
      ends, at once. */
  ghost function Signals(base: State, p: Program, held: set<nat>): map<Addr, Signal> {
    if |p| <= base.pc then base.signals
    else
      var before, i := Signals(base, p[..|p| - 1], held), p[|p| - 1];
      if i.Await? || |p| - 1 in held || i.cmd.Plain? || i.cmd.Restart? then before
      else before[i.node := Effect(i.cmd)]
  }

  ghost function Look(base: State, p: Program, held: set<nat>, n: Addr): Signal {
    var m := Signals(base, p, held);
    if n in m then m[n] else Blank
  }

  /** Every barrier after `base` finds its signals. */
  ghost predicate Opens(base: State, p: Program, held: set<nat>) {
    |p| <= base.pc
    || (Opens(base, p[..|p| - 1], held) && (p[|p| - 1].Await? ==> Open(base, p[..|p| - 1], held, p[|p| - 1])))
  }

  ghost predicate Open(base: State, p: Program, held: set<nat>, i: Instr)
    requires i.Await?
  {
    i.lines == |i.words| && forall n :: n in i.words ==> Look(base, p, held, n) == i.want
  }

  ghost function Workers(base: State, p: Program, held: set<nat>): set<nat> {
    set k | base.pc <= k < |p| && k !in held && p[k].Post? && p[k].cmd.Work?
  }

  ghost function Posted(base: State, p: Program, held: set<nat>): set<nat> {
    set k | k in held && base.pc <= k < |p| && p[k].Post?
  }

  ghost function PromptState(base: State, p: Program, held: set<nat>): State {
    base.(pc := |p|, flying := base.flying + Posted(base, p, held),
          started := base.started + Workers(base, p, held), ended := base.ended + Workers(base, p, held),
          signals := Signals(base, p, held))
  }

  // ---------- The runs ----------

  ghost predicate Reaches(prog: Program, s: State, es: seq<Event>, t: State) {
    CanRun(prog, s, es) && Run(prog, s, es) == t
  }

  lemma Extend(prog: Program, s: State, es: seq<Event>, t: State, e: Event)
    requires Reaches(prog, s, es, t) && Enabled(prog, t, e)
    ensures Reaches(prog, s, es + [e], Step(prog, t, e))
  {
    assert (es + [e])[..|es|] == es;
  }

  /** Polling an open barrier counts every node. */
  lemma {:induction false} PollAll(prog: Program, s: State, es: seq<Event>, base: State, p: Program, held: set<nat>, m: nat)
      returns (fs: seq<Event>)
    requires p < prog && prog[|p|].Await? && Open(base, p, held, prog[|p|]) && m <= |prog[|p|].words|
    requires Still(base) && Reaches(prog, s, es, PromptState(base, p, held))
    ensures Reaches(prog, s, fs, PromptState(base, p, held).(pos := m, count := m))
    decreases m
  {
    if m == 0 {
      fs := es;
    } else {
      var t := PromptState(base, p, held).(pos := m - 1, count := m - 1);
      fs := PollAll(prog, s, es, base, p, held, m - 1);
      var n := prog[|p|].words[m - 1];
      assert n in prog[|p|].words && Look(base, p, held, n) == prog[|p|].want;
      Extend(prog, s, fs, t, Poll(true));
      fs := fs + [Poll(true)];
    }
  }

  lemma NextState(base: State, p: Program, held: set<nat>, i: Instr)
    requires Still(base) && base.pc <= |p| && i.Post?
    ensures var k, s := |p|, PromptState(base, p, held);
            PromptState(base, p + [i], held)
            == if k in held then s.(pc := k + 1, flying := s.flying + {k})
               else if i.cmd.Work? then
                 s.(pc := k + 1, started := s.started + {k}, ended := s.ended + {k}, signals := s.signals[i.node := Execute])
               else if i.cmd.Plain? || i.cmd.Restart? then s.(pc := k + 1)
               else s.(pc := k + 1, signals := s.signals[i.node := Effect(i.cmd)])
    ensures |p| !in PromptState(base, p, held).flying
  {
    var k, q := |p|, p + [i];
    assert q[..k] == p;
    assert Posted(base, q, held) == if k in held then Posted(base, p, held) + {k} else Posted(base, p, held);
    assert Workers(base, q, held)
        == if k !in held && i.cmd.Work? then Workers(base, p, held) + {k} else Workers(base, p, held);
  }

  /** What arriving, and ending if it is a worker, does to a state in which only that command moves. */
  lemma ArriveAndEnd(prog: Program, s: State, k: nat)
    requires k < |prog| && prog[k].Post? && k in s.flying && s.running == {}
    ensures var i, a := prog[k], Step(prog, s, Arrive(k));
            if i.cmd.Work? then
              && Enabled(prog, a, Finish(k))
              && Step(prog, a, Finish(k))
                 == s.(flying := s.flying - {k}, started := s.started + {k}, ended := s.ended + {k},
                       signals := s.signals[i.node := Execute])
            else if i.cmd.Plain? || i.cmd.Restart? then a == s.(flying := s.flying - {k})
            else a == s.(flying := s.flying - {k}, signals := s.signals[i.node := Effect(i.cmd)])
  {
    var i := prog[k];
    if i.cmd.Work? {
      assert s.running + {k} - {k} == {};
      assert s.signals[i.node := Blank][i.node := Execute] == s.signals[i.node := Execute];
    } else {
      assert Step(prog, s, Arrive(k)).running == {};
    }
  }

  lemma PromptPost(prog: Program, s: State, es: seq<Event>, base: State, p: Program, held: set<nat>)
      returns (fs: seq<Event>)
    requires base.pc <= |p| && p < prog && prog[|p|].Post?
    requires Still(base) && Reaches(prog, s, es, PromptState(base, p, held))
    ensures Reaches(prog, s, fs, PromptState(base, p + [prog[|p|]], held))
  {
    var k, t := |p|, PromptState(base, p, held);
    NextState(base, p, held, prog[k]);
    Extend(prog, s, es, t, Send);
    fs := es + [Send];
    if k !in held {
      var u := Step(prog, t, Send);
      assert u.flying - {k} == t.flying;
      ArriveAndEnd(prog, u, k);
      Extend(prog, s, fs, u, Arrive(k));
      fs := fs + [Arrive(k)];
      if prog[k].cmd.Work? {
        Extend(prog, s, fs, Step(prog, u, Arrive(k)), Finish(k));
        fs := fs + [Finish(k)];
      }
    }
  }

  lemma PassBarrier(prog: Program, s: State, es: seq<Event>, base: State, p: Program, held: set<nat>)
      returns (fs: seq<Event>)
    requires base.pc <= |p| && p < prog && prog[|p|].Await? && Open(base, p, held, prog[|p|])
    requires Still(base) && Reaches(prog, s, es, PromptState(base, p, held))
    ensures Reaches(prog, s, fs, PromptState(base, p + [prog[|p|]], held))
  {
    var i, q := prog[|p|], p + [prog[|p|]];
    fs := PollAll(prog, s, es, base, p, held, |i.words|);
    Extend(prog, s, fs, PromptState(base, p, held).(pos := |i.words|, count := |i.words|), Decide);
    fs := fs + [Decide];
    assert q[..|p|] == p;
    assert Posted(base, q, held) == Posted(base, p, held) && Workers(base, q, held) == Workers(base, p, held);
  }

  lemma NothingFollows(t: State, p: Program)
    requires t.pc == |p| || (t.pc == |p| - 1 && p[t.pc].Await?)
    ensures PromptState(t, p, {}) == t.(pc := |p|)
  {
    assert Workers(t, p, {}) == {} && Posted(t, p, {}) == {};
    assert t.started + {} == t.started && t.ended + {} == t.ended && t.flying + {} == t.flying;
    assert Signals(t, p, {}) == t.signals;
  }

  /** If every barrier opens, the controller gets through. */
  lemma {:induction false} PromptRun(prog: Program, s: State, es: seq<Event>, base: State, p: Program, held: set<nat>)
      returns (fs: seq<Event>)
    requires p <= prog && base.pc <= |p| && Opens(base, p, held)
    requires Still(base) && Reaches(prog, s, es, base)
    ensures Reaches(prog, s, fs, PromptState(base, p, held))
    decreases |p|
  {
    if |p| == base.pc {
      fs := es;
      assert Posted(base, p, held) == {} && Workers(base, p, held) == {};
      assert PromptState(base, p, held) == base;
    } else {
      var q, i := p[..|p| - 1], p[|p| - 1];
      assert q + [i] == p && prog[|q|] == i;
      fs := PromptRun(prog, s, es, base, q, held);
      if i.Post? {
        fs := PromptPost(prog, s, fs, base, q, held);
      } else {
        fs := PassBarrier(prog, s, fs, base, q, held);
      }
    }
  }

  /** The state in which worker `w` of node `n` has just ended. */
  ghost function EndedNow(t: State, w: nat, n: Addr): State {
    t.(flying := t.flying - {w}, started := t.started + {w}, ended := t.ended + {w}, signals := t.signals[n := Execute])
  }

  /** A held worker arrives at last, and ends. */
  lemma Release(prog: Program, s: State, es: seq<Event>, t: State, k: nat, n: Addr) returns (fs: seq<Event>)
    requires Still(t) && Reaches(prog, s, es, t) && k in t.flying && PostsAt(prog, k, Work, n)
    ensures Reaches(prog, s, fs, EndedNow(t, k, n))
  {
    ArriveAndEnd(prog, t, k);
    Extend(prog, s, es, t, Arrive(k));
    fs := es + [Arrive(k)];
    Extend(prog, s, fs, Step(prog, t, Arrive(k)), Finish(k));
    fs := fs + [Finish(k)];
  }

  lemma {:induction false} FinishEnds(prog: Program, s: State, es: seq<Event>, w: nat)
    requires CanRun(prog, s, es) && Finish(w) in es
    ensures w in Run(prog, s, es).ended
    decreases |es|
  {
    if es[|es| - 1] != Finish(w) {
      FinishEnds(prog, s, es[..|es| - 1], w);
    }
  }

  /** The next worker starts although `w` has not ended. */
  lemma StartNext(prog: Program, s: State, es: seq<Event>, t: State, w: nat) returns (fs: seq<Event>)
    requires Reaches(prog, s, es, t) && w !in t.ended
    requires t.pc < |prog| && prog[t.pc].Post? && prog[t.pc].cmd.Work?
    ensures CanRun(prog, s, fs) && fs != [] && fs[|fs| - 1] == Arrive(t.pc) && Finish(w) !in fs
  {
    Extend(prog, s, es, t, Send);
    fs := es + [Send];
    var u := Step(prog, t, Send);
    Extend(prog, s, fs, u, Arrive(t.pc));
    fs := fs + [Arrive(t.pc)];
    if Finish(w) in fs {
      FinishEnds(prog, s, fs, w);
    }
  }

  /** From a still start, a prompt run gets through `p` while the held workers have not ended. */
  lemma RunHolding(prog: Program, s: State, p: Program, held: set<nat>, w: nat) returns (es: seq<Event>, t: State)
    requires Initial(s) && p <= prog && Opens(s, p, held) && w in held
    ensures Reaches(prog, s, es, t) && t.pc == |p| && w !in t.ended
  {
    es := PromptRun(prog, s, [], s, p, held);
    t := PromptState(s, p, held);
  }

  lemma EndHolding(prog: Program, s: State, held: set<nat>, w: nat) returns (es: seq<Event>)
    requires Initial(s) && Opens(s, prog, held) && w in held
    ensures CanRun(prog, s, es) && Run(prog, s, es).pc == |prog| && w !in Run(prog, s, es).ended
  {
    var t: State;
    es, t := RunHolding(prog, s, prog, held, w);
  }

  /** A prompt run through `p` with two workers of `n` held, the first of which then ends. */
  lemma RunReleasing(prog: Program, s: State, p: Program, k: nat, w: nat, n: Addr) returns (es: seq<Event>, t: State)
    requires Initial(s) && p <= prog && Opens(s, p, {k, w}) && k < w
    requires PostsAt(p, k, Work, n) && PostsAt(p, w, Work, n)
    ensures Reaches(prog, s, es, t) && Still(t) && t.pc == |p| && t.flying == {w} && w !in t.ended
    ensures forall v :: v in t.ended ==> v < t.pc
    ensures forall m :: SignalOf(t, m) == if m == n then Execute else Look(s, p, {k, w}, m)
  {
    es := PromptRun(prog, s, [], s, p, {k, w});
    var u := PromptState(s, p, {k, w});
    assert u.flying == {k, w};
    es := Release(prog, s, es, u, k, n);
    t := EndedNow(u, k, n);
  }

  lemma FirstOfPhase(prog: Program, p: Program, t: Table)
    requires p + Phase(t) <= prog && t.words != []
    ensures |p| < |prog| && prog[|p|] == Post(Work, t.words[0])
  {
    assert prog[|p|] == (p + Phase(t))[|p|];
  }

  /** After a prompt run through `p` the first worker of the next phase starts, and `w` has not ended. */
  lemma StartHolding(prog: Program, s: State, p: Program, t: Table, held: set<nat>, w: nat) returns (es: seq<Event>)
    requires Initial(s) && p + Phase(t) <= prog && t.words != [] && Opens(s, p, held) && w in held
    ensures CanRun(prog, s, es) && es != [] && es[|es| - 1] == Arrive(|p|) && Finish(w) !in es
  {
    var u: State;
    PrefixTrans(p, p + Phase(t), prog);
    es, u := RunHolding(prog, s, p, held, w);
    FirstOfPhase(prog, p, t);
    es := StartNext(prog, s, es, u, w);
  }

  // ---------- Signals along segments of a script ----------

  lemma Append(base: State, p: Program, held: set<nat>, i: Instr, n: Addr)
    requires base.pc <= |p|
    ensures Look(base, p + [i], held, n)
            == if i.Post? && |p| !in held && !i.cmd.Plain? && !i.cmd.Restart? && i.node == n then Effect(i.cmd)
               else Look(base, p, held, n)
    ensures Opens(base, p, held) && (i.Await? ==> Open(base, p, held, i)) ==> Opens(base, p + [i], held)
  {
    assert (p + [i])[..|p|] == p;
  }

  lemma {:induction false} PostsOpen(base: State, p: Program, cmd: Cmd, words: seq<Addr>, held: set<nat>)
    requires base.pc <= |p| && Opens(base, p, held)
    ensures Opens(base, p + Posts(cmd, words), held)
    decreases |words|
  {
    if words == [] {
      assert p + Posts(cmd, words) == p;
    } else {
      var front, last := words[..|words| - 1], words[|words| - 1];
      PostsOpen(base, p, cmd, front, held);
      Append(base, p + Posts(cmd, front), held, Post(cmd, last), last);
      assert p + Posts(cmd, words) == p + Posts(cmd, front) + [Post(cmd, last)];
    }
  }

  /** Commands that write nothing, or whose copy for `n` is held, leave the file of `n` alone. */
  lemma {:induction false} PostsKeep(base: State, p: Program, cmd: Cmd, words: seq<Addr>, held: set<nat>, n: Addr)
    requires base.pc <= |p|
    requires cmd.Plain? || cmd.Restart? || forall i :: 0 <= i < |words| && words[i] == n ==> |p| + i in held
    ensures Look(base, p + Posts(cmd, words), held, n) == Look(base, p, held, n)
    decreases |words|
  {
    if words == [] {
      assert p + Posts(cmd, words) == p;
    } else {
      var front, last := words[..|words| - 1], words[|words| - 1];
      PostsKeep(base, p, cmd, front, held, n);
      Append(base, p + Posts(cmd, front), held, Post(cmd, last), n);
      assert p + Posts(cmd, words) == p + Posts(cmd, front) + [Post(cmd, last)];
    }
  }

  /** Commands that are not held leave their mark on every listed node. */
  lemma {:induction false} PostsWrite(base: State, p: Program, cmd: Cmd, words: seq<Addr>, held: set<nat>, n: Addr)
    requires base.pc <= |p| && !cmd.Plain? && !cmd.Restart? && n in words
    requires forall i :: 0 <= i < |words| && words[i] == n ==> |p| + i !in held
    ensures Look(base, p + Posts(cmd, words), held, n) == Effect(cmd)
    decreases |words|
  {
    var front, last := words[..|words| - 1], words[|words| - 1];
    Append(base, p + Posts(cmd, front), held, Post(cmd, last), n);
    assert p + Posts(cmd, words) == p + Posts(cmd, front) + [Post(cmd, last)];
    if last != n {
      assert n in front;
      PostsWrite(base, p, cmd, front, held, n);
    }
  }

  /** No command posted from `lo` up to `hi` is held. */
  ghost predicate Prompt(held: set<nat>, lo: nat, hi: nat) {
    forall h :: h in held ==> h < lo || hi <= h
  }

  lemma ResetOpens(base: State, p: Program, t: Table, held: set<nat>)
    requires base.pc <= |p| && Proper(t) && Opens(base, p, held) && Prompt(held, |p|, |p + Reset(t)|)
    ensures Opens(base, p + Reset(t), held)
  {
    var clear, mark, restart := Posts(Clear, t.words), Posts(MarkReboot, t.words), Posts(Restart, t.words);
    Assoc(p, clear + mark + restart, Barrier(t, Reboot));
    Assoc(p, clear + mark, restart);
    Assoc(p, clear, mark);
    PostsOpen(base, p, Clear, t.words, held);
    PostsOpen(base, p + clear, MarkReboot, t.words, held);
    PostsOpen(base, p + clear + mark, Restart, t.words, held);
    var q, i := p + clear + mark + restart, Await(t.words, t.lines, Reboot);
    forall n | n in t.words
      ensures Look(base, q, held, n) == Reboot
    {
      PostsWrite(base, p + clear, MarkReboot, t.words, held, n);
      PostsKeep(base, p + clear + mark, Restart, t.words, held, n);
    }
    Append(base, q, held, i, "");
  }

  /** A phase opens if every held worker belongs to a node that shows EXECUTE already. */
  lemma PhaseOpens(base: State, p: Program, t: Table, held: set<nat>)
    requires base.pc <= |p| && Proper(t) && Opens(base, p, held)
    requires forall i :: 0 <= i < |t.words| && |p| + i in held ==> Look(base, p, held, t.words[i]) == Execute
    ensures Opens(base, p + Phase(t), held)
    ensures forall n :: n in t.words ==> Look(base, p + Phase(t), held, n) == Execute
    ensures forall n :: n !in t.words ==> Look(base, p + Phase(t), held, n) == Look(base, p, held, n)
  {
    var q, i := p + Posts(Work, t.words), Await(t.words, t.lines, Execute);
    Assoc(p, Posts(Work, t.words), Barrier(t, Execute));
    PostsOpen(base, p, Work, t.words, held);
    forall n
      ensures Look(base, q, held, n) == if n in t.words then Execute else Look(base, p, held, n)
      ensures Look(base, q + [i], held, n) == Look(base, q, held, n)
    {
      WorkersShow(base, p, t, held, n);
      Append(base, q, held, i, n);
    }
    Append(base, q, held, i, "");
  }

  lemma WorkersShow(base: State, p: Program, t: Table, held: set<nat>, n: Addr)
    requires base.pc <= |p| && Proper(t)
    requires forall i :: 0 <= i < |t.words| && |p| + i in held ==> Look(base, p, held, t.words[i]) == Execute
    ensures Look(base, p + Posts(Work, t.words), held, n) == if n in t.words then Execute else Look(base, p, held, n)
  {
    if n in t.words {
      var k :| 0 <= k < |t.words| && t.words[k] == n;
      if |p| + k in held {
        PostsKeep(base, p, Work, t.words, held, n);
      } else {
        PostsWrite(base, p, Work, t.words, held, n);
      }
    } else {
      PostsKeep(base, p, Work, t.words, held, n);
    }
  }

  /** If the commands that clear `n` after a phase are held, its EXECUTE survives them. */
  lemma PhaseThenClear(base: State, p: Program, t: Table, held: set<nat>, n: Addr)
    requires base.pc <= |p| && Proper(t) && Opens(base, p, held) && Prompt(held, |p|, |p + Phase(t)|)
    requires forall i :: 0 <= i < |t.words| && t.words[i] == n ==> |p + Phase(t)| + i in held
    requires n in t.words || Look(base, p, held, n) == Execute
    ensures Opens(base, p + Phase(t) + Posts(Clear, t.words), held)
    ensures Look(base, p + Phase(t) + Posts(Clear, t.words), held, n) == Execute
  {
    PhaseOpens(base, p, t, held);
    PostsOpen(base, p + Phase(t), Clear, t.words, held);
    PostsKeep(base, p + Phase(t), Clear, t.words, held, n);
  }
}
