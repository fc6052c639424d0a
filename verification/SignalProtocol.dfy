/**
  The controller, the nodes' signal files and the commands between them, as a state machine.

  A controller script is a list of instructions. `ssh -f` posts a command and goes on; the command arrives
  at any later time, in any order, or never. A worker clears its node's signal file as its first act, at which it
  counts as started, and writes EXECUTE when it ends; a restart or a failure may kill it in between. A barrier
  polls a node table, one node at a time, until one pass has counted as many wanted signals as the table has lines.
 */
module SignalProtocol {

  type Addr = string

  datatype Signal = Blank | Execute | Reboot

  /** `Plain` is a command that leaves the signal file alone; `MarkReboot` writes REBOOT into it. */
  datatype Cmd = Plain | Clear | MarkReboot | Restart | Work

  datatype Instr =
    | Post(cmd: Cmd, node: Addr)
    | Await(words: seq<Addr>, lines: nat, want: Signal)

  type Program = seq<Instr>

  /** Commands and workers are named by the index of the instruction that posted them. */
  datatype State = State(
    pc: nat, pos: nat, count: nat,
    flying: set<nat>, running: set<nat>, started: set<nat>, ended: set<nat>,
    signals: map<Addr, Signal>)

  datatype Event =
    | Send                   // the controller posts a command
    | Poll(answered: bool)   // the controller reads the next node's file, or fails to
    | Decide                 // the controller compares the count at the end of a pass
    | Arrive(k: nat)         // a command reaches its node
    | Lose(k: nat)           // a command is lost
    | Finish(k: nat)         // a worker ends and writes EXECUTE
    | Die(k: nat)            // a worker ends without writing

  function SignalOf(s: State, n: Addr): Signal {
    if n in s.signals then s.signals[n] else Blank
  }

  predicate PostsAt(prog: Program, k: nat, cmd: Cmd, n: Addr) {
    k < |prog| && prog[k] == Post(cmd, n)
  }

  predicate Enabled(prog: Program, s: State, e: Event) {
    match e
    case Send => s.pc < |prog| && prog[s.pc].Post?
    case Poll(_) => s.pc < |prog| && prog[s.pc].Await? && s.pos < |prog[s.pc].words|
    case Decide => s.pc < |prog| && prog[s.pc].Await? && s.pos == |prog[s.pc].words|
    case Arrive(k) => k in s.flying && k < |prog| && prog[k].Post?
    case Lose(k) => k in s.flying
    case Finish(k) => k in s.running && k < |prog| && prog[k].Post?
    case Die(k) => k in s.running
  }

  function Step(prog: Program, s: State, e: Event): State
    requires Enabled(prog, s, e)
  {
    match e
    case Send => s.(pc := s.pc + 1, flying := s.flying + {s.pc})
    case Poll(answered) =>
      var i := prog[s.pc];
      s.(pos := s.pos + 1,
         count := if answered && SignalOf(s, i.words[s.pos]) == i.want then s.count + 1 else s.count)
    case Decide => s.(pc := if s.count == prog[s.pc].lines then s.pc + 1 else s.pc, pos := 0, count := 0)
    case Lose(k) => s.(flying := s.flying - {k})
    case Die(k) => s.(running := s.running - {k})
    case Finish(k) =>
      s.(running := s.running - {k}, ended := s.ended + {k}, signals := s.signals[prog[k].node := Execute])
    case Arrive(k) =>
      var n, t := prog[k].node, s.(flying := s.flying - {k});
      match prog[k].cmd
      case Plain => t
      case Clear => t.(signals := t.signals[n := Blank])
      case MarkReboot => t.(signals := t.signals[n := Reboot])
      case Restart => t.(running := set w | w in t.running && !PostsAt(prog, w, Work, n))
      case Work => t.(running := t.running + {k}, started := t.started + {k}, signals := t.signals[n := Blank])
  }

  ghost predicate CanRun(prog: Program, s: State, es: seq<Event>)
    decreases |es|, 0
  {
    es == [] || (CanRun(prog, s, es[..|es| - 1])
                 && Enabled(prog, Run(prog, s, es[..|es| - 1]), es[|es| - 1]))
  }

  ghost function Run(prog: Program, s: State, es: seq<Event>): State
    requires CanRun(prog, s, es)
    decreases |es|, 1
  {
    if es == [] then s else Step(prog, Run(prog, s, es[..|es| - 1]), es[|es| - 1])
  }

  /** The controller is about to start and no command or worker of an earlier script is left over. */
  predicate Initial(s: State) {
    s.pc == s.pos == s.count == 0 && s.flying == s.running == s.started == s.ended == {}
  }

  // ---------- What a script establishes about one node ----------

  /**
    Quiet: no worker of this node is left, and its file does not say EXECUTE.
    Pending(w): `w` is the only worker that may be left, and EXECUTE means that `w` has ended.
    Idle: no worker of this node is left; its file may say anything.
   */
  datatype Track = Quiet | Pending(w: nat) | Idle | Unknown

  /** What passing a barrier for `want` adds for a node of its table. */
  function Passed(t: Track, want: Signal): Track {
    if want == Execute && t.Pending? then Idle
    else if want == Reboot && t.Idle? then Quiet
    else t
  }

  function Transfer(t: Track, k: nat, i: Instr, n: Addr): Track {
    match i
    case Post(cmd, m) =>
      if cmd.Work? && m == n then (if t.Quiet? then Pending(k) else Unknown) else t
    case Await(words, lines, want) =>
      if n in words && lines == |words| then Passed(t, want) else t
  }

  /** The state of node `n` after the instructions `p`, by reading the script alone. */
  function TrackAfter(start: Track, p: Program, n: Addr): Track {
    if p == [] then start
    else Transfer(TrackAfter(start, p[..|p| - 1], n), |p| - 1, p[|p| - 1], n)
  }

  // ---------- Soundness ----------

  ghost predicate Left(prog: Program, s: State, k: nat, n: Addr) {
    (k in s.flying || k in s.running) && PostsAt(prog, k, Work, n)
  }

  ghost predicate Holds(prog: Program, t: Track, s: State, n: Addr) {
    match t
    case Unknown => true
    case Idle => forall k :: !Left(prog, s, k, n)
    case Quiet => (forall k :: !Left(prog, s, k, n)) && SignalOf(s, n) != Execute
    case Pending(w) =>
      && PostsAt(prog, w, Work, n)
      && (forall k :: Left(prog, s, k, n) ==> k == w)
      && (SignalOf(s, n) == Execute ==> w in s.ended)
  }

  /** Names are used once: a command is flying, or running, or ended, and was posted before now. */
  ghost predicate Tidy(prog: Program, s: State) {
    && s.pc <= |prog|
    && s.flying !! s.running && s.flying !! s.ended && s.running !! s.ended
    && (forall k :: k in s.flying || k in s.started ==> k < s.pc)
    && s.running <= s.started && s.ended <= s.started
    && (forall k :: k in s.running ==> prog[k].Post? && prog[k].cmd.Work?)
  }

  /** `w` is awaited by the barrier at `j`: it is the one pending worker of a node in a well-formed table. */
  ghost predicate Acknowledges(prog: Program, start: Track, j: nat, w: nat) {
    j < |prog| && prog[j].Await? && prog[j].want == Execute && prog[j].lines == |prog[j].words|
    && exists n :: n in prog[j].words && TrackAfter(start, prog[..j], n) == Pending(w)
  }

  /** While every node read in this pass had the wanted signal, the barrier's conclusion holds of each of them. */
  ghost predicate PassSound(prog: Program, start: Track, s: State) {
    if s.pc < |prog| && prog[s.pc].Await? then
      && s.pos <= |prog[s.pc].words| && s.count <= s.pos
      && (s.count == s.pos ==>
            forall i :: 0 <= i < s.pos ==> ReadSound(prog, start, s, prog[s.pc].words[i]))
    else s.pos == 0 && s.count == 0
  }

  ghost predicate ReadSound(prog: Program, start: Track, s: State, n: Addr)
    requires s.pc < |prog| && prog[s.pc].Await?
  {
    var t := TrackAfter(start, prog[..s.pc], n);
    && Holds(prog, Passed(t, prog[s.pc].want), s, n)
    && (prog[s.pc].want == Execute && t.Pending? ==> t.w in s.ended)
  }

  ghost predicate Inv(prog: Program, start: Track, s: State) {
    && Tidy(prog, s)
    && (forall n :: Holds(prog, TrackAfter(start, prog[..s.pc], n), s, n))
    && PassSound(prog, start, s)
    && (forall j: nat, w :: j < s.pc && Acknowledges(prog, start, j, w) ==> w in s.ended)
  }

  predicate Background(e: Event) {
    e.Arrive? || e.Lose? || e.Finish? || e.Die?
  }

  /** Arrivals, losses and endings never falsify what is known of a node. */
  lemma BackgroundKeepsHolds(prog: Program, t: Track, s: State, e: Event, n: Addr)
    requires Enabled(prog, s, e) && Background(e) && Tidy(prog, s) && Holds(prog, t, s, n)
    ensures Holds(prog, t, Step(prog, s, e), n)
  {
    var s' := Step(prog, s, e);
    forall k | Left(prog, s', k, n)
      ensures Left(prog, s, k, n)
    {
    }
    assert e.Finish? && prog[e.k].node == n ==> Left(prog, s, e.k, n);
  }

  lemma BackgroundKeepsTidy(prog: Program, s: State, e: Event)
    requires Enabled(prog, s, e) && Background(e) && Tidy(prog, s)
    ensures Tidy(prog, Step(prog, s, e))
    ensures s.ended <= Step(prog, s, e).ended
  {
  }

  lemma BackgroundKeepsInv(prog: Program, start: Track, s: State, e: Event)
    requires Enabled(prog, s, e) && Background(e) && Inv(prog, start, s)
    ensures Inv(prog, start, Step(prog, s, e))
  {
    var s' := Step(prog, s, e);
    BackgroundKeepsTidy(prog, s, e);
    assert s'.pc == s.pc && s'.pos == s.pos && s'.count == s.count;
    forall n
      ensures Holds(prog, TrackAfter(start, prog[..s.pc], n), s', n)
    {
      BackgroundKeepsHolds(prog, TrackAfter(start, prog[..s.pc], n), s, e, n);
    }
    if s.pc < |prog| && prog[s.pc].Await? && s.count == s.pos {
      forall i | 0 <= i < s.pos
        ensures ReadSound(prog, start, s', prog[s.pc].words[i])
      {
        var n := prog[s.pc].words[i];
        assert ReadSound(prog, start, s, n);
        BackgroundKeepsHolds(prog, Passed(TrackAfter(start, prog[..s.pc], n), prog[s.pc].want), s, e, n);
      }
    }
  }

  lemma SendKeepsInv(prog: Program, start: Track, s: State)
    requires Enabled(prog, s, Send) && Inv(prog, start, s)
    ensures Inv(prog, start, Step(prog, s, Send))
  {
    var s' := Step(prog, s, Send);
    assert prog[..s'.pc][..s.pc] == prog[..s.pc];
    forall n
      ensures Holds(prog, TrackAfter(start, prog[..s'.pc], n), s', n)
    {
      var t := TrackAfter(start, prog[..s.pc], n);
      assert Holds(prog, t, s, n);
      assert forall k: nat :: Left(prog, s', k, n) ==> Left(prog, s, k, n) || (k == s.pc && prog[k] == Post(Work, n));
    }
    forall j: nat, w | j < s'.pc && Acknowledges(prog, start, j, w)
      ensures w in s'.ended
    {
      assert j < s.pc;
    }
  }

  /** Reading the wanted signal from a node establishes the barrier's conclusion for it. */
  lemma MatchIsSound(prog: Program, start: Track, s: State, n: Addr)
    requires Inv(prog, start, s) && s.pc < |prog| && prog[s.pc].Await? && SignalOf(s, n) == prog[s.pc].want
    ensures ReadSound(prog, start, s, n)
  {
    var t := TrackAfter(start, prog[..s.pc], n);
    assert Holds(prog, t, s, n);
    if prog[s.pc].want == Execute && t.Pending? {
      assert t.w in s.ended;
    }
  }

  lemma PollKeepsInv(prog: Program, start: Track, s: State, answered: bool)
    requires Enabled(prog, s, Poll(answered)) && Inv(prog, start, s)
    ensures Inv(prog, start, Step(prog, s, Poll(answered)))
  {
    var s' := Step(prog, s, Poll(answered));
    forall n
      ensures Holds(prog, TrackAfter(start, prog[..s.pc], n), s', n)
    {
      assert Holds(prog, TrackAfter(start, prog[..s.pc], n), s, n);
      assert forall k :: Left(prog, s', k, n) ==> Left(prog, s, k, n);
    }
    if s'.count == s'.pos {
      MatchIsSound(prog, start, s, prog[s.pc].words[s.pos]);
      forall i | 0 <= i < s'.pos
        ensures ReadSound(prog, start, s', prog[s.pc].words[i])
      {
        assert ReadSound(prog, start, s, prog[s.pc].words[i]);
        assert forall k :: Left(prog, s', k, prog[s.pc].words[i]) ==> Left(prog, s, k, prog[s.pc].words[i]);
      }
    }
  }

  lemma DecideKeepsInv(prog: Program, start: Track, s: State)
    requires Enabled(prog, s, Decide) && Inv(prog, start, s)
    ensures Inv(prog, start, Step(prog, s, Decide))
  {
    var s', i := Step(prog, s, Decide), prog[s.pc];
    if s'.pc == s.pc {
      forall n
        ensures Holds(prog, TrackAfter(start, prog[..s.pc], n), s', n)
      {
        assert Holds(prog, TrackAfter(start, prog[..s.pc], n), s, n);
        assert forall k :: Left(prog, s', k, n) ==> Left(prog, s, k, n);
      }
    } else {
      assert prog[..s'.pc][..s.pc] == prog[..s.pc];
      forall n
        ensures Holds(prog, TrackAfter(start, prog[..s'.pc], n), s', n)
      {
        assert Holds(prog, TrackAfter(start, prog[..s.pc], n), s, n);
        assert n in i.words && i.lines == |i.words| ==> ReadSound(prog, start, s, n);
        assert forall k :: Left(prog, s', k, n) ==> Left(prog, s, k, n);
      }
      forall j: nat, w | j < s'.pc && Acknowledges(prog, start, j, w)
        ensures w in s'.ended
      {
        if j == s.pc {
          var n :| n in i.words && TrackAfter(start, prog[..j], n) == Pending(w);
          assert ReadSound(prog, start, s, n);
        }
      }
    }
  }

  lemma StepKeepsInv(prog: Program, start: Track, s: State, e: Event)
    requires Enabled(prog, s, e) && Inv(prog, start, s)
    ensures Inv(prog, start, Step(prog, s, e))
  {
    match e
    case Send => SendKeepsInv(prog, start, s);
    case Poll(answered) => PollKeepsInv(prog, start, s, answered);
    case Decide => DecideKeepsInv(prog, start, s);
    case _ => BackgroundKeepsInv(prog, start, s, e);
  }

  /** What may be assumed of every node's file when the script starts. */
  ghost predicate StartsAs(start: Track, s: State) {
    Initial(s) && (start.Idle? || (start.Quiet? && forall n :: SignalOf(s, n) != Execute))
  }

  /** In every run, whatever is delayed, reordered, lost or killed, the script's reading is true of the cluster. */
  lemma {:induction false} RunKeepsInv(prog: Program, start: Track, s: State, es: seq<Event>)
    requires StartsAs(start, s) && CanRun(prog, s, es)
    ensures Inv(prog, start, Run(prog, s, es))
    decreases |es|
  {
    if es == [] {
      assert prog[..0] == [];
    } else {
      RunKeepsInv(prog, start, s, es[..|es| - 1]);
      StepKeepsInv(prog, start, Run(prog, s, es[..|es| - 1]), es[|es| - 1]);
    }
  }

  // ---------- Order of workers ----------

  /** Only a Finish puts a worker among the ended ones. */
  lemma {:induction false} EndedByFinish(prog: Program, s: State, es: seq<Event>, w: nat)
    requires Initial(s) && CanRun(prog, s, es) && w in Run(prog, s, es).ended
    ensures Finish(w) in es
    decreases |es|
  {
    var front := es[..|es| - 1];
    if es[|es| - 1] != Finish(w) {
      EndedByFinish(prog, s, front, w);
    }
  }

  /** A worker posted after a barrier starts only after each worker that the barrier acknowledges has ended. */
  lemma AcknowledgedBefore(prog: Program, start: Track, s: State, es: seq<Event>, j: nat, w: nat, v: nat)
    requires StartsAs(start, s) && CanRun(prog, s, es)
    requires Acknowledges(prog, start, j, w) && j < v
    requires es != [] && es[|es| - 1] == Arrive(v)
    ensures Finish(w) in es[..|es| - 1]
  {
    var front := es[..|es| - 1];
    RunKeepsInv(prog, start, s, front);
    EndedByFinish(prog, s, front, w);
  }

  // ---------- What a barrier sees ----------

  /** During `es`, a node of the table that shows `want` keeps showing it. */
  ghost predicate Persists(prog: Program, s: State, es: seq<Event>, words: seq<Addr>, want: Signal)
    requires CanRun(prog, s, es)
    decreases |es|
  {
    es == [] ||
    var front := es[..|es| - 1];
    && Persists(prog, s, front, words, want)
    && forall n :: n in words && SignalOf(Run(prog, s, front), n) == want ==> SignalOf(Run(prog, s, es), n) == want
  }

  lemma {:induction false} PassCounts(prog: Program, s: State, es: seq<Event>)
    requires CanRun(prog, s, es) && Decide !in es
    requires s.pc < |prog| && prog[s.pc].Await? && s.pos == s.count == 0
    requires Persists(prog, s, es, prog[s.pc].words, prog[s.pc].want)
    ensures var i, t := prog[s.pc], Run(prog, s, es);
            && t.pc == s.pc && t.count <= t.pos <= |i.words|
            && (t.count == t.pos ==> forall k :: 0 <= k < t.pos ==> SignalOf(t, i.words[k]) == i.want)
    decreases |es|
  {
    if es != [] {
      var front, e := es[..|es| - 1], es[|es| - 1];
      PassCounts(prog, s, front);
      assert e in es;
      var t := Run(prog, s, front);
      assert forall k :: 0 <= k < t.pos ==> prog[s.pc].words[k] in prog[s.pc].words;
      if e.Poll? {
        assert Run(prog, s, es).signals == t.signals;
      }
    }
  }

  /** If signals persist through a pass over a well-formed table and the pass succeeds, all nodes of the table
      show the wanted signal at once, although they were read one after the other. */
  lemma SimultaneousAtExit(prog: Program, s: State, es: seq<Event>, n: Addr)
    requires CanRun(prog, s, es) && Decide !in es
    requires s.pc < |prog| && prog[s.pc].Await? && s.pos == s.count == 0
    requires Persists(prog, s, es, prog[s.pc].words, prog[s.pc].want)
    requires Enabled(prog, Run(prog, s, es), Decide) && Step(prog, Run(prog, s, es), Decide).pc == s.pc + 1
    requires prog[s.pc].lines == |prog[s.pc].words| && n in prog[s.pc].words
    ensures SignalOf(Run(prog, s, es), n) == prog[s.pc].want
  {
    PassCounts(prog, s, es);
  }
}
