/**
  What the install script needs of the signal files it finds. Its first phase is not preceded by a reset, so an
  EXECUTE left over from earlier work opens the first barrier, and the late worker then answers for the next one.
 */
module InstallExactness {
  import opened SignalProtocol
  import opened Drivers
  import opened PromptRuns

  /** No node of the full table shows EXECUTE. */
  ghost predicate CleanStart(c: Cluster, s: State) {
    forall n :: n in c.all.words ==> SignalOf(s, n) != Execute
  }

  /** Only nodes of the full table have signal files. */
  ghost predicate WithinTable(c: Cluster, s: State) {
    forall n :: n in s.signals ==> n in c.all.words
  }

  lemma CleanStartsQuiet(c: Cluster, s: State)
    requires Initial(s) && WithinTable(c, s) && CleanStart(c, s)
    ensures StartsAs(Quiet, s)
  {
    forall n
      ensures SignalOf(s, n) != Execute
    {
    }
  }

  // ---------- With the kernel step ----------

  ghost function KernelPosted(c: Cluster): Program {
    BeforeKernel(c) + Posts(Work, c.all.words)
  }

  lemma KernelPrefixes(c: Cluster)
    ensures KernelPosted(c) <= BeforePackages(c, false) <= Install(c, false)
    ensures KernelPosted(c) <= Install(c, false)
    ensures KernelPosted(c) + Barrier(c.all, Execute) + Reset(c.all) == BeforePackages(c, false)
  {
    Assoc(BeforeKernel(c), Posts(Work, c.all.words), Barrier(c.all, Execute));
    var b := BeforePackages(c, false);
    PrefixTrans(b, b + Posts(Work, c.servers.words), Install(c, false));
    PrefixTrans(KernelPosted(c), b, Install(c, false));
  }

  lemma FirstPhaseOpens(t: Table, s: State, k: nat, held: set<nat>)
    requires Proper(t) && Initial(s) && k < |t.words| && SignalOf(s, t.words[k]) == Execute
    requires forall h :: h in held ==> h == k || |Phase(t)| <= h
    ensures Opens(s, Phase(t), held)
  {
    var nothing: Program := [];
    assert nothing + Phase(t) == Phase(t);
    PhaseOpens(s, nothing, t, held);
  }

  /** With the first worker and the kernel worker of the stale node held, the kernel commands get posted. */
  lemma OpensToKernel(c: Cluster, s: State, k: nat)
    requires Partitioned(c) && Initial(s) && k < |c.all.words| && SignalOf(s, c.all.words[k]) == Execute
    ensures var held := {k, KernelWorker(c, k)};
            && Opens(s, KernelPosted(c), held)
            && forall n :: n in c.all.words && n != c.all.words[k] ==> Look(s, KernelPosted(c), held, n) == Execute
  {
    var held := {k, KernelWorker(c, k)};
    FirstPhaseOpens(c.all, s, k, held);
    ResetOpens(s, Phase(c.all), c.all, held);
    PostsOpen(s, Phase(c.all) + Reset(c.all), Clear, c.all.words, held);
    PostsOpen(s, BeforeKernel(c), Work, c.all.words, held);
    forall n | n in c.all.words && n != c.all.words[k]
      ensures Look(s, KernelPosted(c), held, n) == Execute
    {
      PostsWrite(s, BeforeKernel(c), Work, c.all.words, held, n);
    }
  }

  /** All kernel commands are posted, and the first worker of the stale node ends only now. */
  lemma StaleFirstRun(c: Cluster, s: State, k: nat) returns (es: seq<Event>, t: State)
    requires Partitioned(c) && Initial(s) && k < |c.all.words| && SignalOf(s, c.all.words[k]) == Execute
    ensures Reaches(Install(c, false), s, es, t) && Still(t) && t.pc == |KernelPosted(c)|
    ensures forall n :: n in c.all.words ==> SignalOf(t, n) == Execute
    ensures t.flying == {KernelWorker(c, k)} && KernelWorker(c, k) !in t.ended
    ensures forall w :: w in t.ended ==> w < t.pc
  {
    assert KernelPosted(c) <= Install(c, false) by { KernelPrefixes(c); }
    OpensToKernel(c, s, k);
    KernelPostedAt(c, k);
    es, t := RunReleasing(Install(c, false), s, KernelPosted(c), k, KernelWorker(c, k), c.all.words[k]);
  }

  lemma KernelPostedAt(c: Cluster, k: nat)
    requires k < |c.all.words|
    ensures PostsAt(KernelPosted(c), k, Work, c.all.words[k]) && k < KernelWorker(c, k)
    ensures PostsAt(KernelPosted(c), KernelWorker(c, k), Work, c.all.words[k])
  {
  }

  /** The late first worker answers for the kernel worker, and the packages come next. */
  lemma StaleKernelRun(c: Cluster, s: State, k: nat) returns (es: seq<Event>, t: State)
    requires Partitioned(c) && Initial(s) && k < |c.all.words| && SignalOf(s, c.all.words[k]) == Execute
    ensures Reaches(Install(c, false), s, es, t) && Still(t) && t.pc == |BeforePackages(c, false)|
    ensures t.flying == {KernelWorker(c, k)} && KernelWorker(c, k) !in t.ended
    ensures forall w :: w in t.ended ==> w < t.pc
  {
    var b := BeforePackages(c, false);
    var base: State;
    es, base := StaleFirstRun(c, s, k);
    KernelPrefixes(c);
    OpensToPackages(c, base);
    es := PromptRun(Install(c, false), s, es, base, b, {});
    t := PromptState(base, b, {});
  }

  lemma OpensToPackages(c: Cluster, base: State)
    requires Partitioned(c) && base.pc == |KernelPosted(c)|
    requires forall n :: n in c.all.words ==> SignalOf(base, n) == Execute
    ensures Opens(base, BeforePackages(c, false), {})
  {
    var p, i := KernelPosted(c), Await(c.all.words, c.all.lines, Execute);
    KernelPrefixes(c);
    Append(base, p, {}, i, "");
    ResetOpens(base, p + [i], c.all, {});
  }

  /** In every run from `s`, package workers start only after every kernel worker has ended. */
  ghost predicate KernelBeforePackages(c: Cluster, s: State) {
    forall es, v: nat, k: nat
      | CanRun(Install(c, false), s, es) && es != [] && es[|es| - 1] == Arrive(v)
        && |BeforePackages(c, false)| <= v && k < |c.all.words|
      :: Finish(KernelWorker(c, k)) in es[..|es| - 1]
  }

  lemma FirstPackage(c: Cluster, skipKernel: bool)
    requires Partitioned(c) && c.all.words != []
    ensures var prog, b := Install(c, skipKernel), BeforePackages(c, skipKernel);
            |b| < |prog| && prog[|b|].Post? && prog[|b|].cmd.Work?
  {
    assert c.all.words[0] in c.all.words;
  }

  /** Given partitioned tables, the install order holds in all runs from `s` if and only if no node shows EXECUTE. */
  lemma InstallOrderIffCleanStart(c: Cluster, s: State)
    requires Partitioned(c) && Initial(s) && WithinTable(c, s)
    ensures KernelBeforePackages(c, s) <==> CleanStart(c, s)
  {
    if CleanStart(c, s) {
      CleanStartsQuiet(c, s);
      forall es, v: nat, k: nat
        | CanRun(Install(c, false), s, es) && es != [] && es[|es| - 1] == Arrive(v)
          && |BeforePackages(c, false)| <= v && k < |c.all.words|
        ensures Finish(KernelWorker(c, k)) in es[..|es| - 1]
      {
        InstallOrder(c, s, es, v, k);
      }
    } else {
      var n :| n in c.all.words && SignalOf(s, n) == Execute;
      var k :| 0 <= k < |c.all.words| && c.all.words[k] == n;
      var es, t := StaleKernelRun(c, s, k);
      FirstPackage(c, false);
      es := StartNext(Install(c, false), s, es, t, KernelWorker(c, k));
      assert Finish(KernelWorker(c, k)) !in es[..|es| - 1];
    }
  }

  // ---------- The final barrier ----------

  ghost function PackagesPosted(c: Cluster, skipKernel: bool): Program {
    BeforePackages(c, skipKernel) + Posts(Work, c.servers.words) + Posts(Work, c.clients.words)
  }

  /** Among workers posted from `at` on, `w` is the one of node `n`, and no other is. */
  ghost predicate OnlyWorker(at: nat, words: seq<Addr>, w: nat, n: Addr) {
    forall i :: 0 <= i < |words| ==> (at + i == w <==> words[i] == n)
  }

  /** The package worker of a node is among the servers, or behind them among the clients. */
  lemma PackageWorkerOf(c: Cluster, at: nat, n: Addr) returns (w: nat)
    requires Partitioned(c) && n in c.all.words
    ensures at <= w < at + |c.servers.words| + |c.clients.words|
    ensures OnlyWorker(at, c.servers.words, w, n) && OnlyWorker(at + |c.servers.words|, c.clients.words, w, n)
  {
    if n in c.servers.words {
      var i :| 0 <= i < |c.servers.words| && c.servers.words[i] == n;
      w := at + i;
    } else {
      var i :| 0 <= i < |c.clients.words| && c.clients.words[i] == n;
      w := at + |c.servers.words| + i;
    }
  }

  /** Posting workers with the one of `n` held leaves EXECUTE on the other nodes, and on `n` what was there. */
  lemma WorkersShowBut(base: State, p: Program, xs: seq<Addr>, ys: seq<Addr>, w: nat, n: Addr, m: Addr)
    requires base.pc == |p| && (m in xs || m in ys)
    requires OnlyWorker(|p|, xs, w, n) && OnlyWorker(|p| + |xs|, ys, w, n)
    ensures Look(base, p + Posts(Work, xs) + Posts(Work, ys), {w}, m) == if m == n then SignalOf(base, n) else Execute
  {
    var q := p + Posts(Work, xs);
    if m == n {
      PostsKeep(base, p, Work, xs, {w}, n);
      PostsKeep(base, q, Work, ys, {w}, n);
    } else if m in ys {
      PostsWrite(base, q, Work, ys, {w}, m);
    } else {
      PostsWrite(base, p, Work, xs, {w}, m);
      PostsKeep(base, q, Work, ys, {w}, m);
    }
  }

  /** From the start of the package phase, all packages get posted and only the one of `n` does not end. */
  lemma PackagesHolding(c: Cluster, skipKernel: bool, s: State, es: seq<Event>, base: State, n: Addr)
      returns (fs: seq<Event>, t: State, w: nat)
    requires Partitioned(c) && n in c.all.words
    requires Still(base) && Reaches(Install(c, skipKernel), s, es, base) && base.pc == |BeforePackages(c, skipKernel)|
    requires forall k :: k in base.ended ==> k < base.pc
    ensures Reaches(Install(c, skipKernel), s, fs, t) && Still(t) && t.pc == PackageBarrier(c, skipKernel)
    ensures base.pc <= w < t.pc && w !in t.ended && t.flying == base.flying + {w}
    ensures PostsAt(Install(c, skipKernel), w, Work, n)
    ensures forall m :: m in c.all.words ==> SignalOf(t, m) == if m == n then SignalOf(base, n) else Execute
  {
    var b, p, prog := BeforePackages(c, skipKernel), PackagesPosted(c, skipKernel), Install(c, skipKernel);
    w := PackageWorkerOf(c, |b|, n);
    forall m | m in c.all.words
      ensures Look(base, p, {w}, m) == if m == n then SignalOf(base, n) else Execute
    {
      WorkersShowBut(base, b, c.servers.words, c.clients.words, w, n, m);
    }
    PostsOpen(base, b, Work, c.servers.words, {w});
    PostsOpen(base, b + Posts(Work, c.servers.words), Work, c.clients.words, {w});
    InstallAtBarrier(c, skipKernel);
    fs := PromptRun(prog, s, es, base, p, {w});
    PackageAt(c, skipKernel, w, n);
    t := PromptState(base, p, {w});
  }

  lemma PackageAt(c: Cluster, skipKernel: bool, w: nat, n: Addr)
    requires |BeforePackages(c, skipKernel)| <= w < PackageBarrier(c, skipKernel)
    requires OnlyWorker(|BeforePackages(c, skipKernel)|, c.servers.words, w, n)
    requires OnlyWorker(|BeforePackages(c, skipKernel)| + |c.servers.words|, c.clients.words, w, n)
    ensures PostsAt(PackagesPosted(c, skipKernel), w, Work, n) && PostsAt(Install(c, skipKernel), w, Work, n)
  {
    InstallAtBarrier(c, skipKernel);
    var p, k := PackagesPosted(c, skipKernel), w - |BeforePackages(c, skipKernel)|;
    assert Install(c, skipKernel)[w] == p[w];
    assert p[w].node == if k < |c.servers.words| then c.servers.words[k] else c.clients.words[k - |c.servers.words|];
    assert k >= |c.servers.words| ==> w == |BeforePackages(c, skipKernel)| + |c.servers.words| + (k - |c.servers.words|);
  }

  /** With EXECUTE everywhere the final barrier opens. */
  lemma PassFinalBarrier(c: Cluster, skipKernel: bool, s: State, es: seq<Event>, t: State) returns (fs: seq<Event>)
    requires Proper(c.all) && Still(t) && t.pc == PackageBarrier(c, skipKernel)
    requires Reaches(Install(c, skipKernel), s, es, t)
    requires forall m :: m in c.all.words ==> SignalOf(t, m) == Execute
    ensures Reaches(Install(c, skipKernel), s, fs, t.(pc := t.pc + 1))
  {
    var prog := Install(c, skipKernel);
    InstallAtBarrier(c, skipKernel);
    var p := prog[..t.pc];
    NothingFollows(t, p);
    NothingFollows(t, p + [prog[t.pc]]);
    fs := PassBarrier(prog, s, es, t, p, {});
  }

  /** One left-over EXECUTE, and the final barrier passes although a package worker has not ended. */
  lemma StalePackageRun(c: Cluster, skipKernel: bool, s: State, k: nat) returns (es: seq<Event>, w: nat)
    requires Partitioned(c) && Initial(s) && k < |c.all.words| && SignalOf(s, c.all.words[k]) == Execute
    ensures CanRun(Install(c, skipKernel), s, es) && PackageBarrier(c, skipKernel) < Run(Install(c, skipKernel), s, es).pc
    ensures |BeforePackages(c, skipKernel)| <= w < PackageBarrier(c, skipKernel)
    ensures w !in Run(Install(c, skipKernel), s, es).ended
  {
    var n, t := c.all.words[k], s;
    if skipKernel {
      es, t, w := PackagesHolding(c, true, s, [], s, n);
    } else {
      var base: State;
      es, base := StaleKernelRun(c, s, k);
      es, t, w := PackagesHolding(c, false, s, es, base, n);
      KernelWorkerAt(c, k);
      es := Release(Install(c, false), s, es, t, KernelWorker(c, k), n);
      t := EndedNow(t, KernelWorker(c, k), n);
    }
    es := PassFinalBarrier(c, skipKernel, s, es, t);
  }

  lemma KernelWorkerAt(c: Cluster, k: nat)
    requires k < |c.all.words|
    ensures PostsAt(Install(c, false), KernelWorker(c, k), Work, c.all.words[k])
    ensures KernelWorker(c, k) < |BeforePackages(c, false)|
  {
    KernelPrefixes(c);
    KernelPostedAt(c, k);
  }

  /** In every run from `s`, all package workers have ended when the final barrier has passed. */
  ghost predicate InstalledAtEnd(c: Cluster, skipKernel: bool, s: State) {
    forall es, w: nat
      | CanRun(Install(c, skipKernel), s, es) && PackageBarrier(c, skipKernel) < Run(Install(c, skipKernel), s, es).pc
        && |BeforePackages(c, skipKernel)| <= w < PackageBarrier(c, skipKernel)
      :: w in Run(Install(c, skipKernel), s, es).ended
  }

  /** Given partitioned tables, with or without the kernel step: that holds if and only if no node shows EXECUTE
      at the start. */
  lemma InstalledIffCleanStart(c: Cluster, skipKernel: bool, s: State)
    requires Partitioned(c) && Initial(s) && WithinTable(c, s)
    ensures InstalledAtEnd(c, skipKernel, s) <==> CleanStart(c, s)
  {
    if CleanStart(c, s) {
      CleanStartsQuiet(c, s);
      forall es, w: nat
        | CanRun(Install(c, skipKernel), s, es) && PackageBarrier(c, skipKernel) < Run(Install(c, skipKernel), s, es).pc
          && |BeforePackages(c, skipKernel)| <= w < PackageBarrier(c, skipKernel)
        ensures w in Run(Install(c, skipKernel), s, es).ended
      {
        InstallComplete(c, skipKernel, s, es, w);
      }
    } else {
      var n :| n in c.all.words && SignalOf(s, n) == Execute;
      var k :| 0 <= k < |c.all.words| && c.all.words[k] == n;
      var es, w := StalePackageRun(c, skipKernel, s, k);
    }
  }

  // ---------- The script can complete ----------

  lemma OpensFromStart(c: Cluster, skipKernel: bool, s: State)
    requires Partitioned(c) && Initial(s)
    ensures Opens(s, BeforePackages(c, skipKernel), {})
  {
    if !skipKernel {
      var nothing: Program := [];
      assert nothing + Phase(c.all) == Phase(c.all);
      PhaseOpens(s, nothing, c.all, {});
      ResetOpens(s, Phase(c.all), c.all, {});
      PostsOpen(s, Phase(c.all) + Reset(c.all), Clear, c.all.words, {});
      PhaseOpens(s, BeforeKernel(c), c.all, {});
      ResetOpens(s, BeforeKernel(c) + Phase(c.all), c.all, {});
    }
  }

  /** With partitioned tables some run passes the final barrier, whatever signals it starts from. */
  lemma InstallCanComplete(c: Cluster, skipKernel: bool, s: State) returns (es: seq<Event>)
    requires Partitioned(c) && Initial(s) && c.all.words != []
    ensures CanRun(Install(c, skipKernel), s, es) && PackageBarrier(c, skipKernel) < Run(Install(c, skipKernel), s, es).pc
  {
    var prog, b, n, t, w := Install(c, skipKernel), BeforePackages(c, skipKernel), c.all.words[0], s, 0;
    OpensFromStart(c, skipKernel, s);
    assert b <= prog by { InstallAtBarrier(c, skipKernel); assert prog[..|b|] == b; }
    es := PromptRun(prog, s, [], s, b, {});
    es, t, w := PackagesHolding(c, skipKernel, s, es, PromptState(s, b, {}), n);
    es := Release(prog, s, es, t, w, n);
    es := PassFinalBarrier(c, skipKernel, s, es, EndedNow(t, w, n));
  }
}
