/**
  Which node tables the deploy script needs. Two of its orders hold in all runs exactly for certain tables: for
  any others there is a run in which a barrier takes an earlier worker's EXECUTE for the awaited one.
 */
module DeployExactness {
  import opened SignalProtocol
  import opened Drivers
  import opened PromptRuns
  import opened ProtocolLaws

  const ORIGIN: State := State(0, 0, 0, {}, {}, {}, {}, map[])

  ghost function BeforeOssClear(c: Cluster): Program {
    BeforeMds(c) + Phase(MdsTable(c))
  }

  ghost function BeforeOssEnd(c: Cluster): Program {
    BeforeOss(c) + Phase(c.oss)
  }

  ghost function BeforeFormat(c: Cluster): Program {
    BeforeParted(c) + Phase(c.servers) + Reset(c.servers)
  }

  lemma OpensToParted(c: Cluster, held: set<nat>)
    requires Covered(c) && Prompt(held, 0, |BeforeParted(c)|)
    ensures Opens(ORIGIN, BeforeParted(c), held)
  {
    var nothing: Program := [];
    var p1 := Posts(Plain, c.servers.words);
    var p2 := p1 + Posts(Plain, c.clients.words);
    assert nothing + p1 == p1;
    PostsOpen(ORIGIN, nothing, Plain, c.servers.words, held);
    PostsOpen(ORIGIN, p1, Plain, c.clients.words, held);
    PostsOpen(ORIGIN, p2, Plain, c.servers.words, held);
    ResetOpens(ORIGIN, Prepare(c), c.all, held);
  }

  lemma OpensToFormat(c: Cluster, held: set<nat>)
    requires Covered(c) && Prompt(held, 0, |BeforeFormat(c)|)
    ensures Opens(ORIGIN, BeforeFormat(c), held)
  {
    var p := BeforeParted(c);
    OpensToParted(c, held);
    PhaseOpens(ORIGIN, p, c.servers, held);
    ResetOpens(ORIGIN, p + Phase(c.servers), c.servers, held);
  }

  lemma OpensToMds(c: Cluster, held: set<nat>)
    requires Covered(c) && Prompt(held, 0, |BeforeOssClear(c)|)
    ensures Opens(ORIGIN, BeforeOssClear(c), held)
    ensures Look(ORIGIN, BeforeOssClear(c), held, c.mds) == Execute
  {
    var p1 := BeforeFormat(c);
    var p2 := p1 + Posts(Plain, c.servers.words);
    var p3 := p2 + Posts(Clear, c.all.words);
    var p4 := p3 + Posts(Plain, c.all.words);
    OpensToFormat(c, held);
    PostsOpen(ORIGIN, p1, Plain, c.servers.words, held);
    PostsOpen(ORIGIN, p2, Clear, c.all.words, held);
    PostsOpen(ORIGIN, p3, Plain, c.all.words, held);
    PostsOpen(ORIGIN, p4, Plain, c.all.words, held);
    assert c.mds in MdsTable(c).words;
    PhaseOpens(ORIGIN, BeforeMds(c), MdsTable(c), held);
  }

  /** The commands that the script posts to `n` among `words`, from position `at` on. */
  ghost function PostedTo(at: nat, words: seq<Addr>, n: Addr): set<nat> {
    set i | 0 <= i < |words| && words[i] == n :: at + i
  }

  lemma PostedToMeans(at: nat, words: seq<Addr>, n: Addr)
    ensures forall i :: 0 <= i < |words| && words[i] == n ==> at + i in PostedTo(at, words, n)
    ensures forall h :: h in PostedTo(at, words, n) ==> at <= h < at + |words| && words[h - at] == n
  {
  }

  // ---------- OSS workers before client workers ----------

  /** From `at` on: the commands that clear the MDS after its worker ended, and the OSS worker of the MDS. */
  ghost function LateOn(at: nat, servers: seq<Addr>, oss: seq<Addr>, n: Addr): set<nat> {
    PostedTo(at, servers, n) + PostedTo(at + |servers|, oss, n)
  }

  ghost function LateOnMds(c: Cluster): set<nat> {
    LateOn(|BeforeOssClear(c)|, c.servers.words, c.oss.words, c.mds)
  }

  ghost predicate IsLateOn(held: set<nat>, at: nat, servers: seq<Addr>, oss: seq<Addr>, n: Addr) {
    && Prompt(held, 0, at)
    && (forall i :: 0 <= i < |servers| && servers[i] == n ==> at + i in held)
    && (forall i :: 0 <= i < |oss| ==> (at + |servers| + i in held <==> oss[i] == n))
  }

  lemma LateOnMeans(at: nat, servers: seq<Addr>, oss: seq<Addr>, n: Addr)
    ensures IsLateOn(LateOn(at, servers, oss, n), at, servers, oss, n)
  {
    PostedToMeans(at, servers, n);
    PostedToMeans(at + |servers|, oss, n);
  }

  /** A node that shows EXECUTE and is not cleared opens the OSS barrier without its OSS worker. */
  lemma StaleOssOpens(base: State, p: Program, servers: seq<Addr>, oss: Table, held: set<nat>, n: Addr)
    requires base.pc <= |p| && Proper(oss) && Opens(base, p, held) && Look(base, p, held, n) == Execute
    requires IsLateOn(held, |p|, servers, oss.words, n)
    ensures Opens(base, p + Posts(Clear, servers) + Phase(oss) + Posts(Clear, oss.words), held)
  {
    var q := p + Posts(Clear, servers);
    PostsOpen(base, p, Clear, servers, held);
    PostsKeep(base, p, Clear, servers, held, n);
    PhaseOpens(base, q, oss, held);
    PostsOpen(base, q + Phase(oss), Clear, oss.words, held);
  }

  lemma OpensToClients(c: Cluster, held: set<nat>)
    requires Covered(c) && IsLateOn(held, |BeforeOssClear(c)|, c.servers.words, c.oss.words, c.mds)
    ensures Opens(ORIGIN, BeforeClients(c), held)
  {
    OpensToMds(c, held);
    StaleOssOpens(ORIGIN, BeforeOssClear(c), c.servers.words, c.oss, held, c.mds);
  }

  lemma OssWorkerPosition(c: Cluster, k: nat)
    ensures OssWorker(c, k) == |BeforeOssClear(c)| + |c.servers.words| + k
  {
  }

  /** A client worker starts while the OSS worker of the MDS has not even arrived. */
  lemma StaleSignalRun(c: Cluster, k: nat) returns (es: seq<Event>)
    requires Covered(c) && c.clients.words != [] && k < |c.oss.words| && c.oss.words[k] == c.mds
    ensures CanRun(Deploy(c), ORIGIN, es) && es != [] && es[|es| - 1] == Arrive(ClientWorker(c, 0))
    ensures Finish(OssWorker(c, k)) !in es
  {
    var held := LateOnMds(c);
    assert IsLateOn(held, |BeforeOssClear(c)|, c.servers.words, c.oss.words, c.mds) by {
      LateOnMeans(|BeforeOssClear(c)|, c.servers.words, c.oss.words, c.mds);
    }
    StaleRunHolding(c, k, held);
    assert BeforeClients(c) + Phase(c.clients) <= Deploy(c) by { DeployPrefixes(c); }
    es := StartHolding(Deploy(c), ORIGIN, BeforeClients(c), c.clients, held, OssWorker(c, k));
  }

  lemma StaleRunHolding(c: Cluster, k: nat, held: set<nat>)
    requires Covered(c) && k < |c.oss.words| && c.oss.words[k] == c.mds
    requires IsLateOn(held, |BeforeOssClear(c)|, c.servers.words, c.oss.words, c.mds)
    ensures OssWorker(c, k) in held && Opens(ORIGIN, BeforeClients(c), held)
  {
    OssWorkerPosition(c, k);
    OpensToClients(c, held);
  }

  /** No run of the script starts a client worker before an OSS worker has ended. */
  ghost predicate OssBeforeClients(c: Cluster) {
    forall s, es, v: nat, k: nat
      | Initial(s) && CanRun(Deploy(c), s, es) && es != [] && es[|es| - 1] == Arrive(v)
        && ClientWorker(c, 0) <= v && k < |c.oss.words|
      :: Finish(OssWorker(c, k)) in es[..|es| - 1]
  }

  /** Given proper, covered tables and at least one client, that order holds if and only if the MDS is no OSS node. */
  lemma OrderHoldsIffMdsSeparate(c: Cluster)
    requires Covered(c) && c.clients.words != []
    ensures OssBeforeClients(c) <==> c.mds !in c.oss.words
  {
    if c.mds in c.oss.words {
      var k :| 0 <= k < |c.oss.words| && c.oss.words[k] == c.mds;
      var es := StaleSignalRun(c, k);
      assert Initial(ORIGIN) && Finish(OssWorker(c, k)) !in es[..|es| - 1];
    } else {
      forall s, es, v: nat, k: nat
        | Initial(s) && CanRun(Deploy(c), s, es) && es != [] && es[|es| - 1] == Arrive(v)
          && ClientWorker(c, 0) <= v && k < |c.oss.words|
        ensures Finish(OssWorker(c, k)) in es[..|es| - 1]
      {
        ClientsAfterOss(c, s, es, v, k);
      }
    }
  }

  // ---------- Client workers before the end ----------

  /** What follows the prefix `p` when only clients are left to wait for. */
  ghost function Tail(p: Program, servers: seq<Addr>, oss: Table, clients: Table): Program {
    p + Posts(Clear, servers) + Phase(oss) + Posts(Clear, oss.words) + Phase(clients) + Posts(Clear, clients.words)
  }

  /** In a tail from `at` on: the commands that clear `n` after the MDS and the OSS phase, and its client worker. */
  ghost function Late(at: nat, servers: seq<Addr>, oss: Table, clients: Table, n: Addr): set<nat> {
    var m := |oss.words|;
    PostedTo(at, servers, n)
    + PostedTo(at + |servers| + m + 1, oss.words, n)
    + PostedTo(at + |servers| + m + 1 + m, clients.words, n)
  }

  ghost predicate IsLate(held: set<nat>, at: nat, servers: seq<Addr>, oss: Table, clients: Table, n: Addr) {
    var m, x := |oss.words|, at + |servers|;
    && Prompt(held, 0, at) && Prompt(held, x, x + m + 1)
    && (forall i :: 0 <= i < |servers| && servers[i] == n ==> at + i in held)
    && (forall i :: 0 <= i < m && oss.words[i] == n ==> x + m + 1 + i in held)
    && (forall i :: 0 <= i < |clients.words| ==> (x + m + 1 + m + i in held <==> clients.words[i] == n))
  }

  lemma LateMeans(at: nat, servers: seq<Addr>, oss: Table, clients: Table, n: Addr)
    ensures IsLate(Late(at, servers, oss, clients, n), at, servers, oss, clients, n)
  {
    var m, x := |oss.words|, at + |servers|;
    PostedToMeans(at, servers, n);
    PostedToMeans(x + m + 1, oss.words, n);
    PostedToMeans(x + m + 1 + m, clients.words, n);
  }

  /** A node that shows EXECUTE after the MDS or the OSS phase keeps it while the commands that clear it are held. */
  lemma StaleBeforeClients(base: State, p: Program, servers: seq<Addr>, oss: Table, held: set<nat>, n: Addr)
    requires base.pc <= |p| && Proper(oss) && Opens(base, p, held)
    requires n in oss.words || Look(base, p, held, n) == Execute
    requires Prompt(held, |p| + |servers|, |p| + |servers| + |oss.words| + 1)
    requires forall i :: 0 <= i < |servers| && servers[i] == n ==> |p| + i in held
    requires forall i :: 0 <= i < |oss.words| && oss.words[i] == n ==> |p| + |servers| + |oss.words| + 1 + i in held
    ensures var r := p + Posts(Clear, servers) + Phase(oss) + Posts(Clear, oss.words);
            Opens(base, r, held) && Look(base, r, held, n) == Execute
  {
    var q := p + Posts(Clear, servers);
    assert |q| == |p| + |servers| && |q + Phase(oss)| == |q| + |oss.words| + 1;
    PostsOpen(base, p, Clear, servers, held);
    PostsKeep(base, p, Clear, servers, held, n);
    PhaseThenClear(base, q, oss, held, n);
  }

  /** So it opens the client barrier without its client worker. */
  lemma StaleTail(base: State, p: Program, servers: seq<Addr>, oss: Table, clients: Table, held: set<nat>, n: Addr)
    requires base.pc <= |p| && Proper(oss) && Proper(clients)
    requires Opens(base, p, held) && IsLate(held, |p|, servers, oss, clients, n)
    requires n in oss.words || Look(base, p, held, n) == Execute
    ensures Opens(base, Tail(p, servers, oss, clients), held)
  {
    StaleBeforeClients(base, p, servers, oss, held, n);
    var r := p + Posts(Clear, servers) + Phase(oss) + Posts(Clear, oss.words);
    assert |r| == |p| + |servers| + |oss.words| + 1 + |oss.words|;
    ClientsOpen(base, r, clients, held, n);
  }

  lemma ClientsOpen(base: State, r: Program, clients: Table, held: set<nat>, n: Addr)
    requires base.pc <= |r| && Proper(clients) && Opens(base, r, held) && Look(base, r, held, n) == Execute
    requires forall i :: 0 <= i < |clients.words| ==> (|r| + i in held <==> clients.words[i] == n)
    ensures Opens(base, r + Phase(clients) + Posts(Clear, clients.words), held)
  {
    PhaseOpens(base, r, clients, held);
    PostsOpen(base, r + Phase(clients), Clear, clients.words, held);
  }

  ghost function LateOnClient(c: Cluster, n: Addr): set<nat> {
    Late(|BeforeOssClear(c)|, c.servers.words, c.oss, c.clients, n)
  }

  lemma OpensToEnd(c: Cluster, n: Addr)
    requires Covered(c) && (n == c.mds || n in c.oss.words)
    ensures Opens(ORIGIN, Deploy(c), LateOnClient(c, n))
  {
    OpensToEndHolding(c, LateOnClient(c, n), n) by {
      LateMeans(|BeforeOssClear(c)|, c.servers.words, c.oss, c.clients, n);
    }
  }

  lemma OpensToEndHolding(c: Cluster, held: set<nat>, n: Addr)
    requires Covered(c) && (n == c.mds || n in c.oss.words)
    requires IsLate(held, |BeforeOssClear(c)|, c.servers.words, c.oss, c.clients, n)
    ensures Opens(ORIGIN, Deploy(c), held)
  {
    OpensToMds(c, held);
    StaleTail(ORIGIN, BeforeOssClear(c), c.servers.words, c.oss, c.clients, held, n);
  }

  lemma ClientWorkerPosition(c: Cluster, k: nat)
    ensures var m := |c.oss.words|;
            ClientWorker(c, k) == |BeforeOssClear(c)| + |c.servers.words| + m + 1 + m + k
  {
  }

  lemma ClientWorkerIsLate(c: Cluster, k: nat)
    requires k < |c.clients.words|
    ensures ClientWorker(c, k) in LateOnClient(c, c.clients.words[k])
  {
    var n := c.clients.words[k];
    ClientWorkerPosition(c, k);
    assert IsLate(LateOnClient(c, n), |BeforeOssClear(c)|, c.servers.words, c.oss, c.clients, n) by {
      LateMeans(|BeforeOssClear(c)|, c.servers.words, c.oss, c.clients, n);
    }
  }

  /** The script completes although the mount on client `n` has not even started. */
  lemma StaleClientRun(c: Cluster, k: nat) returns (es: seq<Event>)
    requires Covered(c) && k < |c.clients.words|
    requires c.clients.words[k] == c.mds || c.clients.words[k] in c.oss.words
    ensures CanRun(Deploy(c), ORIGIN, es) && Run(Deploy(c), ORIGIN, es).pc == |Deploy(c)|
    ensures ClientWorker(c, k) !in Run(Deploy(c), ORIGIN, es).ended
  {
    OpensToEnd(c, c.clients.words[k]);
    ClientWorkerIsLate(c, k);
    es := EndHolding(Deploy(c), ORIGIN, LateOnClient(c, c.clients.words[k]), ClientWorker(c, k));
  }

  /** In every run, all client mounts have ended when the script completes. */
  ghost predicate MountedAtEnd(c: Cluster) {
    forall s, es, k: nat
      | Initial(s) && CanRun(Deploy(c), s, es) && Run(Deploy(c), s, es).pc == |Deploy(c)| && k < |c.clients.words|
      :: ClientWorker(c, k) in Run(Deploy(c), s, es).ended
  }

  /** Given proper, covered tables: that holds if and only if no client is the MDS or an OSS node. */
  lemma MountedAtEndIffClientsSeparate(c: Cluster)
    requires Covered(c)
    ensures MountedAtEnd(c) <==> SeparateClients(c)
  {
    if SeparateClients(c) {
      forall s, es, k: nat
        | Initial(s) && CanRun(Deploy(c), s, es) && Run(Deploy(c), s, es).pc == |Deploy(c)| && k < |c.clients.words|
        ensures ClientWorker(c, k) in Run(Deploy(c), s, es).ended
      {
        DeployComplete(c, s, es, k);
      }
    } else {
      var n :| n in c.clients.words && (n == c.mds || n in c.oss.words);
      var k :| 0 <= k < |c.clients.words| && c.clients.words[k] == n;
      var es := StaleClientRun(c, k);
      assert Initial(ORIGIN);
    }
  }

  // ---------- The script can complete ----------

  lemma OpensThroughout(c: Cluster)
    requires Covered(c)
    ensures Opens(ORIGIN, Deploy(c), {})
  {
    OpensToMds(c, {});
    PostsOpen(ORIGIN, BeforeOssClear(c), Clear, c.servers.words, {});
    PhaseOpens(ORIGIN, BeforeOss(c), c.oss, {});
    PostsOpen(ORIGIN, BeforeOssEnd(c), Clear, c.oss.words, {});
    PhaseOpens(ORIGIN, BeforeClients(c), c.clients, {});
    PostsOpen(ORIGIN, BeforeClients(c) + Phase(c.clients), Clear, c.clients.words, {});
  }

  /** With proper, covered tables some run gets through every barrier, and all its workers end. */
  lemma DeployCanComplete(c: Cluster) returns (es: seq<Event>)
    requires Covered(c)
    ensures CanRun(Deploy(c), ORIGIN, es)
    ensures Run(Deploy(c), ORIGIN, es).pc == |Deploy(c)|
    ensures Run(Deploy(c), ORIGIN, es).ended == set k | 0 <= k < |Deploy(c)| && Deploy(c)[k].Post? && Deploy(c)[k].cmd.Work?
  {
    OpensThroughout(c);
    es := PromptRun(Deploy(c), ORIGIN, [], ORIGIN, Deploy(c), {});
  }

  /** In some run all OSS workers run at the same time, end in any given order, and the OSS barrier opens. */
  lemma OssWorkersTogether(c: Cluster, order: seq<nat>) returns (fs: seq<Event>, gs: seq<Event>)
    requires Covered(c)
    requires forall k :: k in order <==> k in PhaseWorkers(OssWorker(c, 0), |c.oss.words|)
    requires forall i, j :: 0 <= i < j < |order| ==> order[i] != order[j]
    ensures CanRun(Deploy(c), ORIGIN, fs)
    ensures Run(Deploy(c), ORIGIN, fs).running == PhaseWorkers(OssWorker(c, 0), |c.oss.words|)
    ensures CanRun(Deploy(c), ORIGIN, gs) && Run(Deploy(c), ORIGIN, gs).pc == OssWorker(c, |c.oss.words|) + 1
    ensures PhaseWorkers(OssWorker(c, 0), |c.oss.words|) <= Run(Deploy(c), ORIGIN, gs).ended
  {
    var b := BeforeOss(c);
    OpensToMds(c, {});
    PostsOpen(ORIGIN, BeforeOssClear(c), Clear, c.servers.words, {});
    assert b <= Deploy(c) && b + Phase(c.oss) <= Deploy(c) by { DeployPrefixes(c); }
    var es := PromptRun(Deploy(c), ORIGIN, [], ORIGIN, b, {});
    PhaseIsAt(Deploy(c), b, c.oss);
    fs, gs := ConcurrentPhase(Deploy(c), ORIGIN, es, PromptState(ORIGIN, b, {}), c.oss, order);
  }

  lemma PhaseIsAt(prog: Program, p: Program, t: Table)
    requires p + Phase(t) <= prog
    ensures PhaseAt(prog, |p|, t)
  {
    assert prog[|p|..][..|Phase(t)|] == Phase(t);
    assert forall i :: 0 <= i < |Phase(t)| ==> Phase(t)[i] == prog[|p| + i];
  }
}
