/** The deploy and install drivers as controller scripts, and the order of phases in all their runs. */
module Drivers {
  import opened SignalProtocol
  import Shell
  import Tables = Barrier

  /** A node table: its whitespace-separated words, and its newline count as `wc -l` reports it. */
  datatype Table = Table(words: seq<Addr>, lines: nat)

  /** One address a line, none listed twice. */
  ghost predicate Proper(t: Table) {
    && t.lines == |t.words|
    && forall i, j :: 0 <= i < j < |t.words| ==> t.words[i] != t.words[j]
  }

  /** A table as the scripts read it from its file. */
  function TableOf(text: string): Table {
    Table(Shell.Words(text), Tables.Newlines(text))
  }

  /** One distinct address a line: proper exactly when the last line is ended too. */
  lemma ProperIffLastLineEnded(ws: seq<Addr>)
    requires ws != [] && Shell.AllWords(ws) && forall i, j :: 0 <= i < j < |ws| ==> ws[i] != ws[j]
    ensures Proper(TableOf(Shell.Join(ws, "\n") + "\n")) && TableOf(Shell.Join(ws, "\n") + "\n").words == ws
    ensures !Proper(TableOf(Shell.Join(ws, "\n"))) && TableOf(Shell.Join(ws, "\n")).words == ws
  {
    Tables.ClosedTable(ws);
    Tables.OpenTable(ws);
  }

  /** `execute_sshcmd`: the command goes to each listed address in turn. */
  function Posts(cmd: Cmd, words: seq<Addr>): (p: Program)
    ensures |p| == |words| && forall i :: 0 <= i < |p| ==> p[i] == Post(cmd, words[i])
  {
    seq(|words|, i requires 0 <= i < |words| => Post(cmd, words[i]))
  }

  function Barrier(t: Table, want: Signal): Program {
    [Await(t.words, t.lines, want)]
  }

  /** Clear the signals, mark the reboot, reboot, and wait for the mark. */
  function Reset(t: Table): Program {
    Posts(Clear, t.words) + Posts(MarkReboot, t.words) + Posts(Restart, t.words) + Barrier(t, Reboot)
  }

  /** Start a worker on every listed node and wait for all of them. */
  function Phase(t: Table): Program {
    Posts(Work, t.words) + Barrier(t, Execute)
  }

  // ---------- Reading scripts ----------

  lemma Assoc(a: Program, b: Program, c: Program)
    ensures a + (b + c) == (a + b) + c
  {
  }

  lemma PrefixTrans(a: Program, b: Program, c: Program)
    requires a <= b <= c
    ensures a <= c
  {
  }

  lemma TrackAppend(start: Track, p: Program, i: Instr, n: Addr)
    ensures TrackAfter(start, p + [i], n) == Transfer(TrackAfter(start, p, n), |p|, i, n)
  {
    assert (p + [i])[..|p|] == p;
  }

  lemma {:induction false} TrackPosts(start: Track, p: Program, cmd: Cmd, words: seq<Addr>, n: Addr)
    requires !cmd.Work? || n !in words
    ensures TrackAfter(start, p + Posts(cmd, words), n) == TrackAfter(start, p, n)
    decreases |words|
  {
    if words == [] {
      assert p + Posts(cmd, words) == p;
    } else {
      var front, last := words[..|words| - 1], words[|words| - 1];
      assert last in words;
      TrackPosts(start, p, cmd, front, n);
      assert p + Posts(cmd, words) == (p + Posts(cmd, front)) + [Post(cmd, last)];
      TrackAppend(start, p + Posts(cmd, front), Post(cmd, last), n);
    }
  }

  lemma {:induction false} TrackWorkers(start: Track, p: Program, words: seq<Addr>, k: nat)
    requires k < |words| && forall i, j :: 0 <= i < j < |words| ==> words[i] != words[j]
    requires TrackAfter(start, p, words[k]) == Quiet
    ensures TrackAfter(start, p + Posts(Work, words), words[k]) == Pending(|p| + k)
    decreases |words|
  {
    var n, front, last := words[k], words[..|words| - 1], words[|words| - 1];
    assert p + Posts(Work, words) == (p + Posts(Work, front)) + [Post(Work, last)];
    TrackAppend(start, p + Posts(Work, front), Post(Work, last), n);
    if k == |words| - 1 {
      TrackPosts(start, p, Work, front, n);
    } else {
      TrackWorkers(start, p, front, k);
    }
  }

  lemma TrackReset(start: Track, p: Program, t: Table, n: Addr)
    requires Proper(t)
    ensures TrackAfter(start, p + Reset(t), n)
            == if n in t.words then Passed(TrackAfter(start, p, n), Reboot) else TrackAfter(start, p, n)
  {
    var clear, mark, restart := Posts(Clear, t.words), Posts(MarkReboot, t.words), Posts(Restart, t.words);
    Assoc(p, clear + mark + restart, Barrier(t, Reboot));
    Assoc(p, clear + mark, restart);
    Assoc(p, clear, mark);
    TrackPosts(start, p, Clear, t.words, n);
    TrackPosts(start, p + clear, MarkReboot, t.words, n);
    TrackPosts(start, p + clear + mark, Restart, t.words, n);
    TrackAppend(start, p + clear + mark + restart, Await(t.words, t.lines, Reboot), n);
  }

  lemma TrackPhase(start: Track, p: Program, t: Table, n: Addr)
    requires Proper(t)
    requires n in t.words ==> TrackAfter(start, p, n) == Quiet
    ensures TrackAfter(start, p + Phase(t), n) == if n in t.words then Idle else TrackAfter(start, p, n)
  {
    Assoc(p, Posts(Work, t.words), Barrier(t, Execute));
    TrackAppend(start, p + Posts(Work, t.words), Await(t.words, t.lines, Execute), n);
    if n in t.words {
      var k :| 0 <= k < |t.words| && t.words[k] == n;
      TrackWorkers(start, p, t.words, k);
    } else {
      TrackPosts(start, p, Work, t.words, n);
    }
  }

  /** The barrier that closes a phase acknowledges its k-th worker if the node was quiet before. */
  lemma PhaseAcknowledges(prog: Program, start: Track, p: Program, t: Table, k: nat)
    requires Proper(t) && p + Phase(t) <= prog && k < |t.words|
    requires TrackAfter(start, p, t.words[k]) == Quiet
    ensures Acknowledges(prog, start, |p| + |t.words|, |p| + k)
    ensures prog[|p| + k] == Post(Work, t.words[k])
  {
    var j := |p| + |t.words|;
    assert prog[..j] == p + Posts(Work, t.words);
    assert prog[j] == Await(t.words, t.lines, Execute);
    assert prog[|p| + k] == (p + Phase(t))[|p| + k];
    TrackWorkers(start, p, t.words, k);
    assert t.words[k] in t.words;
  }

  // ---------- Deploy ----------

  datatype Cluster = Cluster(all: Table, servers: Table, oss: Table, clients: Table, mds: Addr)

  function MdsTable(c: Cluster): Table {
    Table([c.mds], 1)
  }

  /** Unmount and remove the old partition: commands that touch no signal. */
  function Prepare(c: Cluster): Program {
    Posts(Plain, c.servers.words) + Posts(Plain, c.clients.words) + Posts(Plain, c.servers.words)
  }

  function BeforeParted(c: Cluster): Program {
    Prepare(c) + Reset(c.all)
  }

  /** After partitioning: a second reset, mkfs.ext4, clear everywhere, firewall off. */
  function BeforeMds(c: Cluster): Program {
    BeforeParted(c) + Phase(c.servers) + Reset(c.servers) + Posts(Plain, c.servers.words)
    + Posts(Clear, c.all.words) + Posts(Plain, c.all.words) + Posts(Plain, c.all.words)
  }

  function BeforeOss(c: Cluster): Program {
    BeforeMds(c) + Phase(MdsTable(c)) + Posts(Clear, c.servers.words)
  }

  function BeforeClients(c: Cluster): Program {
    BeforeOss(c) + Phase(c.oss) + Posts(Clear, c.oss.words)
  }

  function Deploy(c: Cluster): Program {
    BeforeClients(c) + Phase(c.clients) + Posts(Clear, c.clients.words)
  }

  function PartedWorker(c: Cluster, k: nat): nat { |BeforeParted(c)| + k }

  function MdsWorker(c: Cluster): nat { |BeforeMds(c)| }

  function OssWorker(c: Cluster, k: nat): nat { |BeforeOss(c)| + k }

  function ClientWorker(c: Cluster, k: nat): nat { |BeforeClients(c)| + k }

  /** Every table is proper and the full table covers the others and the MDS. */
  ghost predicate Covered(c: Cluster) {
    && Proper(c.all) && Proper(c.servers) && Proper(c.oss) && Proper(c.clients)
    && c.mds in c.all.words
    && forall n :: n in c.servers.words || n in c.oss.words || n in c.clients.words ==> n in c.all.words
  }

  /** The clients are neither OSS nodes nor the MDS. */
  ghost predicate SeparateClients(c: Cluster) {
    c.mds !in c.clients.words && forall n :: n in c.clients.words ==> n !in c.oss.words
  }

  lemma QuietBeforeParted(c: Cluster, n: Addr)
    requires Covered(c) && n in c.all.words
    ensures TrackAfter(Idle, BeforeParted(c), n) == Quiet
  {
    var p1 := Posts(Plain, c.servers.words);
    var p2 := p1 + Posts(Plain, c.clients.words);
    assert [] + p1 == p1;
    TrackPosts(Idle, [], Plain, c.servers.words, n);
    TrackPosts(Idle, p1, Plain, c.clients.words, n);
    TrackPosts(Idle, p2, Plain, c.servers.words, n);
    TrackReset(Idle, Prepare(c), c.all, n);
  }

  lemma QuietBeforeMds(c: Cluster, n: Addr)
    requires Covered(c) && n in c.all.words
    ensures TrackAfter(Idle, BeforeMds(c), n) == Quiet
  {
    QuietBeforeParted(c, n);
    var p1 := BeforeParted(c) + Phase(c.servers);
    var p2 := p1 + Reset(c.servers);
    var p3 := p2 + Posts(Plain, c.servers.words);
    var p4 := p3 + Posts(Clear, c.all.words);
    var p5 := p4 + Posts(Plain, c.all.words);
    TrackPhase(Idle, BeforeParted(c), c.servers, n);
    TrackReset(Idle, p1, c.servers, n);
    TrackPosts(Idle, p2, Plain, c.servers.words, n);
    TrackPosts(Idle, p3, Clear, c.all.words, n);
    TrackPosts(Idle, p4, Plain, c.all.words, n);
    TrackPosts(Idle, p5, Plain, c.all.words, n);
  }

  lemma QuietBeforeOss(c: Cluster, n: Addr)
    requires Covered(c) && n in c.all.words && n != c.mds
    ensures TrackAfter(Idle, BeforeOss(c), n) == Quiet
  {
    QuietBeforeMds(c, n);
    TrackPhase(Idle, BeforeMds(c), MdsTable(c), n);
    TrackPosts(Idle, BeforeMds(c) + Phase(MdsTable(c)), Clear, c.servers.words, n);
  }

  lemma QuietBeforeClients(c: Cluster, n: Addr)
    requires Covered(c) && n in c.all.words && n != c.mds && n !in c.oss.words
    ensures TrackAfter(Idle, BeforeClients(c), n) == Quiet
  {
    QuietBeforeOss(c, n);
    TrackPhase(Idle, BeforeOss(c), c.oss, n);
    TrackPosts(Idle, BeforeOss(c) + Phase(c.oss), Clear, c.oss.words, n);
  }

  lemma DeployPrefixes(c: Cluster)
    ensures BeforeParted(c) + Phase(c.servers) <= BeforeMds(c) <= Deploy(c)
    ensures BeforeParted(c) + Phase(c.servers) <= Deploy(c)
    ensures BeforeMds(c) + Phase(MdsTable(c)) <= BeforeOss(c) <= Deploy(c)
    ensures BeforeMds(c) + Phase(MdsTable(c)) <= Deploy(c)
    ensures BeforeOss(c) + Phase(c.oss) <= BeforeClients(c) <= Deploy(c)
    ensures BeforeOss(c) + Phase(c.oss) <= Deploy(c)
    ensures BeforeClients(c) + Phase(c.clients) <= Deploy(c)
  {
    PrefixTrans(BeforeClients(c), BeforeClients(c) + Phase(c.clients), Deploy(c));
    PrefixTrans(BeforeOss(c), BeforeOss(c) + Phase(c.oss), BeforeClients(c));
    PrefixTrans(BeforeOss(c) + Phase(c.oss), BeforeClients(c), Deploy(c));
    PrefixTrans(BeforeOss(c), BeforeClients(c), Deploy(c));
    PrefixTrans(BeforeMds(c), BeforeMds(c) + Phase(MdsTable(c)), BeforeOss(c));
    PrefixTrans(BeforeMds(c) + Phase(MdsTable(c)), BeforeOss(c), Deploy(c));
    PrefixTrans(BeforeMds(c), BeforeOss(c), Deploy(c));
    PrefixTrans(BeforeParted(c) + Phase(c.servers), BeforeMds(c), Deploy(c));
  }

  lemma PartedPrefix(c: Cluster)
    ensures BeforeParted(c) + Phase(c.servers) <= BeforeMds(c) <= Deploy(c)
  {
    DeployPrefixes(c);
  }

  lemma MdsPrefix(c: Cluster)
    ensures BeforeMds(c) + Phase(MdsTable(c)) <= BeforeOss(c) <= Deploy(c)
  {
    DeployPrefixes(c);
  }

  lemma OssPrefix(c: Cluster)
    ensures BeforeOss(c) + Phase(c.oss) <= BeforeClients(c) <= Deploy(c)
  {
    DeployPrefixes(c);
  }

  lemma ClientPrefix(c: Cluster)
    ensures BeforeClients(c) + Phase(c.clients) <= Deploy(c)
  {
    DeployPrefixes(c);
  }

  /** A phase of a script acknowledges its k-th worker, and what follows the phase comes after its barrier. */
  lemma AcknowledgedWithin(prog: Program, p: Program, t: Table, q: Program, k: nat)
    requires Proper(t) && k < |t.words| && p + Phase(t) <= q <= prog
    requires TrackAfter(Idle, p, t.words[k]) == Quiet
    ensures Acknowledges(prog, Idle, |p| + |t.words|, |p| + k) && |p| + |t.words| < |q|
  {
    PrefixTrans(p + Phase(t), q, prog);
    PhaseAcknowledges(prog, Idle, p, t, k);
  }

  lemma PartedAcknowledged(c: Cluster, k: nat)
    requires Covered(c) && k < |c.servers.words|
    ensures Acknowledges(Deploy(c), Idle, PartedWorker(c, |c.servers.words|), PartedWorker(c, k))
    ensures PartedWorker(c, |c.servers.words|) < MdsWorker(c)
  {
    assert c.servers.words[k] in c.servers.words;
    QuietBeforeParted(c, c.servers.words[k]);
    PartedPrefix(c);
    AcknowledgedWithin(Deploy(c), BeforeParted(c), c.servers, BeforeMds(c), k);
  }

  lemma MdsAcknowledged(c: Cluster)
    requires Covered(c)
    ensures Acknowledges(Deploy(c), Idle, MdsWorker(c) + 1, MdsWorker(c))
    ensures MdsWorker(c) + 1 < OssWorker(c, 0)
  {
    QuietBeforeMds(c, c.mds);
    MdsPrefix(c);
    AcknowledgedWithin(Deploy(c), BeforeMds(c), MdsTable(c), BeforeOss(c), 0);
  }

  lemma OssAcknowledged(c: Cluster, k: nat)
    requires Covered(c) && c.mds !in c.oss.words && k < |c.oss.words|
    ensures Acknowledges(Deploy(c), Idle, OssWorker(c, |c.oss.words|), OssWorker(c, k))
    ensures OssWorker(c, |c.oss.words|) < ClientWorker(c, 0)
  {
    assert c.oss.words[k] in c.oss.words;
    QuietBeforeOss(c, c.oss.words[k]);
    OssPrefix(c);
    AcknowledgedWithin(Deploy(c), BeforeOss(c), c.oss, BeforeClients(c), k);
  }

  lemma ClientAcknowledged(c: Cluster, k: nat)
    requires Covered(c) && SeparateClients(c) && k < |c.clients.words|
    ensures Acknowledges(Deploy(c), Idle, ClientWorker(c, |c.clients.words|), ClientWorker(c, k))
  {
    assert c.clients.words[k] in c.clients.words;
    QuietBeforeClients(c, c.clients.words[k]);
    ClientPrefix(c);
    AcknowledgedWithin(Deploy(c), BeforeClients(c), c.clients, Deploy(c), k);
  }

  // In every run of the deploy script, from any signals but no leftover workers:

  /** no MDS, OSS or client worker starts before every partition worker has ended; */
  lemma MdsAfterParted(c: Cluster, s: State, es: seq<Event>, v: nat, k: nat)
    requires Covered(c) && Initial(s) && CanRun(Deploy(c), s, es)
    requires es != [] && es[|es| - 1] == Arrive(v) && MdsWorker(c) <= v && k < |c.servers.words|
    ensures Finish(PartedWorker(c, k)) in es[..|es| - 1]
  {
    PartedAcknowledged(c, k);
    AcknowledgedBefore(Deploy(c), Idle, s, es, PartedWorker(c, |c.servers.words|), PartedWorker(c, k), v);
  }

  /** no OSS or client worker starts before the MDS worker has ended; */
  lemma OssAfterMds(c: Cluster, s: State, es: seq<Event>, v: nat)
    requires Covered(c) && Initial(s) && CanRun(Deploy(c), s, es)
    requires es != [] && es[|es| - 1] == Arrive(v) && OssWorker(c, 0) <= v
    ensures Finish(MdsWorker(c)) in es[..|es| - 1]
  {
    MdsAcknowledged(c);
    AcknowledgedBefore(Deploy(c), Idle, s, es, MdsWorker(c) + 1, MdsWorker(c), v);
  }

  /** and, if the MDS is no OSS node, no client worker starts before every OSS worker has ended. */
  lemma ClientsAfterOss(c: Cluster, s: State, es: seq<Event>, v: nat, k: nat)
    requires Covered(c) && c.mds !in c.oss.words && Initial(s) && CanRun(Deploy(c), s, es)
    requires es != [] && es[|es| - 1] == Arrive(v) && ClientWorker(c, 0) <= v && k < |c.oss.words|
    ensures Finish(OssWorker(c, k)) in es[..|es| - 1]
  {
    OssAcknowledged(c, k);
    AcknowledgedBefore(Deploy(c), Idle, s, es, OssWorker(c, |c.oss.words|), OssWorker(c, k), v);
  }

  /** The script reaches its end only after every client mount has ended. */
  lemma DeployComplete(c: Cluster, s: State, es: seq<Event>, k: nat)
    requires Covered(c) && SeparateClients(c) && k < |c.clients.words|
    requires Initial(s) && CanRun(Deploy(c), s, es)
    requires Run(Deploy(c), s, es).pc == |Deploy(c)|
    ensures ClientWorker(c, k) in Run(Deploy(c), s, es).ended
  {
    ClientAcknowledged(c, k);
    RunKeepsInv(Deploy(c), Idle, s, es);
  }

  // ---------- Install ----------

  function BeforeKernel(c: Cluster): Program {
    Phase(c.all) + Reset(c.all) + Posts(Clear, c.all.words)
  }

  function KernelWorker(c: Cluster, k: nat): nat { |BeforeKernel(c)| + k }

  /** With the kernel step the packages follow two resets; with `skip_install_kernel` they come first. */
  function BeforePackages(c: Cluster, skipKernel: bool): Program {
    if skipKernel then [] else BeforeKernel(c) + Phase(c.all) + Reset(c.all)
  }

  function Install(c: Cluster, skipKernel: bool): Program {
    BeforePackages(c, skipKernel) + Posts(Work, c.servers.words) + Posts(Work, c.clients.words)
    + Barrier(c.all, Execute) + Posts(Clear, c.all.words)
  }

  function PackageBarrier(c: Cluster, skipKernel: bool): nat {
    |BeforePackages(c, skipKernel)| + |c.servers.words| + |c.clients.words|
  }

  /** The server and client tables partition the full table. */
  ghost predicate Partitioned(c: Cluster) {
    && Proper(c.all) && Proper(c.servers) && Proper(c.clients)
    && (forall n :: n in c.all.words <==> n in c.servers.words || n in c.clients.words)
    && forall n :: n in c.servers.words ==> n !in c.clients.words
  }

  lemma TrackFirstPhase(t: Table, n: Addr)
    requires Proper(t) && n in t.words
    ensures TrackAfter(Quiet, Phase(t), n) == Idle
  {
    var p: Program := [];
    TrackPhase(Quiet, p, t, n);
    assert p + Phase(t) == Phase(t);
  }

  lemma QuietBeforeKernel(c: Cluster, n: Addr)
    requires Partitioned(c) && n in c.all.words
    ensures TrackAfter(Quiet, BeforeKernel(c), n) == Quiet
  {
    TrackFirstPhase(c.all, n);
    TrackReset(Quiet, Phase(c.all), c.all, n);
    TrackPosts(Quiet, Phase(c.all) + Reset(c.all), Clear, c.all.words, n);
  }

  lemma QuietBeforePackages(c: Cluster, skipKernel: bool, n: Addr)
    requires Partitioned(c) && n in c.all.words
    ensures TrackAfter(Quiet, BeforePackages(c, skipKernel), n) == Quiet
  {
    if !skipKernel {
      QuietBeforeKernel(c, n);
      TrackPhase(Quiet, BeforeKernel(c), c.all, n);
      TrackReset(Quiet, BeforeKernel(c) + Phase(c.all), c.all, n);
    }
  }

  lemma InstallAtBarrier(c: Cluster, skipKernel: bool)
    ensures var prog, j := Install(c, skipKernel), PackageBarrier(c, skipKernel);
            && j < |prog|
            && prog[..j] == BeforePackages(c, skipKernel) + Posts(Work, c.servers.words) + Posts(Work, c.clients.words)
            && prog[j] == Await(c.all.words, c.all.lines, Execute)
  {
  }

  /** At the final barrier the k-th server and the k-th client have exactly their package worker pending. */
  lemma PackagesPending(c: Cluster, skipKernel: bool, k: nat)
    requires Partitioned(c)
    ensures var b, servers, clients := BeforePackages(c, skipKernel), c.servers.words, c.clients.words;
            var p := b + Posts(Work, servers) + Posts(Work, clients);
            && (k < |servers| ==> TrackAfter(Quiet, p, servers[k]) == Pending(|b| + k))
            && (k < |clients| ==> TrackAfter(Quiet, p, clients[k]) == Pending(|b| + |servers| + k))
  {
    var b, servers, clients := BeforePackages(c, skipKernel), c.servers.words, c.clients.words;
    var p := b + Posts(Work, servers);
    if k < |servers| {
      assert servers[k] in servers;
      QuietBeforePackages(c, skipKernel, servers[k]);
      TrackWorkers(Quiet, b, servers, k);
      TrackPosts(Quiet, p, Work, clients, servers[k]);
    }
    if k < |clients| {
      assert clients[k] in clients;
      QuietBeforePackages(c, skipKernel, clients[k]);
      TrackPosts(Quiet, b, Work, servers, clients[k]);
      TrackWorkers(Quiet, p, clients, k);
    }
  }

  /** The final barrier acknowledges every package worker, on servers and clients alike. */
  lemma PackagesAcknowledged(c: Cluster, skipKernel: bool, w: nat)
    requires Partitioned(c) && |BeforePackages(c, skipKernel)| <= w < PackageBarrier(c, skipKernel)
    ensures Acknowledges(Install(c, skipKernel), Quiet, PackageBarrier(c, skipKernel), w)
  {
    InstallAtBarrier(c, skipKernel);
    var k, m := w - |BeforePackages(c, skipKernel)|, |c.servers.words|;
    var n := if k < m then c.servers.words[k] else c.clients.words[k - m];
    PackagesPending(c, skipKernel, if k < m then k else k - m);
    assert n in c.all.words;
  }

  lemma KernelAcknowledged(c: Cluster, k: nat)
    requires Partitioned(c) && k < |c.all.words|
    ensures Acknowledges(Install(c, false), Quiet, KernelWorker(c, |c.all.words|), KernelWorker(c, k))
    ensures KernelWorker(c, |c.all.words|) < |BeforePackages(c, false)|
  {
    var p, b := BeforeKernel(c), BeforePackages(c, false);
    QuietBeforeKernel(c, c.all.words[k]);
    PrefixTrans(p + Phase(c.all), b, b + Posts(Work, c.servers.words));
    PrefixTrans(p + Phase(c.all), b + Posts(Work, c.servers.words), Install(c, false));
    PhaseAcknowledges(Install(c, false), Quiet, p, c.all, k);
  }

  /** With the kernel step: no package worker starts before every node's kernel worker has ended. */
  lemma InstallOrder(c: Cluster, s: State, es: seq<Event>, v: nat, k: nat)
    requires Partitioned(c) && StartsAs(Quiet, s) && CanRun(Install(c, false), s, es)
    requires es != [] && es[|es| - 1] == Arrive(v) && |BeforePackages(c, false)| <= v && k < |c.all.words|
    ensures Finish(KernelWorker(c, k)) in es[..|es| - 1]
  {
    var j, w := KernelWorker(c, |c.all.words|), KernelWorker(c, k);
    assert Acknowledges(Install(c, false), Quiet, j, w) && j < v by { KernelAcknowledged(c, k); }
    AcknowledgedBefore(Install(c, false), Quiet, s, es, j, w, v);
  }

  /** With or without the kernel step: the final barrier passes only after every package worker has ended. */
  lemma InstallComplete(c: Cluster, skipKernel: bool, s: State, es: seq<Event>, w: nat)
    requires Partitioned(c) && StartsAs(Quiet, s) && CanRun(Install(c, skipKernel), s, es)
    requires PackageBarrier(c, skipKernel) < Run(Install(c, skipKernel), s, es).pc
    requires |BeforePackages(c, skipKernel)| <= w < PackageBarrier(c, skipKernel)
    ensures w in Run(Install(c, skipKernel), s, es).ended
  {
    PackagesAcknowledged(c, skipKernel, w);
    RunKeepsInv(Install(c, skipKernel), Quiet, s, es);
  }
}
