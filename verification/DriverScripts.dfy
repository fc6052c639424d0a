/**
  The driver scripts line by line: each line posts one command to a table or waits for one, and the programs are
  exactly these lines, flattened. Before each reboot barrier a node has been cleared, marked and restarted.
 */
module DriverScripts {
  import opened SignalProtocol
  import opened Drivers

  /** A line of a driver script. */
  datatype Line = To(cmd: Cmd, words: seq<Addr>) | Wait(table: seq<Addr>, lines: nat, want: Signal)

  function Code(l: Line): Program {
    match l
    case To(cmd, words) => Posts(cmd, words)
    case Wait(words, lines, want) => [Await(words, lines, want)]
  }

  function Flatten(ls: seq<Line>): Program {
    if ls == [] then [] else Flatten(ls[..|ls| - 1]) + Code(ls[|ls| - 1])
  }

  function RebootLines(t: Table): seq<Line> {
    [To(Clear, t.words), To(MarkReboot, t.words), To(Restart, t.words), Wait(t.words, t.lines, Reboot)]
  }

  function WorkLines(t: Table): seq<Line> {
    [To(Work, t.words), Wait(t.words, t.lines, Execute)]
  }

  /** auto_lustre2.8.0_deploy.sh from its first `umount` to the first reboot barrier, */
  function UnmountLines(c: Cluster): seq<Line> {
    [To(Plain, c.servers.words)] + [To(Plain, c.clients.words)] + [To(Plain, c.servers.words)] + RebootLines(c.all)
  }

  /** partitioning, the second reboot, formatting and the firewall, */
  function PartitionLines(c: Cluster): seq<Line> {
    UnmountLines(c) + WorkLines(c.servers) + RebootLines(c.servers) + [To(Plain, c.servers.words)]
    + [To(Clear, c.all.words)] + [To(Plain, c.all.words)] + [To(Plain, c.all.words)]
  }

  /** then the MDS, the OSS nodes and the clients. */
  function DeployLines(c: Cluster): seq<Line> {
    PartitionLines(c) + WorkLines(Table([c.mds], 1)) + [To(Clear, c.servers.words)]
    + WorkLines(c.oss) + [To(Clear, c.oss.words)]
    + WorkLines(c.clients) + [To(Clear, c.clients.words)]
  }

  /** The kernel step of auto_lustre2.8.0_install.sh. */
  function KernelLines(c: Cluster): seq<Line> {
    WorkLines(c.all) + RebootLines(c.all) + [To(Clear, c.all.words)] + WorkLines(c.all) + RebootLines(c.all)
  }

  /** Unless `skip_install_kernel` is set, the kernel step comes before the packages. */
  function InstallLines(c: Cluster, skipKernel: bool): seq<Line> {
    (if skipKernel then [] else KernelLines(c))
    + [To(Work, c.servers.words)] + [To(Work, c.clients.words)] + [Wait(c.all.words, c.all.lines, Execute)]
    + [To(Clear, c.all.words)]
  }

  // ---------- The programs are these lines ----------

  lemma {:induction false} FlattenConcat(a: seq<Line>, b: seq<Line>)
    ensures Flatten(a + b) == Flatten(a) + Flatten(b)
    decreases |b|
  {
    if b == [] {
      assert a + b == a;
    } else {
      FlattenConcat(a, b[..|b| - 1]);
      assert (a + b)[..|a + b| - 1] == a + b[..|b| - 1];
      Assoc(Flatten(a), Flatten(b[..|b| - 1]), Code(b[|b| - 1]));
    }
  }

  lemma FlattenOne(l: Line)
    ensures Flatten([l]) == Code(l)
  {
    assert [l][..0] == [];
    assert Flatten([]) + Code(l) == Code(l);
  }

  lemma AddLine(a: seq<Line>, p: Program, l: Line)
    requires Flatten(a) == p
    ensures Flatten(a + [l]) == p + Code(l)
  {
    FlattenConcat(a, [l]);
    FlattenOne(l);
  }

  lemma FlattenReboot(t: Table)
    ensures Flatten(RebootLines(t)) == Reset(t)
  {
    var l1, l2, l3, l4 := To(Clear, t.words), To(MarkReboot, t.words), To(Restart, t.words), Wait(t.words, t.lines, Reboot);
    FlattenOne(l1);
    AddLine([l1], Code(l1), l2);
    AddLine([l1] + [l2], Code(l1) + Code(l2), l3);
    AddLine([l1] + [l2] + [l3], Code(l1) + Code(l2) + Code(l3), l4);
    assert RebootLines(t) == [l1] + [l2] + [l3] + [l4];
  }

  lemma FlattenWork(t: Table)
    ensures Flatten(WorkLines(t)) == Phase(t)
  {
    var l1, l2 := To(Work, t.words), Wait(t.words, t.lines, Execute);
    FlattenOne(l1);
    AddLine([l1], Code(l1), l2);
    assert WorkLines(t) == [l1] + [l2];
  }

  lemma AddReboot(a: seq<Line>, p: Program, t: Table)
    requires Flatten(a) == p
    ensures Flatten(a + RebootLines(t)) == p + Reset(t)
  {
    FlattenConcat(a, RebootLines(t));
    FlattenReboot(t);
  }

  lemma AddWork(a: seq<Line>, p: Program, t: Table)
    requires Flatten(a) == p
    ensures Flatten(a + WorkLines(t)) == p + Phase(t)
  {
    FlattenConcat(a, WorkLines(t));
    FlattenWork(t);
  }

  lemma UnmountIsLines(c: Cluster)
    ensures Flatten(UnmountLines(c)) == BeforeParted(c)
  {
    var l1, l2 := To(Plain, c.servers.words), To(Plain, c.clients.words);
    FlattenOne(l1);
    AddLine([l1], Code(l1), l2);
    AddLine([l1] + [l2], Code(l1) + Code(l2), l1);
    AddReboot([l1] + [l2] + [l1], Prepare(c), c.all);
  }

  lemma PartitionIsLines(c: Cluster)
    ensures Flatten(PartitionLines(c)) == BeforeMds(c)
  {
    var a1, p1 := UnmountLines(c), BeforeParted(c);
    UnmountIsLines(c);
    AddWork(a1, p1, c.servers);
    var a2, p2 := a1 + WorkLines(c.servers), p1 + Phase(c.servers);
    AddReboot(a2, p2, c.servers);
    FormatIsLines(a2 + RebootLines(c.servers), p2 + Reset(c.servers), c);
  }

  lemma FormatIsLines(a: seq<Line>, p: Program, c: Cluster)
    requires Flatten(a) == p
    ensures Flatten(a + [To(Plain, c.servers.words)] + [To(Clear, c.all.words)] + [To(Plain, c.all.words)]
                    + [To(Plain, c.all.words)])
            == p + Posts(Plain, c.servers.words) + Posts(Clear, c.all.words) + Posts(Plain, c.all.words)
               + Posts(Plain, c.all.words)
  {
    var l1, l2, l3 := To(Plain, c.servers.words), To(Clear, c.all.words), To(Plain, c.all.words);
    AddLine(a, p, l1);
    AddLine(a + [l1], p + Code(l1), l2);
    AddLine(a + [l1] + [l2], p + Code(l1) + Code(l2), l3);
    AddLine(a + [l1] + [l2] + [l3], p + Code(l1) + Code(l2) + Code(l3), l3);
  }

  lemma AddWorkAndClear(a: seq<Line>, p: Program, t: Table, words: seq<Addr>)
    requires Flatten(a) == p
    ensures Flatten(a + WorkLines(t) + [To(Clear, words)]) == p + Phase(t) + Posts(Clear, words)
  {
    AddWork(a, p, t);
    AddLine(a + WorkLines(t), p + Phase(t), To(Clear, words));
  }

  /** The deploy program is the script, line by line. */
  lemma DeployIsLines(c: Cluster)
    ensures Deploy(c) == Flatten(DeployLines(c))
  {
    var a1 := PartitionLines(c);
    var a2 := a1 + WorkLines(Table([c.mds], 1)) + [To(Clear, c.servers.words)];
    var a3 := a2 + WorkLines(c.oss) + [To(Clear, c.oss.words)];
    PartitionIsLines(c);
    AddWorkAndClear(a1, BeforeMds(c), MdsTable(c), c.servers.words);
    AddWorkAndClear(a2, BeforeOss(c), c.oss, c.oss.words);
    AddWorkAndClear(a3, BeforeClients(c), c.clients, c.clients.words);
  }

  lemma KernelIsLines(c: Cluster)
    ensures Flatten(KernelLines(c)) == BeforePackages(c, false)
  {
    var a1 := WorkLines(c.all);
    var a2 := a1 + RebootLines(c.all);
    var a3 := a2 + [To(Clear, c.all.words)];
    FlattenWork(c.all);
    AddReboot(a1, Phase(c.all), c.all);
    AddLine(a2, Phase(c.all) + Reset(c.all), To(Clear, c.all.words));
    AddWork(a3, BeforeKernel(c), c.all);
    AddReboot(a3 + WorkLines(c.all), BeforeKernel(c) + Phase(c.all), c.all);
  }

  /** The install program is the script, line by line; skipping the kernel leaves its four package lines. */
  lemma InstallIsLines(c: Cluster, skipKernel: bool)
    ensures Install(c, skipKernel) == Flatten(InstallLines(c, skipKernel))
  {
    var a, p := if skipKernel then [] else KernelLines(c), BeforePackages(c, skipKernel);
    if !skipKernel {
      KernelIsLines(c);
    }
    var l1, l2 := To(Work, c.servers.words), To(Work, c.clients.words);
    var l3, l4 := Wait(c.all.words, c.all.lines, Execute), To(Clear, c.all.words);
    AddLine(a, p, l1);
    AddLine(a + [l1], p + Code(l1), l2);
    AddLine(a + [l1] + [l2], p + Code(l1) + Code(l2), l3);
    AddLine(a + [l1] + [l2] + [l3], p + Code(l1) + Code(l2) + Code(l3), l4);
  }

  /** Without the kernel step, instruction by instruction: the servers' workers, the clients', one barrier, one
      clear each, and nothing else. */
  lemma InstallWithoutKernel(c: Cluster, k: nat)
    ensures var prog, m, l, a := Install(c, true), |c.servers.words|, |c.clients.words|, |c.all.words|;
            && |prog| == m + l + 1 + a
            && (k < m ==> prog[k] == Post(Work, c.servers.words[k]))
            && (k < l ==> prog[m + k] == Post(Work, c.clients.words[k]))
            && prog[m + l] == Await(c.all.words, c.all.lines, Execute)
            && (k < a ==> prog[m + l + 1 + k] == Post(Clear, c.all.words[k]))
  {
    assert BeforePackages(c, true) == [];
  }

  // ---------- What a node is sent ----------

  /** The commands posted to `n`, in the order of the script. */
  function SentTo(p: Program, n: Addr): seq<Cmd> {
    if p == [] then []
    else
      var i := p[|p| - 1];
      SentTo(p[..|p| - 1], n) + if i.Post? && i.node == n then [i.cmd] else []
  }

  lemma SentAppend(p: Program, i: Instr, n: Addr)
    ensures SentTo(p + [i], n) == SentTo(p, n) + if i.Post? && i.node == n then [i.cmd] else []
  {
    assert (p + [i])[..|p|] == p;
  }

  ghost predicate DistinctWords(words: seq<Addr>) {
    forall i, j :: 0 <= i < j < |words| ==> words[i] != words[j]
  }

  /** A line sends nothing to nodes that are not listed, */
  lemma {:induction false} LineSkips(p: Program, cmd: Cmd, words: seq<Addr>, n: Addr)
    requires n !in words
    ensures SentTo(p + Posts(cmd, words), n) == SentTo(p, n)
    decreases |words|
  {
    if words == [] {
      assert p + Posts(cmd, words) == p;
    } else {
      var front, last := words[..|words| - 1], words[|words| - 1];
      LineSkips(p, cmd, front, n);
      SentAppend(p + Posts(cmd, front), Post(cmd, last), n);
      assert p + Posts(cmd, words) == p + Posts(cmd, front) + [Post(cmd, last)];
    }
  }

  /** and its command once to each listed node. */
  lemma {:induction false} LineSends(p: Program, cmd: Cmd, words: seq<Addr>, n: Addr)
    requires DistinctWords(words) && n in words
    ensures SentTo(p + Posts(cmd, words), n) == SentTo(p, n) + [cmd]
    decreases |words|
  {
    var front, last := words[..|words| - 1], words[|words| - 1];
    SentAppend(p + Posts(cmd, front), Post(cmd, last), n);
    assert p + Posts(cmd, words) == p + Posts(cmd, front) + [Post(cmd, last)];
    if last == n {
      LineSkips(p, cmd, front, n);
    } else {
      LineSends(p, cmd, front, n);
    }
  }

  /** The last three commands clear, mark and restart. */
  ghost predicate EndsInReset(cmds: seq<Cmd>) {
    var m := |cmds|;
    m >= 3 && cmds[m - 3] == Clear && cmds[m - 2] == MarkReboot && cmds[m - 1] == Restart
  }

  /** Whenever the controller waits for REBOOT, each listed node has just been sent a whole reset. */
  ghost predicate RebootsAreReset(p: Program) {
    forall r, n :: 0 <= r < |p| && p[r].Await? && p[r].want == Reboot && n in p[r].words ==> EndsInReset(SentTo(p[..r], n))
  }

  lemma KeepPosts(p: Program, cmd: Cmd, words: seq<Addr>)
    requires RebootsAreReset(p)
    ensures RebootsAreReset(p + Posts(cmd, words))
  {
    var q := p + Posts(cmd, words);
    forall r, n | 0 <= r < |q| && q[r].Await? && q[r].want == Reboot && n in q[r].words
      ensures EndsInReset(SentTo(q[..r], n))
    {
      assert r < |p| && q[r] == p[r] && q[..r] == p[..r];
    }
  }

  lemma KeepBarrier(p: Program, i: Instr)
    requires RebootsAreReset(p) && i.Await?
    requires i.want == Reboot ==> forall n :: n in i.words ==> EndsInReset(SentTo(p, n))
    ensures RebootsAreReset(p + [i])
  {
    var q := p + [i];
    forall r, n | 0 <= r < |q| && q[r].Await? && q[r].want == Reboot && n in q[r].words
      ensures EndsInReset(SentTo(q[..r], n))
    {
      if r < |p| {
        assert q[r] == p[r] && q[..r] == p[..r];
      } else {
        assert q[..r] == p;
      }
    }
  }

  lemma KeepPhase(p: Program, t: Table)
    requires RebootsAreReset(p)
    ensures RebootsAreReset(p + Phase(t))
  {
    KeepPosts(p, Work, t.words);
    KeepBarrier(p + Posts(Work, t.words), Await(t.words, t.lines, Execute));
    Assoc(p, Posts(Work, t.words), Barrier(t, Execute));
  }

  lemma KeepReset(p: Program, t: Table)
    requires RebootsAreReset(p) && DistinctWords(t.words)
    ensures RebootsAreReset(p + Reset(t))
  {
    var clear, mark, restart := Posts(Clear, t.words), Posts(MarkReboot, t.words), Posts(Restart, t.words);
    var q := p + clear + mark + restart;
    KeepPosts(p, Clear, t.words);
    KeepPosts(p + clear, MarkReboot, t.words);
    KeepPosts(p + clear + mark, Restart, t.words);
    forall n | n in t.words
      ensures EndsInReset(SentTo(q, n))
    {
      LineSends(p, Clear, t.words, n);
      LineSends(p + clear, MarkReboot, t.words, n);
      LineSends(p + clear + mark, Restart, t.words, n);
    }
    KeepBarrier(q, Await(t.words, t.lines, Reboot));
    Assoc(p, clear + mark + restart, Barrier(t, Reboot));
    Assoc(p, clear + mark, restart);
    Assoc(p, clear, mark);
  }

  lemma PartitionResets(c: Cluster)
    requires Covered(c)
    ensures RebootsAreReset(BeforeParted(c) + Phase(c.servers) + Reset(c.servers))
  {
    var nothing: Program := [];
    var p1 := Posts(Plain, c.servers.words);
    assert nothing + p1 == p1;
    KeepPosts(nothing, Plain, c.servers.words);
    KeepPosts(p1, Plain, c.clients.words);
    KeepPosts(p1 + Posts(Plain, c.clients.words), Plain, c.servers.words);
    KeepReset(Prepare(c), c.all);
    KeepPhase(BeforeParted(c), c.servers);
    KeepReset(BeforeParted(c) + Phase(c.servers), c.servers);
  }

  lemma FormatResets(c: Cluster)
    requires Covered(c)
    ensures RebootsAreReset(BeforeMds(c))
  {
    var p1 := BeforeParted(c) + Phase(c.servers) + Reset(c.servers);
    var p2 := p1 + Posts(Plain, c.servers.words);
    var p3 := p2 + Posts(Clear, c.all.words);
    PartitionResets(c);
    KeepPosts(p1, Plain, c.servers.words);
    KeepPosts(p2, Clear, c.all.words);
    KeepPosts(p3, Plain, c.all.words);
    KeepPosts(p3 + Posts(Plain, c.all.words), Plain, c.all.words);
  }

  /** Every reboot barrier of the deploy script follows a whole reset of each of its nodes, */
  lemma DeployResets(c: Cluster)
    requires Covered(c)
    ensures RebootsAreReset(Deploy(c))
  {
    FormatResets(c);
    KeepPhase(BeforeMds(c), MdsTable(c));
    KeepPosts(BeforeMds(c) + Phase(MdsTable(c)), Clear, c.servers.words);
    KeepPhase(BeforeOss(c), c.oss);
    KeepPosts(BeforeOss(c) + Phase(c.oss), Clear, c.oss.words);
    KeepPhase(BeforeClients(c), c.clients);
    KeepPosts(BeforeClients(c) + Phase(c.clients), Clear, c.clients.words);
  }

  lemma KernelResets(c: Cluster)
    requires Partitioned(c)
    ensures RebootsAreReset(BeforePackages(c, false))
  {
    var nothing: Program := [];
    assert nothing + Phase(c.all) == Phase(c.all);
    KeepPhase(nothing, c.all);
    KeepReset(Phase(c.all), c.all);
    KeepPosts(Phase(c.all) + Reset(c.all), Clear, c.all.words);
    KeepPhase(BeforeKernel(c), c.all);
    KeepReset(BeforeKernel(c) + Phase(c.all), c.all);
  }

  /** and so does every one of the install script. */
  lemma InstallResets(c: Cluster, skipKernel: bool)
    requires Partitioned(c)
    ensures RebootsAreReset(Install(c, skipKernel))
  {
    var b := BeforePackages(c, skipKernel);
    if !skipKernel {
      KernelResets(c);
    }
    var p1 := b + Posts(Work, c.servers.words);
    var p2 := p1 + Posts(Work, c.clients.words);
    KeepPosts(b, Work, c.servers.words);
    KeepPosts(p1, Work, c.clients.words);
    KeepBarrier(p2, Await(c.all.words, c.all.lines, Execute));
    KeepPosts(p2 + Barrier(c.all, Execute), Clear, c.all.words);
  }

  // ---------- Everything a node is sent by the install script ----------

  lemma PhaseSends(p: Program, t: Table, n: Addr)
    requires DistinctWords(t.words) && n in t.words
    ensures SentTo(p + Phase(t), n) == SentTo(p, n) + [Work]
  {
    LineSends(p, Work, t.words, n);
    SentAppend(p + Posts(Work, t.words), Await(t.words, t.lines, Execute), n);
    Assoc(p, Posts(Work, t.words), Barrier(t, Execute));
  }

  lemma ThreeMore(s: seq<Cmd>)
    ensures s + [Clear] + [MarkReboot] + [Restart] == s + [Clear, MarkReboot, Restart]
  {
  }

  lemma ThreeLinesSend(p: Program, words: seq<Addr>, n: Addr)
    requires DistinctWords(words) && n in words
    ensures SentTo(p + Posts(Clear, words) + Posts(MarkReboot, words) + Posts(Restart, words), n)
            == SentTo(p, n) + [Clear, MarkReboot, Restart]
  {
    LineSends(p, Clear, words, n);
    LineSends(p + Posts(Clear, words), MarkReboot, words, n);
    LineSends(p + Posts(Clear, words) + Posts(MarkReboot, words), Restart, words, n);
    ThreeMore(SentTo(p, n));
  }

  lemma ResetSends(p: Program, t: Table, n: Addr)
    requires DistinctWords(t.words) && n in t.words
    ensures SentTo(p + Reset(t), n) == SentTo(p, n) + [Clear, MarkReboot, Restart]
  {
    var clear, mark, restart := Posts(Clear, t.words), Posts(MarkReboot, t.words), Posts(Restart, t.words);
    ThreeLinesSend(p, t.words, n);
    SentAppend(p + clear + mark + restart, Await(t.words, t.lines, Reboot), n);
    Assoc(p, clear + mark + restart, Barrier(t, Reboot));
    Assoc(p, clear + mark, restart);
    Assoc(p, clear, mark);
  }

  lemma CycleSends(p: Program, t: Table, n: Addr)
    requires DistinctWords(t.words) && n in t.words
    ensures SentTo(p + Phase(t) + Reset(t), n) == SentTo(p, n) + [Work, Clear, MarkReboot, Restart]
  {
    PhaseSends(p, t, n);
    ResetSends(p + Phase(t), t, n);
    assert SentTo(p, n) + [Work] + [Clear, MarkReboot, Restart] == SentTo(p, n) + [Work, Clear, MarkReboot, Restart];
  }

  lemma BeforeKernelSends(t: Table, n: Addr)
    requires DistinctWords(t.words) && n in t.words
    ensures SentTo(Phase(t) + Reset(t) + Posts(Clear, t.words), n) == [Work, Clear, MarkReboot, Restart, Clear]
  {
    var nothing: Program := [];
    assert nothing + Phase(t) == Phase(t);
    CycleSends(nothing, t, n);
    assert SentTo(Phase(t) + Reset(t), n) == [Work, Clear, MarkReboot, Restart];
    LineSends(Phase(t) + Reset(t), Clear, t.words, n);
  }

  lemma KernelSends(c: Cluster, n: Addr)
    requires Partitioned(c) && n in c.all.words
    ensures SentTo(BeforePackages(c, false), n)
            == [Work, Clear, MarkReboot, Restart, Clear] + [Work, Clear, MarkReboot, Restart]
  {
    BeforeKernelSends(c.all, n);
    CycleSends(BeforeKernel(c), c.all, n);
  }

  /** The package worker of a node is posted once, whether it is a server or a client. */
  lemma PackagesSend(b: Program, c: Cluster, n: Addr)
    requires Partitioned(c) && n in c.all.words
    ensures SentTo(b + Posts(Work, c.servers.words) + Posts(Work, c.clients.words), n) == SentTo(b, n) + [Work]
  {
    var p := b + Posts(Work, c.servers.words);
    if n in c.servers.words {
      LineSends(b, Work, c.servers.words, n);
      LineSkips(p, Work, c.clients.words, n);
    } else {
      LineSkips(b, Work, c.servers.words, n);
      LineSends(p, Work, c.clients.words, n);
    }
  }

  lemma PackageStepSends(b: Program, c: Cluster, n: Addr)
    requires Partitioned(c) && n in c.all.words
    ensures SentTo(b + Posts(Work, c.servers.words) + Posts(Work, c.clients.words) + Barrier(c.all, Execute)
                   + Posts(Clear, c.all.words), n)
            == SentTo(b, n) + [Work, Clear]
  {
    var p := b + Posts(Work, c.servers.words) + Posts(Work, c.clients.words);
    PackagesSend(b, c, n);
    SentAppend(p, Await(c.all.words, c.all.lines, Execute), n);
    LineSends(p + Barrier(c.all, Execute), Clear, c.all.words, n);
    assert SentTo(b, n) + [Work] + [Clear] == SentTo(b, n) + [Work, Clear];
  }

  /** With the kernel step a node is worked on three times with one reset in between each; without it, once. */
  lemma InstallSends(c: Cluster, skipKernel: bool, n: Addr)
    requires Partitioned(c) && n in c.all.words
    ensures SentTo(Install(c, skipKernel), n)
            == (if skipKernel then [] else [Work, Clear, MarkReboot, Restart, Clear] + [Work, Clear, MarkReboot, Restart])
               + [Work, Clear]
  {
    PackageStepSends(BeforePackages(c, skipKernel), c, n);
    if !skipKernel {
      KernelSends(c, n);
    }
  }

  // ---------- Everything a node is sent by the deploy script ----------

  /** These commands, if the node is listed. */
  function If(listed: bool, cmds: seq<Cmd>): seq<Cmd> {
    if listed then cmds else []
  }

  lemma LineSent(p: Program, before: seq<Cmd>, cmd: Cmd, words: seq<Addr>, n: Addr)
    requires DistinctWords(words) && SentTo(p, n) == before
    ensures SentTo(p + Posts(cmd, words), n) == before + If(n in words, [cmd])
  {
    if n in words {
      LineSends(p, cmd, words, n);
    } else {
      LineSkips(p, cmd, words, n);
    }
  }

  lemma PhaseSent(p: Program, before: seq<Cmd>, t: Table, n: Addr)
    requires DistinctWords(t.words) && SentTo(p, n) == before
    ensures SentTo(p + Phase(t), n) == before + If(n in t.words, [Work])
  {
    LineSent(p, before, Work, t.words, n);
    SentAppend(p + Posts(Work, t.words), Await(t.words, t.lines, Execute), n);
    Assoc(p, Posts(Work, t.words), Barrier(t, Execute));
  }

  lemma ResetSkips(p: Program, t: Table, n: Addr)
    requires n !in t.words
    ensures SentTo(p + Reset(t), n) == SentTo(p, n)
  {
    var clear, mark, restart := Posts(Clear, t.words), Posts(MarkReboot, t.words), Posts(Restart, t.words);
    LineSkips(p, Clear, t.words, n);
    LineSkips(p + clear, MarkReboot, t.words, n);
    LineSkips(p + clear + mark, Restart, t.words, n);
    SentAppend(p + clear + mark + restart, Await(t.words, t.lines, Reboot), n);
    Assoc(p, clear + mark + restart, Barrier(t, Reboot));
    Assoc(p, clear + mark, restart);
    Assoc(p, clear, mark);
  }

  lemma ResetSent(p: Program, before: seq<Cmd>, t: Table, n: Addr)
    requires DistinctWords(t.words) && SentTo(p, n) == before
    ensures SentTo(p + Reset(t), n) == before + If(n in t.words, [Clear, MarkReboot, Restart])
  {
    if n in t.words {
      ResetSends(p, t, n);
    } else {
      ResetSkips(p, t, n);
    }
  }

  function UnmountSends(c: Cluster, n: Addr): seq<Cmd> {
    If(n in c.servers.words, [Plain]) + If(n in c.clients.words, [Plain]) + If(n in c.servers.words, [Plain])
    + If(n in c.all.words, [Clear, MarkReboot, Restart])
  }

  function PartitionSends(c: Cluster, n: Addr): seq<Cmd> {
    UnmountSends(c, n)
    + If(n in c.servers.words, [Work]) + If(n in c.servers.words, [Clear, MarkReboot, Restart])
    + If(n in c.servers.words, [Plain])
    + If(n in c.all.words, [Clear]) + If(n in c.all.words, [Plain]) + If(n in c.all.words, [Plain])
  }

  /** What a node is sent, by the tables it is listed in. */
  function DeploySends(c: Cluster, n: Addr): seq<Cmd> {
    PartitionSends(c, n)
    + If(n == c.mds, [Work]) + If(n in c.servers.words, [Clear])
    + If(n in c.oss.words, [Work]) + If(n in c.oss.words, [Clear])
    + If(n in c.clients.words, [Work]) + If(n in c.clients.words, [Clear])
  }

  lemma UnmountIsSent(c: Cluster, n: Addr)
    requires Covered(c)
    ensures SentTo(BeforeParted(c), n) == UnmountSends(c, n)
  {
    var nothing: Program, none: seq<Cmd> := [], [];
    var p1, s1 := Posts(Plain, c.servers.words), If(n in c.servers.words, [Plain]);
    assert nothing + p1 == p1 && none + s1 == s1;
    LineSent(nothing, none, Plain, c.servers.words, n);
    var p2, s2 := p1 + Posts(Plain, c.clients.words), s1 + If(n in c.clients.words, [Plain]);
    LineSent(p1, s1, Plain, c.clients.words, n);
    LineSent(p2, s2, Plain, c.servers.words, n);
    ResetSent(Prepare(c), s2 + If(n in c.servers.words, [Plain]), c.all, n);
  }

  lemma PartitionIsSent(c: Cluster, n: Addr)
    requires Covered(c)
    ensures SentTo(BeforeMds(c), n) == PartitionSends(c, n)
  {
    var p1, s1 := BeforeParted(c), UnmountSends(c, n);
    UnmountIsSent(c, n);
    var p2, s2 := p1 + Phase(c.servers), s1 + If(n in c.servers.words, [Work]);
    PhaseSent(p1, s1, c.servers, n);
    var p3, s3 := p2 + Reset(c.servers), s2 + If(n in c.servers.words, [Clear, MarkReboot, Restart]);
    ResetSent(p2, s2, c.servers, n);
    FormatIsSent(p3, s3, c, n);
  }

  lemma FormatIsSent(p: Program, s: seq<Cmd>, c: Cluster, n: Addr)
    requires Covered(c) && SentTo(p, n) == s
    ensures SentTo(p + Posts(Plain, c.servers.words) + Posts(Clear, c.all.words) + Posts(Plain, c.all.words)
                   + Posts(Plain, c.all.words), n)
            == s + If(n in c.servers.words, [Plain])
               + If(n in c.all.words, [Clear]) + If(n in c.all.words, [Plain]) + If(n in c.all.words, [Plain])
  {
    var p1, s1 := p + Posts(Plain, c.servers.words), s + If(n in c.servers.words, [Plain]);
    LineSent(p, s, Plain, c.servers.words, n);
    var p2, s2 := p1 + Posts(Clear, c.all.words), s1 + If(n in c.all.words, [Clear]);
    LineSent(p1, s1, Clear, c.all.words, n);
    LineSent(p2, s2, Plain, c.all.words, n);
    LineSent(p2 + Posts(Plain, c.all.words), s2 + If(n in c.all.words, [Plain]), Plain, c.all.words, n);
  }

  lemma WorkAndClearSent(p: Program, s: seq<Cmd>, t: Table, words: seq<Addr>, n: Addr)
    requires DistinctWords(t.words) && DistinctWords(words) && SentTo(p, n) == s
    ensures SentTo(p + Phase(t) + Posts(Clear, words), n) == s + If(n in t.words, [Work]) + If(n in words, [Clear])
  {
    PhaseSent(p, s, t, n);
    LineSent(p + Phase(t), s + If(n in t.words, [Work]), Clear, words, n);
  }

  /** Between partitioning and what follows, a server gets exactly one reset; and so on, for every node. */
  lemma DeployIsSent(c: Cluster, n: Addr)
    requires Covered(c)
    ensures SentTo(Deploy(c), n) == DeploySends(c, n)
  {
    var s1 := PartitionSends(c, n);
    var s2 := s1 + If(n == c.mds, [Work]) + If(n in c.servers.words, [Clear]);
    var s3 := s2 + If(n in c.oss.words, [Work]) + If(n in c.oss.words, [Clear]);
    PartitionIsSent(c, n);
    assert n in MdsTable(c).words <==> n == c.mds;
    WorkAndClearSent(BeforeMds(c), s1, MdsTable(c), c.servers.words, n);
    WorkAndClearSent(BeforeOss(c), s2, c.oss, c.oss.words, n);
    WorkAndClearSent(BeforeClients(c), s3, c.clients, c.clients.words, n);
  }
}
