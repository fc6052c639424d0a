/** The polling loops of multexu_lib.sh: when they exit, and how long they sleep. */
module Barrier {
  import opened Arithmetic
  import opened Shell
  import opened SignalProtocol

  // ---------- Node tables ----------

  /** `wc -l`. */
  function Newlines(s: string): nat {
    if s == "" then 0 else (if s[0] == '\n' then 1 else 0) + Newlines(s[1..])
  }

  lemma {:induction false} NewlinesAreCounted(s: string)
    ensures Newlines(s) == multiset(s)['\n']
  {
    if s != "" {
      NewlinesAreCounted(s[1..]);
      assert s == [s[0]] + s[1..];
    }
  }

  lemma {:induction false} NewlinesOfConcat(s: string, t: string)
    ensures Newlines(s + t) == Newlines(s) + Newlines(t)
    decreases |s|
  {
    if s == "" {
      assert s + t == t;
    } else {
      assert (s + t)[1..] == s[1..] + t;
      NewlinesOfConcat(s[1..], t);
    }
  }

  lemma {:induction false} WordHasNoNewline(w: string)
    requires SpaceFree(w)
    ensures Newlines(w) == 0
  {
    if w != "" {
      WordHasNoNewline(w[1..]);
    }
  }

  /** One address a line, the last line left open. */
  lemma {:induction false} OpenTable(ws: seq<string>)
    requires AllWords(ws) && ws != []
    ensures Words(Join(ws, "\n")) == ws
    ensures Newlines(Join(ws, "\n")) == |ws| - 1
    decreases |ws|
  {
    WordsOfJoin(ws, '\n');
    WordHasNoNewline(ws[0]);
    if |ws| > 1 {
      OpenTable(ws[1..]);
      NewlinesOfConcat(ws[0] + "\n", Join(ws[1..], "\n"));
      NewlinesOfConcat(ws[0], "\n");
    }
  }

  /** One address a line, every line ended: the words are the addresses and the line count is their number. */
  lemma ClosedTable(ws: seq<string>)
    requires AllWords(ws) && ws != []
    ensures Words(Join(ws, "\n") + "\n") == ws
    ensures Newlines(Join(ws, "\n") + "\n") == |ws|
  {
    OpenTable(ws);
    NewlinesOfConcat(Join(ws, "\n"), "\n");
    TrailingSpace("", Join(ws, "\n"));
  }

  lemma {:induction false} TrailingSpace(current: string, s: string)
    ensures WordsFrom(current, s + "\n") == WordsFrom(current, s)
    decreases |s|
  {
    if s == "" {
      assert s + "\n" == "\n" && "\n"[1..] == "";
    } else {
      assert (s + "\n")[0] == s[0] && (s + "\n")[1..] == s[1..] + "\n";
      TrailingSpace("", s[1..]);
      TrailingSpace(current + [s[0]], s[1..]);
    }
  }

  // ---------- One pass ----------

  /** How many of the files read in a pass hold the wanted status. */
  function Matches(seen: seq<Signal>, want: Signal): (c: nat)
    ensures c <= |seen|
  {
    if seen == [] then 0
    else Matches(seen[..|seen| - 1], want) + if seen[|seen| - 1] == want then 1 else 0
  }

  ghost predicate AllMatch(seen: seq<Signal>, want: Signal) {
    forall i :: 0 <= i < |seen| ==> seen[i] == want
  }

  lemma {:induction false} MatchesAll(seen: seq<Signal>, want: Signal)
    ensures Matches(seen, want) == |seen| <==> AllMatch(seen, want)
  {
    if seen != [] {
      var front, last := seen[..|seen| - 1], seen[|seen| - 1];
      MatchesAll(front, want);
      assert seen == front + [last];
      assert AllMatch(seen, want) <==> AllMatch(front, want) && last == want;
    }
  }

  /** The count is the number of reads that show the wanted status, wherever they are in the table. */
  lemma {:induction false} MatchesAreCounted(seen: seq<Signal>, want: Signal)
    ensures Matches(seen, want) == multiset(seen)[want]
  {
    if seen != [] {
      MatchesAreCounted(seen[..|seen| - 1], want);
      assert seen == seen[..|seen| - 1] + [seen[|seen| - 1]];
    }
  }

  ghost predicate OnlyMismatch(seen: seq<Signal>, want: Signal, i: nat) {
    i < |seen| && seen[i] != want && forall j :: 0 <= j < |seen| && j != i ==> seen[j] == want
  }

  lemma {:induction false} OneMissing(seen: seq<Signal>, want: Signal) returns (i: nat)
    requires Matches(seen, want) == |seen| - 1
    ensures OnlyMismatch(seen, want, i)
  {
    var front, last := seen[..|seen| - 1], seen[|seen| - 1];
    MatchesAll(front, want);
    if last == want {
      i := OneMissing(front, want);
    } else {
      i := |front|;
    }
  }

  /** A pass over `n` nodes exits exactly when every node was ready, whatever was read, iff the table has `n` lines. */
  lemma ExitIsExactIff(lines: nat, n: nat, want: Signal)
    ensures (forall seen: seq<Signal> | |seen| == n :: Matches(seen, want) == lines <==> AllMatch(seen, want))
            <==> lines == n
  {
    if lines == n {
      forall seen: seq<Signal> | |seen| == n
        ensures Matches(seen, want) == lines <==> AllMatch(seen, want)
      {
        MatchesAll(seen, want);
      }
    } else {
      var ready := seq(n, _ => want);
      MatchesAll(ready, want);
      assert AllMatch(ready, want) && Matches(ready, want) == n;
    }
  }

  /** Without the final newline the loop exits while a node is not ready, and spins once all are. */
  lemma OpenTableExitsEarly(ws: seq<string>, seen: seq<Signal>, want: Signal)
    requires AllWords(ws) && ws != [] && |seen| == |ws|
    requires Matches(seen, want) == Newlines(Join(ws, "\n"))
    ensures Matches(seen, want) == |ws| - 1 && exists i :: OnlyMismatch(seen, want, i)
  {
    OpenTable(ws);
    var i := OneMissing(seen, want);
  }

  // ---------- Sleeping ----------

  /** `if [ $sleeptime -gt $limit ]; then let sleeptime/=2; fi` */
  function NextSleep(sleep: nat, limit: nat): nat {
    if sleep > limit then sleep / 2 else sleep
  }

  /** The length of the k-th sleep. */
  function SleepAt(first: nat, limit: nat, k: nat): nat {
    if k == 0 then first else NextSleep(SleepAt(first, limit, k - 1), limit)
  }

  /** The time of the k-th poll: the sum of the sleeps before it. */
  function PollTime(first: nat, limit: nat, k: nat): nat {
    if k == 0 then 0 else PollTime(first, limit, k - 1) + SleepAt(first, limit, k - 1)
  }

  function Floor(first: nat, limit: nat): nat {
    if first < (limit + 1) / 2 then first else (limit + 1) / 2
  }

  ghost function Pow2(h: nat): (p: nat)
    ensures p >= 1
  {
    if h == 0 then 1 else 2 * Pow2(h - 1)
  }

  /** `h` halvings, and no fewer, bring the sleep down to the limit. */
  ghost predicate Halvings(first: nat, limit: nat, h: nat) {
    first / Pow2(h) <= limit && forall g: nat :: g < h ==> first / Pow2(g) > limit
  }

  lemma HalfOfQuotient(x: nat, d: nat)
    requires d > 0
    ensures x / (2 * d) == x / d / 2
  {
    QuotientOfMultiple(x, d, 2);
  }

  /** The sleep halves until it is at most the limit and stays there: the k-th one is first / 2^min(k, h). */
  lemma {:induction false} SleepHalves(first: nat, limit: nat, h: nat, k: nat)
    requires Halvings(first, limit, h)
    ensures SleepAt(first, limit, k) == first / Pow2(if k < h then k else h)
  {
    if k > 0 {
      SleepHalves(first, limit, h, k - 1);
      if k <= h {
        HalfOfQuotient(first, Pow2(k - 1));
      }
    }
  }

  /** Such a number of halvings exists, for every first sleep and limit. */
  lemma {:induction false} HalvingsExist(first: nat, limit: nat, g: nat) returns (h: nat)
    requires forall f: nat :: f < g ==> first / Pow2(f) > limit
    ensures Halvings(first, limit, h)
    decreases first / Pow2(g)
  {
    if first / Pow2(g) <= limit {
      h := g;
    } else {
      HalfOfQuotient(first, Pow2(g));
      h := HalvingsExist(first, limit, g + 1);
    }
  }

  /** Polls are apart by exactly those sleeps, the first one at time zero. */
  lemma PollsAreSleepsApart(first: nat, limit: nat, h: nat, k: nat)
    requires Halvings(first, limit, h)
    ensures PollTime(first, limit, 0) == 0
    ensures PollTime(first, limit, k + 1) == PollTime(first, limit, k) + first / Pow2(if k < h then k else h)
  {
    SleepHalves(first, limit, h, k);
  }

  lemma {:induction false} SleepBounds(first: nat, limit: nat, k: nat)
    ensures Floor(first, limit) <= SleepAt(first, limit, k) <= first
    ensures SleepAt(first, limit, k + 1) <= SleepAt(first, limit, k)
  {
    if k > 0 {
      SleepBounds(first, limit, k - 1);
    }
  }

  /** A long sleep is paid for by its halving, a short one by the limit. */
  lemma {:induction false} PollTimeBound(first: nat, limit: nat, k: nat)
    ensures PollTime(first, limit, k) + 2 * SleepAt(first, limit, k) <= 2 * first + k * limit
  {
    if k > 0 {
      PollTimeBound(first, limit, k - 1);
      assert k * limit == (k - 1) * limit + limit;
    }
  }

  lemma {:induction false} PollTimeAtLeast(first: nat, limit: nat, k: nat)
    ensures k * Floor(first, limit) <= PollTime(first, limit, k)
  {
    if k > 0 {
      var m := Floor(first, limit);
      PollTimeAtLeast(first, limit, k - 1);
      SleepBounds(first, limit, k - 1);
      assert k * m == (k - 1) * m + m;
    }
  }

  /**
    A loop whose last but one poll came before `end` stops within one sleep of `end`, and the number of its
    polls is at most end / Floor + 2.
   */
  lemma WaitBound(first: nat, limit: nat, polls: nat, end: nat)
    requires first >= 1 && limit >= 1 && polls >= 2 && PollTime(first, limit, polls - 2) < end
    ensures PollTime(first, limit, polls - 1) < end + SleepAt(first, limit, polls - 2)
    ensures Floor(first, limit) >= 1 && polls <= end / Floor(first, limit) + 2
  {
    PollTimeAtLeast(first, limit, polls - 2);
    QuotientAtLeast(polls - 2, Floor(first, limit), end);
  }

  // ---------- The loops ----------

  /**
    `local_check_status`, and `ssh_check_singlenode_status` with a remote file. `file(t)` is what a read at
    second `t` returns; from `end` on it is the wanted status. The loop stops at the first poll that sees it.
   */
  method CheckStatus(file: nat -> Signal, want: Signal, sleeptime: nat, limit: nat, ghost end: nat)
      returns (now: nat, polls: nat)
    requires sleeptime >= 1 && limit >= 1 && forall t: nat :: end <= t ==> file(t) == want
    ensures polls >= 1 && now == PollTime(sleeptime, limit, polls - 1) && file(now) == want
    ensures forall k :: 0 <= k < polls - 1 ==> file(PollTime(sleeptime, limit, k)) != want
    ensures polls >= 2 ==> PollTime(sleeptime, limit, polls - 2) < end
  {
    var sleep := sleeptime;
    now, polls := 0, 1;
    while file(now) != want
      invariant polls >= 1 && now == PollTime(sleeptime, limit, polls - 1)
      invariant sleep == SleepAt(sleeptime, limit, polls - 1) && sleep >= 1
      invariant forall k :: 0 <= k < polls - 1 ==> file(PollTime(sleeptime, limit, k)) != want
      decreases end - now
    {
      SleepBounds(sleeptime, limit, polls);
      now := now + sleep;
      if sleep > limit {
        sleep := sleep / 2;
      }
      polls := polls + 1;
    }
  }

  /** What one pass reads: the files of the table's nodes, in order. */
  ghost function PassAt(file: (nat, nat) -> Signal, n: nat, t: nat): seq<Signal> {
    seq(n, i requires 0 <= i < n => file(t, i))
  }

  /** The count that a pass over the first `n` nodes at second `t` arrives at. */
  ghost function PassCount(file: (nat, nat) -> Signal, n: nat, t: nat, want: Signal): nat {
    Matches(PassAt(file, n, t), want)
  }

  /** The `for host_ip` loop of one pass. */
  method CountPass(file: (nat, nat) -> Signal, n: nat, now: nat, want: Signal) returns (count: nat)
    ensures count == PassCount(file, n, now, want)
    ensures count == n <==> forall i :: 0 <= i < n ==> file(now, i) == want
  {
    ghost var pass := PassAt(file, n, now);
    count := 0;
    for i := 0 to n
      invariant count == Matches(pass[..i], want)
    {
      assert pass[..i + 1][..i] == pass[..i];
      if file(now, i) == want {
        count := count + 1;
      }
    }
    assert pass[..n] == pass;
    MatchesAll(pass, want);
    assert forall i :: 0 <= i < n ==> pass[i] == file(now, i);
  }

  /** The loop of `ssh_check_cluster_status` over `n` nodes and a table of `lines` lines. */
  method PollCluster(n: nat, lines: nat, file: (nat, nat) -> Signal, want: Signal, sleeptime: nat, limit: nat,
                     ghost end: nat)
      returns (now: nat, polls: nat)
    requires sleeptime >= 1 && limit >= 1
    requires forall t: nat :: end <= t ==> PassCount(file, n, t, want) == lines
    ensures polls >= 1 && now == PollTime(sleeptime, limit, polls - 1)
    ensures PassCount(file, n, now, want) == lines
    ensures forall k :: 0 <= k < polls - 1 ==> PassCount(file, n, PollTime(sleeptime, limit, k), want) != lines
    ensures lines == n ==> forall i :: 0 <= i < n ==> file(now, i) == want
    ensures polls >= 2 ==> PollTime(sleeptime, limit, polls - 2) < end
  {
    var sleep := sleeptime;
    now, polls := 0, 1;
    while true
      invariant polls >= 1 && now == PollTime(sleeptime, limit, polls - 1)
      invariant sleep == SleepAt(sleeptime, limit, polls - 1) && sleep >= 1
      invariant forall k :: 0 <= k < polls - 1 ==> PassCount(file, n, PollTime(sleeptime, limit, k), want) != lines
      decreases end - now
    {
      var count := CountPass(file, n, now, want);
      if count == lines {
        break;
      }
      SleepBounds(sleeptime, limit, polls);
      now := now + sleep;
      if sleep > limit {
        sleep := sleep / 2;
      }
      polls := polls + 1;
    }
  }

  /**
    `ssh_check_cluster_status`: `file(t, i)` is what reading the i-th node returns in the pass at second `t`.
    The loop stops at the first pass whose count equals the number of lines in the table.
   */
  method CheckClusterStatus(table: string, file: (nat, nat) -> Signal, want: Signal, sleeptime: nat, limit: nat,
                            ghost end: nat)
      returns (now: nat, polls: nat)
    requires sleeptime >= 1 && limit >= 1
    requires forall t: nat :: end <= t ==> PassCount(file, |Words(table)|, t, want) == Newlines(table)
    ensures polls >= 1 && now == PollTime(sleeptime, limit, polls - 1)
    ensures PassCount(file, |Words(table)|, now, want) == Newlines(table)
    ensures forall k :: 0 <= k < polls - 1 ==>
              PassCount(file, |Words(table)|, PollTime(sleeptime, limit, k), want) != Newlines(table)
    ensures Newlines(table) == |Words(table)| ==> forall i :: 0 <= i < |Words(table)| ==> file(now, i) == want
    ensures polls >= 2 ==> PollTime(sleeptime, limit, polls - 2) < end
  {
    now, polls := PollCluster(|Words(table)|, Newlines(table), file, want, sleeptime, limit, end);
  }
}
