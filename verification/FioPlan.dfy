/** The fio test plan: which tests the nested loops run, when they stop, and where the results go. */
module FioPlan {
  import opened Decimal
  import Addresses

  datatype Test = Test(policy: string, pattern: string, size: nat)

  // ---------- Block sizes ----------

  function Power(step: nat, i: nat): nat {
    if i == 0 then 1 else step * Power(step, i - 1)
  }

  /** `for ((b = start; b <= end; b *= step))` */
  function Sizes(start: nat, end: nat, step: nat): seq<nat>
    requires start >= 1 && step >= 2
    decreases end + 1 - start
  {
    if start > end then [] else [start] + Sizes(start * step, end, step)
  }

  lemma ScaledPower(start: nat, step: nat, i: nat)
    requires step >= 2 && i >= 1
    ensures (start * step) * Power(step, i - 1) == start * Power(step, i)
    ensures start * Power(step, i) >= start
  {
    var p := Power(step, i - 1);
    PowerIsPositive(step, i - 1);
    assert (start * step) * p == start * (step * p);
    assert start * (step * p - 1) >= 0;
  }

  /** The i-th size is start * step^i; the sizes are all of these up to `end`, and the next one is beyond it. */
  lemma {:induction false} SizesAreThePowers(start: nat, end: nat, step: nat, i: nat)
    requires start >= 1 && step >= 2
    ensures i < |Sizes(start, end, step)| <==> start * Power(step, i) <= end
    ensures i < |Sizes(start, end, step)| ==> Sizes(start, end, step)[i] == start * Power(step, i)
    decreases i
  {
    if i > 0 {
      ScaledPower(start, step, i);
      SizesAreThePowers(start * step, end, step, i - 1);
    }
  }

  lemma {:induction false} PowerIsPositive(step: nat, i: nat)
    requires step >= 2
    ensures Power(step, i) >= 1
  {
    if i > 0 {
      PowerIsPositive(step, i - 1);
    }
  }

  lemma {:induction false} SizesIncrease(start: nat, end: nat, step: nat)
    requires start >= 1 && step >= 2
    ensures forall i :: 0 <= i < |Sizes(start, end, step)| ==> Sizes(start, end, step)[i] >= start
    ensures forall i, j :: 0 <= i < j < |Sizes(start, end, step)| ==> Sizes(start, end, step)[i] < Sizes(start, end, step)[j]
    decreases end + 1 - start
  {
    if start <= end {
      assert start * step > start;
      SizesIncrease(start * step, end, step);
    }
  }

  // ---------- The plan ----------

  function OfPattern(policy: string, pattern: string, sizes: seq<nat>): (p: seq<Test>)
    ensures |p| == |sizes| && forall i :: 0 <= i < |p| ==> p[i] == Test(policy, pattern, sizes[i])
  {
    seq(|sizes|, i requires 0 <= i < |sizes| => Test(policy, pattern, sizes[i]))
  }

  function OfPolicy(policy: string, patterns: seq<string>, sizes: seq<nat>): seq<Test> {
    if patterns == [] then []
    else OfPolicy(policy, patterns[..|patterns| - 1], sizes) + OfPattern(policy, patterns[|patterns| - 1], sizes)
  }

  function Plan(policies: seq<string>, patterns: seq<string>, sizes: seq<nat>): seq<Test> {
    if policies == [] then []
    else Plan(policies[..|policies| - 1], patterns, sizes) + OfPolicy(policies[|policies| - 1], patterns, sizes)
  }

  /** `t` is the test at position `at`. */
  predicate IsAt(plan: seq<Test>, at: nat, t: Test) {
    at < |plan| && plan[at] == t
  }

  lemma NextBlock(m: nat, block: nat)
    ensures (m + 1) * block == m * block + block
  {
  }

  lemma {:induction false} OfPolicyAt(policy: string, patterns: seq<string>, sizes: seq<nat>, j: nat, k: nat)
    ensures |OfPolicy(policy, patterns, sizes)| == |patterns| * |sizes|
    ensures j < |patterns| && k < |sizes| ==>
              IsAt(OfPolicy(policy, patterns, sizes), j * |sizes| + k, Test(policy, patterns[j], sizes[k]))
    decreases |patterns|
  {
    if patterns != [] {
      var front, m := patterns[..|patterns| - 1], |patterns| - 1;
      OfPolicyAt(policy, front, sizes, j, k);
      NextBlock(m, |sizes|);
      if j < m {
        assert front[j] == patterns[j];
      }
    }
  }

  /** The plan is the product of policies, patterns and sizes, policy by policy and pattern by pattern. */
  lemma {:induction false} PlanIsProduct(policies: seq<string>, patterns: seq<string>, sizes: seq<nat>, i: nat, j: nat, k: nat)
    ensures |Plan(policies, patterns, sizes)| == |policies| * (|patterns| * |sizes|)
    ensures i < |policies| && j < |patterns| && k < |sizes| ==>
              IsAt(Plan(policies, patterns, sizes), i * (|patterns| * |sizes|) + (j * |sizes| + k),
                   Test(policies[i], patterns[j], sizes[k]))
    decreases |policies|
  {
    if policies != [] {
      PlanIsProduct(policies[..|policies| - 1], patterns, sizes, i, j, k);
      OfPolicyAt(policies[|policies| - 1], patterns, sizes, j, k);
      PlanStep(policies, patterns, sizes, |patterns| * |sizes|, i, j * |sizes| + k, j, k);
    }
  }

  lemma PlanStep(policies: seq<string>, patterns: seq<string>, sizes: seq<nat>, block: nat, i: nat, x: nat, j: nat, k: nat)
    requires policies != []
    requires var m := |policies| - 1;
             && |Plan(policies[..m], patterns, sizes)| == m * block
             && |OfPolicy(policies[m], patterns, sizes)| == block
             && (i < m && j < |patterns| && k < |sizes| ==>
                   IsAt(Plan(policies[..m], patterns, sizes), i * block + x, Test(policies[..m][i], patterns[j], sizes[k])))
             && (j < |patterns| && k < |sizes| ==>
                   IsAt(OfPolicy(policies[m], patterns, sizes), x, Test(policies[m], patterns[j], sizes[k])))
    ensures |Plan(policies, patterns, sizes)| == |policies| * block
    ensures i < |policies| && j < |patterns| && k < |sizes| ==>
              IsAt(Plan(policies, patterns, sizes), i * block + x, Test(policies[i], patterns[j], sizes[k]))
  {
    NextBlock(|policies| - 1, block);
  }

  lemma {:induction false} OfPolicyPrefix(policy: string, patterns: seq<string>, sizes: seq<nat>, j: nat)
    requires j <= |patterns|
    ensures OfPolicy(policy, patterns[..j], sizes) <= OfPolicy(policy, patterns, sizes)
    ensures j < |patterns| ==>
              OfPolicy(policy, patterns[..j], sizes) + OfPattern(policy, patterns[j], sizes)
              <= OfPolicy(policy, patterns, sizes)
    decreases |patterns|
  {
    if j == |patterns| {
      assert patterns[..j] == patterns;
    } else {
      var front := patterns[..|patterns| - 1];
      assert front[..j] == patterns[..j];
      if j < |front| {
        assert front[j] == patterns[j];
      }
      OfPolicyPrefix(policy, front, sizes, j);
    }
  }

  lemma {:induction false} PlanPrefix(policies: seq<string>, patterns: seq<string>, sizes: seq<nat>, i: nat)
    requires i <= |policies|
    ensures Plan(policies[..i], patterns, sizes) <= Plan(policies, patterns, sizes)
    ensures i < |policies| ==>
              Plan(policies[..i], patterns, sizes) + OfPolicy(policies[i], patterns, sizes)
              <= Plan(policies, patterns, sizes)
    decreases |policies|
  {
    if i == |policies| {
      assert policies[..i] == policies;
    } else {
      var front := policies[..|policies| - 1];
      assert front[..i] == policies[..i];
      if i < |front| {
        assert front[i] == policies[i];
      }
      PlanPrefix(front, patterns, sizes, i);
    }
  }

  /** The innermost loop; `stop(k)` tells whether the control file says EXIT before the k-th test. */
  method RunSizes(policy: string, pattern: string, start: nat, end: nat, step: nat, stop: nat -> bool, before: seq<Test>)
      returns (done: seq<Test>, exited: bool)
    requires start >= 1 && step >= 2
    requires forall k :: 0 <= k < |before| ==> !stop(k)
    ensures |before| <= |done| && before <= done <= before + OfPattern(policy, pattern, Sizes(start, end, step))
    ensures forall k :: 0 <= k < |done| ==> !stop(k)
    ensures exited <==> |done| < |before| + |Sizes(start, end, step)|
    ensures exited ==> stop(|done|)
  {
    ghost var sizes, n := Sizes(start, end, step), 0;
    var size := start;
    done := before;
    while size <= end
      invariant size >= 1 && 0 <= n <= |sizes| && sizes[n..] == Sizes(size, end, step)
      invariant done == before + OfPattern(policy, pattern, sizes[..n])
      invariant forall k :: 0 <= k < |done| ==> !stop(k)
      decreases end + 1 - size
    {
      if stop(|done|) {
        return done, true;
      }
      done := done + [Test(policy, pattern, size)];
      assert sizes[n] == size && sizes[n + 1..] == sizes[n..][1..];
      assert OfPattern(policy, pattern, sizes[..n + 1])
          == OfPattern(policy, pattern, sizes[..n]) + [Test(policy, pattern, size)];
      n := n + 1;
      size := size * step;
    }
    assert sizes[..n] == sizes;
    exited := false;
  }

  /** The loop over the I/O patterns of one policy. */
  method RunPatterns(policy: string, patterns: seq<string>, start: nat, end: nat, step: nat, stop: nat -> bool,
                     before: seq<Test>)
      returns (done: seq<Test>, exited: bool)
    requires start >= 1 && step >= 2
    requires forall k :: 0 <= k < |before| ==> !stop(k)
    ensures before <= done <= before + OfPolicy(policy, patterns, Sizes(start, end, step))
    ensures forall k :: 0 <= k < |done| ==> !stop(k)
    ensures exited <==> |done| < |before| + |OfPolicy(policy, patterns, Sizes(start, end, step))|
    ensures exited ==> stop(|done|)
  {
    ghost var sizes := Sizes(start, end, step);
    done, exited := before, false;
    for j := 0 to |patterns|
      invariant done == before + OfPolicy(policy, patterns[..j], sizes)
      invariant forall k :: 0 <= k < |done| ==> !stop(k)
    {
      ghost var head, block := OfPolicy(policy, patterns[..j], sizes), OfPattern(policy, patterns[j], sizes);
      OfPolicyPrefix(policy, patterns, sizes, j);
      assert done + block == before + (head + block);
      done, exited := RunSizes(policy, patterns[j], start, end, step, stop, done);
      if exited {
        return;
      }
      assert patterns[..j + 1][..j] == patterns[..j];
      assert OfPolicy(policy, patterns[..j + 1], sizes) == head + block;
    }
    assert patterns[..|patterns|] == patterns;
  }

  /** The three nested loops: exactly the plan, or its part before the first EXIT. */
  method RunTests(policies: seq<string>, patterns: seq<string>, start: nat, end: nat, step: nat, stop: nat -> bool)
      returns (done: seq<Test>)
    requires start >= 1 && step >= 2 && end * step < 0x8000_0000_0000_0000
    ensures done <= Plan(policies, patterns, Sizes(start, end, step))
    ensures forall k :: 0 <= k < |done| ==> !stop(k)
    ensures |done| < |Plan(policies, patterns, Sizes(start, end, step))| ==> stop(|done|)
  {
    ghost var sizes := Sizes(start, end, step);
    done := [];
    for i := 0 to |policies|
      invariant done == Plan(policies[..i], patterns, sizes)
      invariant forall k :: 0 <= k < |done| ==> !stop(k)
    {
      ghost var head, block := done, OfPolicy(policies[i], patterns, sizes);
      PlanPrefix(policies, patterns, sizes, i);
      var exited;
      done, exited := RunPatterns(policies[i], patterns, start, end, step, stop, done);
      if exited {
        assert done <= head + block;
        return;
      }
      assert policies[..i + 1][..i] == policies[..i];
      assert Plan(policies[..i + 1], patterns, sizes) == head + block;
    }
    assert policies[..|policies|] == policies;
  }

  // ---------- Result files ----------

  function ResultPath(dir: string, t: Test): string {
    dir + "/" + t.pattern + "/" + (t.pattern + "-" + t.policy + "-" + Print(t.size) + "-k.txt")
  }

  function FileName(t: Test): string {
    t.pattern + "-" + t.policy + "-" + Print(t.size) + "-k.txt"
  }

  /** Cut at the dashes, a file name reads: pattern, policy, size in decimal, and the unit. */
  lemma FileNameReads(t: Test)
    ensures Addresses.Split(FileName(t), '-')
            == Addresses.Split(t.pattern, '-') + Addresses.Split(t.policy, '-') + [Print(t.size)] + ["k.txt"]
  {
    var p, q, n, k := t.pattern, t.policy, Print(t.size), "k.txt";
    assert FileName(t) == (((p + ['-'] + q) + ['-']) + n) + ['-'] + k;
    Addresses.SplitOfConcat(((p + ['-'] + q) + ['-']) + n, '-', k);
    Addresses.SplitOfConcat(p + ['-'] + q, '-', n);
    Addresses.SplitOfConcat(p, '-', q);
    Addresses.SplitLast(n, '-');
    Addresses.SplitLast(k, '-');
  }

  /** Cut at the slashes, a result path reads: the directory, the pattern, the file name. */
  lemma PathReads(dir: string, t: Test)
    ensures Addresses.Split(ResultPath(dir, t), '/')
            == Addresses.Split(dir, '/') + Addresses.Split(t.pattern, '/') + Addresses.Split(FileName(t), '/')
  {
    var p, f := t.pattern, FileName(t);
    assert ResultPath(dir, t) == (dir + ['/'] + p) + ['/'] + f;
    Addresses.SplitOfConcat(dir + ['/'] + p, '/', f);
    Addresses.SplitOfConcat(dir, '/', p);
  }

  predicate DashFree(s: string) {
    forall i :: 0 <= i < |s| ==> s[i] != '-'
  }

  /** A dash-free word is determined by what stands before the first dash. */
  lemma FirstDash(a: string, x: string, b: string, y: string)
    requires DashFree(a) && DashFree(b) && a + "-" + x == b + "-" + y
    ensures a == b && x == y
  {
    var s := a + "-" + x;
    assert s[|a|] == '-' && s[|b|] == '-';
    assert forall i :: 0 <= i < |a| ==> s[i] == a[i];
    assert forall i :: 0 <= i < |b| ==> s[i] == b[i];
    assert |a| == |b|;
    assert a == s[..|a|] && b == s[..|b|] && x == s[|a| + 1..] && y == s[|b| + 1..];
  }

  /** A dash-free word is determined by what stands after the last dash. */
  lemma LastDash(x: string, a: string, y: string, b: string)
    requires DashFree(a) && DashFree(b) && x + "-" + a == y + "-" + b
    ensures x == y && a == b
  {
    var s := x + "-" + a;
    assert s[|x|] == '-' && s[|y|] == '-';
    assert forall i :: |x| < i < |s| ==> s[i] == a[i - |x| - 1];
    assert forall i :: |y| < i < |s| ==> s[i] == b[i - |y| - 1];
    assert |x| == |y|;
    assert x == s[..|x|] && y == s[..|y|] && a == s[|x| + 1..] && b == s[|y| + 1..];
  }

  lemma CancelPrefix(p: string, s: string, t: string)
    requires p + s == p + t
    ensures s == t
  {
    assert s == (p + s)[|p|..] && t == (p + t)[|p|..];
  }

  lemma CancelSuffix(s: string, t: string, p: string)
    requires s + p == t + p
    ensures s == t
  {
    assert |s| == |t|;
    assert s == (s + p)[..|s|] && t == (t + p)[..|t|];
  }

  /** The file name part: pattern, pattern again, then policy and size. */
  function Tail(t: Test): string {
    t.policy + "-" + Print(t.size)
  }

  lemma PathParts(dir: string, t: Test)
    ensures ResultPath(dir, t) == (dir + "/") + ((t.pattern + "/" + t.pattern) + "-" + (Tail(t) + "-k.txt"))
  {
  }

  lemma TailIsInjective(t: Test, u: Test)
    requires Tail(t) == Tail(u)
    ensures t.policy == u.policy && t.size == u.size
  {
    LastDash(t.policy, Print(t.size), u.policy, Print(u.size));
    PrintIsInjective(t.size, u.size);
  }

  lemma DoubledIsInjective(a: string, b: string)
    requires a + "/" + a == b + "/" + b
    ensures a == b
  {
    assert |a| == |b|;
    assert a == (a + "/" + a)[..|a|] && b == (b + "/" + b)[..|b|];
  }

  /** With dash-free pattern names, different tests write different files, whatever dashes the policies contain. */
  lemma PathsAreDistinct(dir: string, t: Test, u: Test)
    requires DashFree(t.pattern) && DashFree(u.pattern) && ResultPath(dir, t) == ResultPath(dir, u)
    ensures t == u
  {
    var at, au := t.pattern + "/" + t.pattern, u.pattern + "/" + u.pattern;
    PathParts(dir, t);
    PathParts(dir, u);
    CancelPrefix(dir + "/", at + "-" + (Tail(t) + "-k.txt"), au + "-" + (Tail(u) + "-k.txt"));
    FirstDash(at, Tail(t) + "-k.txt", au, Tail(u) + "-k.txt");
    DoubledIsInjective(t.pattern, u.pattern);
    CancelSuffix(Tail(t), Tail(u), "-k.txt");
    TailIsInjective(t, u);
  }

  ghost predicate Distinct<T(!new)>(s: seq<T>) {
    forall i, j :: 0 <= i < j < |s| ==> s[i] != s[j]
  }

  lemma DistinctConcat<T(!new)>(a: seq<T>, b: seq<T>)
    requires Distinct(a) && Distinct(b) && forall x :: x in a ==> x !in b
    ensures Distinct(a + b)
  {
    forall i, j | 0 <= i < j < |a + b|
      ensures (a + b)[i] != (a + b)[j]
    {
      if i < |a| <= j {
        assert a[i] in a && b[j - |a|] in b;
      }
    }
  }

  lemma {:induction false} OfPolicyIsDistinct(policy: string, patterns: seq<string>, sizes: seq<nat>)
    requires Distinct(patterns) && Distinct(sizes)
    ensures Distinct(OfPolicy(policy, patterns, sizes))
    ensures forall t :: t in OfPolicy(policy, patterns, sizes) ==> t.policy == policy && t.pattern in patterns
    decreases |patterns|
  {
    if patterns != [] {
      var front, last := patterns[..|patterns| - 1], patterns[|patterns| - 1];
      OfPolicyIsDistinct(policy, front, sizes);
      assert last !in front;
      DistinctConcat(OfPolicy(policy, front, sizes), OfPattern(policy, last, sizes));
    }
  }

  lemma {:induction false} PlanIsDistinct(policies: seq<string>, patterns: seq<string>, sizes: seq<nat>)
    requires Distinct(policies) && Distinct(patterns) && Distinct(sizes)
    ensures Distinct(Plan(policies, patterns, sizes))
    ensures forall t :: t in Plan(policies, patterns, sizes) ==> t.policy in policies && t.pattern in patterns
    decreases |policies|
  {
    if policies != [] {
      var front, last := policies[..|policies| - 1], policies[|policies| - 1];
      PlanIsDistinct(front, patterns, sizes);
      OfPolicyIsDistinct(last, patterns, sizes);
      assert last !in front;
      DistinctConcat(Plan(front, patterns, sizes), OfPolicy(last, patterns, sizes));
    }
  }

  /** No test of a plan overwrites the result of another. */
  lemma NothingIsOverwritten(dir: string, policies: seq<string>, patterns: seq<string>, start: nat, end: nat, step: nat,
                             i: nat, j: nat)
    requires Distinct(policies) && Distinct(patterns) && start >= 1 && step >= 2
    requires forall k :: 0 <= k < |patterns| ==> DashFree(patterns[k])
    requires i < j < |Plan(policies, patterns, Sizes(start, end, step))|
    ensures var plan := Plan(policies, patterns, Sizes(start, end, step));
            ResultPath(dir, plan[i]) != ResultPath(dir, plan[j])
  {
    var plan := Plan(policies, patterns, Sizes(start, end, step));
    SizesIncrease(start, end, step);
    PlanIsDistinct(policies, patterns, Sizes(start, end, step));
    assert plan[i] in plan && plan[j] in plan && plan[i] != plan[j];
    if ResultPath(dir, plan[i]) == ResultPath(dir, plan[j]) {
      PathsAreDistinct(dir, plan[i], plan[j]);
    }
  }
}
