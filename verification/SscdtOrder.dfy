/** The request order of the SSCDT policy: time window, then client nid, then pid. */
module SscdtOrder {
  import opened Arithmetic

  /** `rq_sent` in seconds, small enough that `rq_sent * 1000` fits a signed 64-bit integer. */
  type Seconds = s: nat | s <= 9_223_372_036_854_775

  /** A nonzero `__u32` window width in milliseconds. */
  type Interval = i: nat | 0 < i < 0x1_0000_0000 witness 1000

  /** A queued RPC; `id` stands for the address of its `ptlrpc_request`. */
  datatype Rpc = Rpc(id: nat, sent: Seconds, nid: nat, pid: nat)

  function Window(interval: Interval, sent: Seconds): nat {
    sent * 1000 / interval
  }

  /** `sscdt_req_compare`: nonzero when `a` belongs nearer the root. */
  predicate Precedes(interval: Interval, a: Rpc, b: Rpc) {
    if Window(interval, a.sent) != Window(interval, b.sent) then a.sent < b.sent
    else if a.nid == b.nid then a.pid < b.pid
    else a.nid < b.nid
  }

  function Comparator(interval: Interval): (Rpc, Rpc) -> bool {
    (a, b) => Precedes(interval, a, b)
  }

  datatype Key = Key(window: nat, nid: nat, pid: nat)

  function KeyOf(interval: Interval, r: Rpc): Key {
    Key(Window(interval, r.sent), r.nid, r.pid)
  }

  predicate KeyLess(k: Key, l: Key) {
    k.window < l.window
    || (k.window == l.window && (k.nid < l.nid || (k.nid == l.nid && k.pid < l.pid)))
  }

  // ---------- Windows ----------

  /** The request is sent in [w * interval, (w + 1) * interval) milliseconds. */
  ghost predicate SentIn(interval: Interval, s: Seconds, w: nat) {
    w * interval <= s * 1000 < (w + 1) * interval
  }

  /** Window `w` of the time axis is the w-th stretch of `interval` milliseconds, counted from zero. */
  lemma WindowIs(interval: Interval, s: Seconds, w: nat)
    ensures Window(interval, s) == w <==> SentIn(interval, s, w)
  {
    assert (w + 1) * interval == w * interval + interval;
    if SentIn(interval, s, w) {
      QuotientIs(s * 1000, interval, w);
    }
    QuotientBounds(s * 1000, interval);
  }

  /** The order in terms of the time axis: within a stretch by (nid, pid) alone, across stretches by time. */
  lemma OrderOnTimeAxis(interval: Interval, a: Rpc, b: Rpc, v: nat, w: nat)
    requires SentIn(interval, a.sent, v) && SentIn(interval, b.sent, w)
    ensures v == w ==> (Precedes(interval, a, b) <==> a.nid < b.nid || (a.nid == b.nid && a.pid < b.pid))
    ensures v != w ==> (Precedes(interval, a, b) <==> v < w)
  {
    WindowIs(interval, a.sent, v);
    WindowIs(interval, b.sent, w);
    PrecedesIsLexicographic(interval, a, b);
  }

  lemma WindowMonotone(interval: Interval, s: Seconds, t: Seconds)
    requires s <= t
    ensures Window(interval, s) <= Window(interval, t)
  {
    QuotientBounds(s * 1000, interval);
    QuotientBounds(t * 1000, interval);
    CancelFactor(Window(interval, s), Window(interval, t) + 1, interval);
  }

  /** Up to one second, every second has a window of its own. */
  lemma NarrowWindowsAreSeconds(interval: Interval, s: Seconds, t: Seconds)
    requires interval <= 1000
    ensures Window(interval, s) == Window(interval, t) <==> s == t
  {
    if s != t {
      var lo, hi := if s < t then s else t, if s < t then t else s;
      QuotientBounds(lo * 1000, interval);
      QuotientBounds(hi * 1000, interval);
    }
  }

  // ---------- The comparator is lexicographic on (window, nid, pid) ----------

  /** Comparing raw send times across windows agrees with comparing the windows. */
  lemma PrecedesIsLexicographic(interval: Interval, a: Rpc, b: Rpc)
    ensures Precedes(interval, a, b) <==> KeyLess(KeyOf(interval, a), KeyOf(interval, b))
  {
    if a.sent <= b.sent {
      WindowMonotone(interval, a.sent, b.sent);
    } else {
      WindowMonotone(interval, b.sent, a.sent);
    }
  }

  /** For every interval in 1..1000 the order is the one on (rq_sent, nid, pid), whatever the interval. */
  lemma NarrowOrderIgnoresInterval(interval: Interval, a: Rpc, b: Rpc)
    requires interval <= 1000
    ensures Precedes(interval, a, b)
            <==> KeyLess(Key(a.sent, a.nid, a.pid), Key(b.sent, b.nid, b.pid))
  {
    NarrowWindowsAreSeconds(interval, a.sent, b.sent);
  }

  // ---------- Coarsening ----------

  /** Equal windows stay equal when the width is multiplied. */
  lemma CoarserWindowsMerge(fine: Interval, coarse: Interval, k: nat, s: Seconds, t: Seconds)
    requires coarse == k * fine
    requires Window(fine, s) == Window(fine, t)
    ensures Window(coarse, s) == Window(coarse, t)
  {
    QuotientOfMultiple(s * 1000, fine, k);
    QuotientOfMultiple(t * 1000, fine, k);
  }

  /** The two comparators differ, if at all, on pairs that the coarser width merges. */
  lemma CoarseningAgreement(fine: Interval, coarse: Interval, k: nat, a: Rpc, b: Rpc)
    requires coarse == k * fine
    requires Window(fine, a.sent) == Window(fine, b.sent) || Window(coarse, a.sent) != Window(coarse, b.sent)
    ensures Precedes(fine, a, b) <==> Precedes(coarse, a, b)
  {
    if Window(fine, a.sent) == Window(fine, b.sent) {
      CoarserWindowsMerge(fine, coarse, k, a.sent, b.sent);
    }
  }

  // ---------- When changing the interval keeps the order ----------

  /** The test a caller can make before writing the interval. */
  predicate Interchangeable(i: Interval, j: Interval) {
    i == j || (i <= 1000 && j <= 1000)
  }

  lemma InterchangeableAgree(i: Interval, j: Interval, a: Rpc, b: Rpc)
    requires Interchangeable(i, j)
    ensures Precedes(i, a, b) <==> Precedes(j, a, b)
  {
    if i != j {
      NarrowOrderIgnoresInterval(i, a, b);
      NarrowOrderIgnoresInterval(j, a, b);
    }
  }

  /** At second `i` width `i` has reached window 1000 and every larger width has not. */
  lemma WindowsDiverge(i: Interval, j: Interval)
    requires i < j
    ensures Window(i, i) > Window(j, i)
  {
    QuotientIs(i * 1000, i, 1000);
    QuotientBounds(i * 1000, j);
    CancelFactor(Window(j, i), 1000, j);
  }

  /** Windows wider than a second never skip a number. */
  lemma WideWindowsStep(i: Interval, t: Seconds, u: Seconds)
    requires i > 1000 && u == t + 1
    ensures Window(i, t) <= Window(i, u) <= Window(i, t) + 1
  {
    WindowMonotone(i, t, u);
    QuotientBounds(t * 1000, i);
    QuotientBounds(u * 1000, i);
    CancelFactor(Window(i, u), Window(i, t) + 2, i);
  }

  /** Walking back from a second where the windows differ finds two neighbours split by `i` but merged by `j`. */
  lemma SplitNeighbours(i: Interval, j: Interval, s: Seconds) returns (t: Seconds, u: Seconds)
    requires 1000 < i < j
    requires Window(i, s) > Window(j, s)
    ensures u == t + 1 && Window(i, t) != Window(i, u) && Window(j, t) == Window(j, u)
    decreases s
  {
    QuotientIs(0, i, 0);
    QuotientIs(0, j, 0);
    t, u := s - 1, s;
    if Window(i, t) > Window(j, t) {
      t, u := SplitNeighbours(i, j, t);
    } else {
      WideWindowsStep(i, t, u);
      WideWindowsStep(j, t, u);
    }
  }

  /** Two requests that one width puts in one order and the other width in the opposite order. */
  lemma InversionExists(i: Interval, j: Interval) returns (a: Rpc, b: Rpc)
    requires !Interchangeable(i, j)
    ensures Precedes(i, a, b) && Precedes(j, b, a)
  {
    var lo, hi := if i < j then i else j, if i < j then j else i;
    var t: Seconds, u: Seconds := 0, 1;
    if lo <= 1000 {
      NarrowWindowsAreSeconds(lo, 0, 1);
      QuotientIs(0, hi, 0);
      QuotientIs(1000, hi, 0);
    } else {
      WindowsDiverge(lo, hi);
      t, u := SplitNeighbours(lo, hi, lo);
    }
    var early, late := Rpc(0, t, 1, 0), Rpc(1, u, 0, 0);
    a, b := if i < j then early else late, if i < j then late else early;
  }
}
