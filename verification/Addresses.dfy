/** IPv4 addresses in multexu.sh: validation, splitting of address lists, and their round trips. */
module Addresses {
  import opened Common
  import opened Shell
  import opened Decimal

  // ---------- Splitting ----------

  /** All fields of `s` between occurrences of `c`. */
  function Split(s: string, c: char): (fs: seq<string>)
    ensures fs != []
  {
    if s == "" then [""]
    else
      var rest := Split(s[1..], c);
      if s[0] == c then [""] + rest else [[s[0]] + rest[0]] + rest[1..]
  }

  predicate Free(s: string, c: char) {
    forall i :: 0 <= i < |s| ==> s[i] != c
  }

  lemma {:induction false} SplitField(f: string, c: char, rest: string)
    requires Free(f, c)
    ensures Split(f + [c] + rest, c) == [f] + Split(rest, c)
    decreases |f|
  {
    var s := f + [c] + rest;
    if f == "" {
      assert s[1..] == rest;
    } else {
      assert s[1..] == f[1..] + [c] + rest;
      SplitField(f[1..], c, rest);
      assert [f[0]] + f[1..] == f;
    }
  }

  lemma {:induction false} SplitLast(f: string, c: char)
    requires Free(f, c)
    ensures Split(f, c) == [f]
  {
    if f != "" {
      SplitLast(f[1..], c);
      assert [f[0]] + f[1..] == f;
    }
  }

  /** A separator always separates. */
  lemma {:induction false} SplitOfConcat(s: string, c: char, t: string)
    ensures Split(s + [c] + t, c) == Split(s, c) + Split(t, c)
    decreases |s|
  {
    var u, more := s + [c] + t, Split(t, c);
    if s == "" {
      assert u[1..] == t;
    } else {
      var rest := Split(s[1..], c);
      assert u[1..] == s[1..] + [c] + t && u[0] == s[0];
      SplitOfConcat(s[1..], c, t);
      JoinFields(s[0], rest, more);
    }
  }

  lemma JoinFields(x: char, rest: seq<string>, more: seq<string>)
    requires rest != []
    ensures [""] + (rest + more) == [""] + rest + more
    ensures [[x] + (rest + more)[0]] + (rest + more)[1..] == [[x] + rest[0]] + rest[1..] + more
  {
  }

  /** Splitting undoes joining of fields that do not contain the separator. */
  lemma {:induction false} SplitOfJoin(fs: seq<string>, c: char)
    requires fs != [] && forall i :: 0 <= i < |fs| ==> Free(fs[i], c)
    ensures Split(Join(fs, [c]), c) == fs
    decreases |fs|
  {
    if |fs| == 1 {
      SplitLast(fs[0], c);
    } else {
      SplitField(fs[0], c, Join(fs[1..], [c]));
      SplitOfJoin(fs[1..], c);
    }
  }

  // ---------- Validation ----------

  /** What bash arithmetic makes of an octet: a leading zero means octal, in which 8 and 9 are errors. */
  function OctetValue(d: string): Option<nat>
    requires AllDigits(d)
  {
    if |d| > 1 && d[0] == '0' then
      if exists i :: 0 <= i < |d| && d[i] > '7' then None else Some(Value(d, 8))
    else Some(Value(d, 10))
  }

  predicate ValidOctet(d: string) {
    1 <= |d| <= 3 && AllDigits(d) && OctetValue(d).Some? && OctetValue(d).value <= 255
  }

  /** `is_valid_ip`: four dot-separated groups of one to three digits, each at most 255. */
  predicate IsValidIp(ip: string) {
    var f := Split(ip, '.');
    |f| == 4 && ValidOctet(f[0]) && ValidOctet(f[1]) && ValidOctet(f[2]) && ValidOctet(f[3])
  }

  // ---------- Addresses and their text ----------

  type Octet = n: nat | n <= 255

  datatype Quad = Quad(a: Octet, b: Octet, c: Octet, d: Octet)

  function Show(q: Quad): string {
    Join([Print(q.a), Print(q.b), Print(q.c), Print(q.d)], ".")
  }

  lemma PrintedOctet(n: Octet)
    ensures ValidOctet(Print(n)) && Free(Print(n), '.') && Canonical(Print(n))
  {
    PrintIsCanonical(n);
    PrintLength(n);
  }

  lemma ShowSplits(q: Quad)
    ensures Split(Show(q), '.') == [Print(q.a), Print(q.b), Print(q.c), Print(q.d)]
  {
    PrintedOctet(q.a);
    PrintedOctet(q.b);
    PrintedOctet(q.c);
    PrintedOctet(q.d);
    SplitOfJoin([Print(q.a), Print(q.b), Print(q.c), Print(q.d)], '.');
  }

  lemma ShowIsValid(q: Quad)
    ensures IsValidIp(Show(q))
  {
    ShowSplits(q);
    PrintedOctet(q.a);
    PrintedOctet(q.b);
    PrintedOctet(q.c);
    PrintedOctet(q.d);
  }

  lemma {:induction false} JoinOfSplit(s: string, c: char)
    ensures Join(Split(s, c), [c]) == s
  {
    if s != "" {
      var rest := Split(s[1..], c);
      JoinOfSplit(s[1..], c);
      if s[0] == c {
        assert ([""] + rest)[1..] == rest;
        assert "" + [c] + s[1..] == s;
      } else {
        var fs := [[s[0]] + rest[0]] + rest[1..];
        assert fs[1..] == rest[1..];
        assert [s[0]] + s[1..] == s;
        if |rest| > 1 {
          assert [s[0]] + (rest[0] + [c] + Join(rest[1..], [c])) == ([s[0]] + rest[0]) + [c] + Join(rest[1..], [c]);
        }
      }
    }
  }

  predicate CanonicalIp(ip: string) {
    var f := Split(ip, '.');
    |f| == 4 && Canonical(f[0]) && Canonical(f[1]) && Canonical(f[2]) && Canonical(f[3])
  }

  lemma ShowIsInjective(q: Quad, r: Quad)
    requires Show(q) == Show(r)
    ensures q == r
  {
    ShowSplits(q);
    ShowSplits(r);
    PrintIsInjective(q.a, r.a);
    PrintIsInjective(q.b, r.b);
    PrintIsInjective(q.c, r.c);
    PrintIsInjective(q.d, r.d);
  }

  lemma AcceptedIsShown(ip: string) returns (q: Quad)
    requires IsValidIp(ip) && CanonicalIp(ip)
    ensures Show(q) == ip
  {
    var f := Split(ip, '.');
    q := Quad(Value(f[0], 10), Value(f[1], 10), Value(f[2], 10), Value(f[3], 10));
    CanonicalIsPrint(f[0]);
    CanonicalIsPrint(f[1]);
    CanonicalIsPrint(f[2]);
    CanonicalIsPrint(f[3]);
    JoinOfSplit(ip, '.');
    assert f == [f[0], f[1], f[2], f[3]];
  }

  /** A text without leading zeros is accepted exactly when it shows a quad; by injectivity, exactly one. */
  lemma AcceptedIffShown(ip: string)
    ensures IsValidIp(ip) && CanonicalIp(ip) <==> exists q :: Show(q) == ip
  {
    if IsValidIp(ip) && CanonicalIp(ip) {
      var q := AcceptedIsShown(ip);
    }
    if q :| Show(q) == ip {
      ShowIsValid(q);
      ShowSplits(q);
      PrintedOctet(q.a);
      PrintedOctet(q.b);
      PrintedOctet(q.c);
      PrintedOctet(q.d);
    }
  }

  // ---------- Every accepted text ----------

  lemma OctalIsSmall(d: string)
    requires |d| <= 3 && AllDigits(d) && forall i :: 0 <= i < |d| ==> d[i] <= '7'
    ensures Value(d, 8) < 512 && (|d| <= 2 ==> Value(d, 8) < 64)
    ensures |d| == 3 && d[0] == '0' ==> Value(d, 8) < 64
    decreases |d|
  {
    if d != "" {
      var front := d[..|d| - 1];
      OctalIsSmall(front);
      assert DigitValue(d[|d| - 1]) <= 7;
      if |d| == 1 {
        assert Value(front, 8) == 0;
      } else if |d| == 3 && d[0] == '0' {
        OctalPair(front);
      } else if |d| == 2 {
        assert front[..0] == "";
        assert Value(front, 8) == DigitValue(d[0]);
      }
    }
  }

  lemma OctalPair(d: string)
    requires |d| == 2 && AllDigits(d) && d[0] == '0' && d[1] <= '7'
    ensures Value(d, 8) <= 7
  {
    assert d[..1][..0] == "" && d[..1][0] == '0';
    assert Value(d[..1], 8) == 0;
  }

  /** One octet: the print of a number up to 255, or two or three octal digits after a leading zero. */
  lemma ValidOctetIff(d: string)
    ensures ValidOctet(d)
            <==> (exists n: Octet :: Print(n) == d)
                 || (2 <= |d| <= 3 && d[0] == '0' && forall i :: 0 <= i < |d| ==> '0' <= d[i] <= '7')
  {
    if ValidOctet(d) && !(|d| > 1 && d[0] == '0') {
      CanonicalIsPrint(d);
      var n: Octet := Value(d, 10);
      assert Print(n) == d;
    }
    if n: Octet :| Print(n) == d {
      PrintedOctet(n);
    }
    if 2 <= |d| <= 3 && d[0] == '0' && forall i :: 0 <= i < |d| ==> '0' <= d[i] <= '7' {
      OctalIsSmall(d);
    }
  }

  lemma ValidIsDotFree(d: string)
    requires ValidOctet(d)
    ensures Free(d, '.')
  {
  }

  /** The whole address: four such octets with dots between them, and nothing else. */
  lemma ValidIpIff(ip: string)
    ensures IsValidIp(ip)
            <==> exists a, b, c, d :: ValidOctet(a) && ValidOctet(b) && ValidOctet(c) && ValidOctet(d)
                                      && ip == Join([a, b, c, d], ".")
  {
    if IsValidIp(ip) {
      var f := Split(ip, '.');
      JoinOfSplit(ip, '.');
      assert f == [f[0], f[1], f[2], f[3]];
    }
    if a, b, c, d :| ValidOctet(a) && ValidOctet(b) && ValidOctet(c) && ValidOctet(d) && ip == Join([a, b, c, d], ".") {
      SplitOfJoin([a, b, c, d], '.');
    }
  }
}
