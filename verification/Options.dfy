/** The option loop of multexu.sh, and what becomes of a command passed through it. */
module Options {
  import opened Common
  import opened Shell

  datatype Options = Options(iptable: string, cmd: string, reboot: bool, files: string, location: string)

  const NONE: Options := Options("", "", false, "", "")

  /** The loop either ends the script or leaves the settings to act on. */
  datatype Outcome = Exit(code: nat) | Go(o: Options)

  // ---------- Patterns ----------

  /** `name=?*` */
  predicate Given(arg: string, name: string) {
    name + "=" <= arg && |arg| > |name| + 1
  }

  /** `${1#*=}` */
  function ValueOf(arg: string): string {
    var r := Find(arg, "=");
    if r.Some? then arg[r.value + 1..] else arg
  }

  const SUPER := "--supercmd="

  /** `${x#*--supercmd=}` */
  function Stripped(arg: string): string {
    var r := Find(arg, SUPER);
    if r.Some? then arg[r.value + |SUPER|..] else arg
  }

  function StripAll(args: seq<string>): (s: seq<string>)
    ensures |s| == |args| && forall i :: 0 <= i < |s| ==> s[i] == Stripped(args[i])
  {
    seq(|args|, i requires 0 <= i < |args| => Stripped(args[i]))
  }

  predicate IsLetter(c: char) {
    'a' <= c <= 'z' || 'A' <= c <= 'Z'
  }

  /** `[a-zA-Z]+=[a-zA-Z]` at the start of `s`. */
  predicate LettersAndValue(s: string) {
    |s| >= 2 && IsLetter(s[0])
    && ((|s| >= 3 && s[1] == '=' && IsLetter(s[2])) || LettersAndValue(s[1..]))
  }

  /** Whether `-{1,2}[a-zA-Z]+=[a-zA-Z]+` matches somewhere in `w`. */
  predicate OptionLike(w: string) {
    w != "" && ((w[0] == '-' && LettersAndValue(w[1..])) || OptionLike(w[1..]))
  }

  /** Letters up to an equals sign at `j`, then a letter. */
  ghost predicate LettersUpTo(s: string, j: nat) {
    1 <= j < |s| - 1 && s[j] == '=' && IsLetter(s[j + 1]) && forall k :: 0 <= k < j ==> IsLetter(s[k])
  }

  lemma {:induction false} LettersMeans(s: string)
    ensures LettersAndValue(s) <==> exists j: nat :: LettersUpTo(s, j)
  {
    if |s| >= 2 && IsLetter(s[0]) {
      var t := s[1..];
      LettersMeans(t);
      if s[1] == '=' && |s| >= 3 && IsLetter(s[2]) {
        assert LettersUpTo(s, 1);
      } else if LettersAndValue(t) {
        var j: nat :| LettersUpTo(t, j);
        assert LettersUpTo(s, j + 1);
      }
      if j: nat :| LettersUpTo(s, j) {
        if j > 1 {
          assert LettersUpTo(t, j - 1);
        }
      }
    }
  }

  /** A dash at `i`, then letters up to an equals sign, then a letter. */
  ghost predicate MatchesAt(w: string, i: nat, j: nat) {
    i < |w| && w[i] == '-' && LettersUpTo(w[i + 1..], j)
  }

  /** The recursive search finds a match exactly when there is one. */
  lemma {:induction false} OptionLikeMeans(w: string)
    ensures OptionLike(w) <==> exists i: nat, j: nat :: MatchesAt(w, i, j)
  {
    if w != "" {
      var t := w[1..];
      LettersMeans(t);
      OptionLikeMeans(t);
      if w[0] == '-' && LettersAndValue(t) {
        var j: nat :| LettersUpTo(t, j);
        assert MatchesAt(w, 0, j);
      } else if OptionLike(t) {
        var i: nat, j: nat :| MatchesAt(t, i, j);
        assert t[i + 1..] == w[i + 1 + 1..];
        assert MatchesAt(w, i + 1, j);
      }
      if i: nat, j: nat :| MatchesAt(w, i, j) {
        if i > 0 {
          assert t[i - 1 + 1..] == w[i + 1..];
          assert MatchesAt(t, i - 1, j);
        }
      }
    }
  }

  /** How many words the inner loop of `--cmd` swallows. */
  function Swallowed(args: seq<string>): (n: nat)
    ensures n <= |args|
    ensures forall i :: 0 <= i < n ==> args[i] != "" && !OptionLike(args[i])
    ensures n < |args| ==> args[n] == "" || OptionLike(args[n])
  {
    if args == [] || args[0] == "" || OptionLike(args[0]) then 0 else 1 + Swallowed(args[1..])
  }

  // ---------- The loop ----------

  /** The branch of the `case` statement that an argument selects. */
  datatype Kind =
    | Help | Location(v: string) | NoLocation | Files(v: string) | NoFiles | Define
    | Super | Command(v: string) | NoCommand | Table(v: string) | NoTable
    | Version | Reboot | Ignored | End

  function KindOf(a: string): Kind {
    if a == "-h" || a == "-?" || a == "--help" then Help
    else if Given(a, "-l") || Given(a, "--location") then Location(ValueOf(a))
    else if a == "-l=" || a == "--location=" then NoLocation
    else if Given(a, "-s") || Given(a, "--sendfile") then Files(ValueOf(a))
    else if a == "-s" || a == "--sendfile=" then NoFiles
    else if a == "-u" || a == "--udefine" then Define
    else if Given(a, "--supercmd") then Super
    else if Given(a, "-c") || Given(a, "--cmd") then Command(ValueOf(a))
    else if a == "-c" || a == "--cmd=" then NoCommand
    else if Given(a, "-i") || Given(a, "--iptable") then Table(ValueOf(a))
    else if a == "-i=" || a == "--iptable=" then NoTable
    else if a == "-v" || a == "--version" then Version
    else if a == "-r" || a == "--reboot" then Reboot
    else if "-" <= a && |a| > 1 then Ignored
    else End
  }

  lemma ValueIsShorter(a: string)
    ensures KindOf(a).Command? ==> |KindOf(a).v| <= |a|
  {
  }

  /** One round: end here, or go on after `n` arguments. */
  datatype Round = Stop(out: Outcome) | Shift(n: nat, o: Options)

  function Once(args: seq<string>, o: Options): (r: Round)
    requires args != []
    ensures r.Shift? ==> 1 <= r.n <= |args|
  {
    var rest := args[1..];
    match KindOf(args[0])
    case Help => Stop(Exit(0))
    case Location(v) => Shift(1, o.(location := v))
    case NoLocation => Stop(Exit(1))
    case Files(v) => Shift(1, o.(files := v))
    case NoFiles => Stop(Exit(1))
    case Define => if rest != [] && rest[0] != "" then Shift(1, o) else Stop(Exit(1))
    case Super => Stop(Go(o.(cmd := Join(StripAll(args), " "))))
    case Command(v) => Shift(1 + Swallowed(rest), o.(cmd := Join([v] + rest[..Swallowed(rest)], " ")))
    case NoCommand => Stop(Exit(1))
    case Table(v) => Shift(1, o.(iptable := v))
    case NoTable => Stop(Exit(1))
    case Version => Stop(Exit(0))
    case Reboot => Shift(1, o.(reboot := true))
    case Ignored => Shift(1, o)
    case End => Stop(Go(o))
  }

  function Parse(args: seq<string>, o: Options): Outcome
    decreases |args|
  {
    if args == [] then Go(o)
    else
      match Once(args, o)
      case Stop(out) => out
      case Shift(n, next) => Parse(args[n..], next)
  }

  lemma {:induction false} JoinSnoc(ws: seq<string>, w: string)
    requires ws != []
    ensures Join(ws + [w], " ") == Join(ws, " ") + " " + w
    decreases |ws|
  {
    if |ws| == 1 {
      assert (ws + [w])[1..] == [w];
    } else {
      assert (ws + [w])[1..] == ws[1..] + [w];
      JoinSnoc(ws[1..], w);
      assert ws[0] + " " + (Join(ws[1..], " ") + " " + w) == ws[0] + " " + Join(ws[1..], " ") + " " + w;
    }
  }

  /** The inner loop of `--cmd`: appends words until one looks like an option. */
  method Swallow(args: seq<string>, first: string) returns (cmd: string, n: nat)
    ensures n == Swallowed(args) && cmd == Join([first] + args[..n], " ")
  {
    cmd, n := first, 0;
    assert [first] + args[..0] == [first];
    while n < |args| && !OptionLike(args[n]) && args[n] != ""
      invariant n <= |args| && cmd == Join([first] + args[..n], " ")
      invariant Swallowed(args) == n + Swallowed(args[n..])
    {
      JoinSnoc([first] + args[..n], args[n]);
      assert [first] + args[..n] + [args[n]] == [first] + args[..n + 1];
      assert args[n..][1..] == args[n + 1..];
      cmd, n := cmd + " " + args[n], n + 1;
    }
  }

  /** One round of the option loop; only `--cmd` loops in turn. */
  method TakeRound(args: seq<string>, o: Options) returns (r: Round)
    requires args != []
    ensures r == Once(args, o)
  {
    var kind := KindOf(args[0]);
    if kind.Command? {
      var cmd, n := Swallow(args[1..], kind.v);
      r := Shift(1 + n, o.(cmd := cmd));
    } else {
      r := Once(args, o);
    }
  }

  /** `get_parameters`: every continuing round shifts, so the loop ends on every argument list. */
  method GetParameters(args: seq<string>) returns (out: Outcome)
    ensures out == Parse(args, NONE)
  {
    var left, o := args, NONE;
    while left != []
      invariant Parse(args, NONE) == Parse(left, o)
      decreases |left|
    {
      var r := TakeRound(left, o);
      match r
      case Stop(result) => return result;
      case Shift(n, next) => left, o := left[n..], next;
    }
    out := Go(o);
  }

  // ---------- Word splitting of the arguments ----------

  /** `get_parameters $@`: each argument is split again, unquoted. */
  function Resplit(argv: seq<string>): seq<string> {
    if argv == [] then [] else Words(argv[0]) + Resplit(argv[1..])
  }

  lemma PrefixedJoin(prefix: string, ws: seq<string>)
    requires ws != []
    ensures prefix + Join(ws, " ") == Join([prefix + ws[0]] + ws[1..], " ")
  {
    var qs := [prefix + ws[0]] + ws[1..];
    assert qs[1..] == ws[1..];
    if |ws| > 1 {
      assert prefix + (ws[0] + " " + Join(ws[1..], " ")) == prefix + ws[0] + " " + Join(ws[1..], " ");
    }
  }

  /** An option with a value of several words arrives as several words. */
  lemma PrefixedWords(prefix: string, ws: seq<string>)
    requires IsWord(prefix) && AllWords(ws) && ws != []
    ensures Words(prefix + Join(ws, " ")) == [prefix + ws[0]] + ws[1..]
  {
    PrefixedJoin(prefix, ws);
    WordsOfJoin([prefix + ws[0]] + ws[1..], ' ');
  }

  lemma ResplitTwo(a: string, b: string)
    ensures Resplit([a, b]) == Words(a) + Words(b)
  {
    assert [a, b][1..] == [b] && [b][1..] == [];
    assert Resplit([b]) == Words(b) + [];
  }

  lemma TableWord(table: string)
    requires IsWord(table)
    ensures Words("--iptable=" + table) == ["--iptable=" + table]
  {
    assert Join([table], " ") == table;
    PrefixedWords("--iptable=", [table]);
    assert [table][1..] == [];
  }

  /** A call with a table and a value of several words, as the option loop sees it. */
  lemma CallWords(table: string, prefix: string, ws: seq<string>)
    requires IsWord(table) && IsWord(prefix) && AllWords(ws) && ws != []
    ensures Resplit(["--iptable=" + table, prefix + Join(ws, " ")])
            == ["--iptable=" + table] + ([prefix + ws[0]] + ws[1..])
  {
    ResplitTwo("--iptable=" + table, prefix + Join(ws, " "));
    TableWord(table);
    PrefixedWords(prefix, ws);
  }

  // ---------- Values of options ----------

  /** The value starts after the first `=`. */
  lemma ValueAfter(name: string, value: string)
    requires forall i :: 0 <= i < |name| ==> name[i] != '='
    ensures ValueOf(name + "=" + value) == value
  {
    var a := name + "=" + value;
    assert a[|name|..] == "=" + value;
    assert OccursAt(a, "=", |name|);
    forall i: nat | i < |name|
      ensures !OccursAt(a, "=", i)
    {
      assert a[i..][0] == name[i];
    }
    assert Find(a, "=") == Some(|name|);
    assert a[|name| + 1..] == value;
  }

  /** A long option is none of the short ones. */
  lemma LongIsNotShort(a: string)
    requires "--" < a
    ensures a != "-h" && a != "-?" && a != "-s" && a != "-u" && a != "-c" && a != "-v" && a != "-r"
    ensures a != "-l=" && a != "-i="
    ensures !Given(a, "-l") && !Given(a, "-s") && !Given(a, "-c") && !Given(a, "-i")
  {
    assert a[1] == '-';
  }

  /** The third character tells the long options apart. */
  lemma LongBy(a: string, c: char)
    requires "--" < a && a[2] == c
    ensures c != 'h' ==> a != "--help"
    ensures c != 'l' ==> !Given(a, "--location") && a != "--location="
    ensures c != 's' ==> !Given(a, "--sendfile") && a != "--sendfile=" && !Given(a, "--supercmd")
    ensures c != 'u' ==> a != "--udefine"
    ensures c != 'c' ==> !Given(a, "--cmd") && a != "--cmd="
  {
  }

  lemma TableKind(table: string)
    requires table != ""
    ensures KindOf("--iptable=" + table) == Table(table)
  {
    var a := "--iptable=" + table;
    LongIsNotShort(a);
    LongBy(a, 'i');
    ValueAfter("--iptable", table);
    assert a == "--iptable" + "=" + table;
  }

  lemma CommandKind(w: string)
    requires w != ""
    ensures KindOf("--cmd=" + w) == Command(w)
  {
    var a := "--cmd=" + w;
    LongIsNotShort(a);
    LongBy(a, 'c');
    ValueAfter("--cmd", w);
    assert a == "--cmd" + "=" + w;
  }

  lemma TableFirst(a: string, table: string, rest: seq<string>, o: Options)
    requires KindOf(a) == Table(table)
    ensures Parse([a] + rest, o) == Parse(rest, o.(iptable := table))
  {
    assert ([a] + rest)[1..] == rest;
  }

  lemma CommandFirst(a: string, w: string, rest: seq<string>, o: Options)
    requires KindOf(a) == Command(w)
    ensures Parse([a] + rest, o)
            == Parse(rest[Swallowed(rest)..], o.(cmd := Join([w] + rest[..Swallowed(rest)], " ")))
  {
    assert ([a] + rest)[1..] == rest;
    assert ([a] + rest)[1 + Swallowed(rest)..] == rest[Swallowed(rest)..];
  }

  // ---------- Command reassembly ----------

  ghost function CallWithCommand(table: string, ws: seq<string>): Outcome {
    Parse(Resplit(["--iptable=" + table, "--cmd=" + Join(ws, " ")]), NONE)
  }

  lemma CallSteps(table: string, ws: seq<string>)
    requires IsWord(table) && AllWords(ws) && ws != []
    ensures var rest := ws[1..];
            var n := Swallowed(rest);
            CallWithCommand(table, ws)
            == Parse(rest[n..], NONE.(iptable := table, cmd := Join(ws[..n + 1], " ")))
  {
    var rest := ws[1..];
    CallWords(table, "--cmd=", ws);
    TableKind(table);
    CommandKind(ws[0]);
    TableFirst("--iptable=" + table, table, ["--cmd=" + ws[0]] + rest, NONE);
    CommandFirst("--cmd=" + ws[0], ws[0], rest, NONE.(iptable := table));
    assert [ws[0]] + rest[..Swallowed(rest)] == ws[..Swallowed(rest) + 1];
  }

  /** No word after the first looks like an option with a value. */
  ghost predicate Plain(ws: seq<string>) {
    forall i :: 1 <= i < |ws| ==> !OptionLike(ws[i])
  }

  /** The table and the words, joined by single spaces, come out as they went in. */
  lemma CommandReassembled(table: string, ws: seq<string>)
    requires IsWord(table) && AllWords(ws) && ws != [] && Plain(ws)
    ensures CallWithCommand(table, ws) == Go(NONE.(iptable := table, cmd := Join(ws, " ")))
  {
    var rest := ws[1..];
    var n := Swallowed(rest);
    CallSteps(table, ws);
    assert forall i :: 0 <= i < |rest| ==> rest[i] == ws[i + 1] && !OptionLike(rest[i]);
    assert ws[..n + 1] == ws && rest[n..] == [];
  }

  // ---------- Otherwise the command is cut ----------

  lemma {:induction false} JoinSplits(ws: seq<string>, k: nat)
    requires 0 < k < |ws|
    ensures Join(ws, " ") == Join(ws[..k], " ") + " " + Join(ws[k..], " ")
    decreases k
  {
    if k == 1 {
      assert ws[..1] == [ws[0]];
    } else {
      JoinSplits(ws[1..], k - 1);
      assert ws[..k][1..] == ws[1..][..k - 1] && ws[1..][k - 1..] == ws[k..];
      calc {
        Join(ws, " ");
        ws[0] + " " + (Join(ws[1..][..k - 1], " ") + " " + Join(ws[k..], " "));
        ws[0] + " " + Join(ws[..k][1..], " ") + " " + Join(ws[k..], " ");
        Join(ws[..k], " ") + " " + Join(ws[k..], " ");
      }
    }
  }

  lemma SuffixIsShorter(ws: seq<string>, k: nat)
    requires k <= |ws|
    ensures |Join(ws[k..], " ")| <= |Join(ws, " ")|
  {
    if k == 0 {
      assert ws[0..] == ws;
    } else if k == |ws| {
      assert ws[k..] == [];
    } else {
      JoinSplits(ws, k);
    }
  }

  lemma {:induction false} ShorterWords(us: seq<string>, ws: seq<string>)
    requires |us| == |ws| && forall i :: 0 <= i < |ws| ==> |us[i]| <= |ws[i]|
    ensures |Join(us, " ")| <= |Join(ws, " ")|
    ensures (exists i :: 0 <= i < |ws| && |us[i]| < |ws[i]|) ==> |Join(us, " ")| < |Join(ws, " ")|
    decreases |us|
  {
    if |us| > 1 {
      ShorterWords(us[1..], ws[1..]);
      forall i | 0 <= i < |ws| && |us[i]| < |ws[i]|
        ensures |Join(us, " ")| < |Join(ws, " ")|
      {
        if i > 0 {
          assert us[1..][i - 1] == us[i] && ws[1..][i - 1] == ws[i];
        }
      }
    }
  }

  lemma CutBound(args: seq<string>, v: string)
    requires args != [] && |v| <= |args[0]|
    ensures var rest := args[1..];
            |Join([v] + rest[..Swallowed(rest)], " ")| <= |Join(args, " ")|
  {
    var rest := args[1..];
    var n := Swallowed(rest);
    assert args[..n + 1] == [args[0]] + rest[..n];
    ShorterWords([v] + rest[..n], args[..n + 1]);
    if n + 1 < |args| {
      JoinSplits(args, n + 1);
    } else {
      assert args[..n + 1] == args;
    }
  }

  /** The options after a round, however it ends. */
  function AfterRound(r: Round, o: Options): Options {
    match r
    case Stop(Go(p)) => p
    case Stop(Exit(_)) => o
    case Shift(_, p) => p
  }

  /** A command set in one round is made of the arguments it looked at. */
  lemma RoundCommand(args: seq<string>, o: Options)
    requires args != []
    ensures var cmd := AfterRound(Once(args, o), o).cmd;
            cmd == o.cmd || |cmd| <= |Join(args, " ")|
  {
    match KindOf(args[0])
    case Super => ShorterWords(StripAll(args), args);
    case Command(v) =>
      ValueIsShorter(args[0]);
      CutBound(args, v);
    case _ =>
  }

  /** A command set while parsing `args` is no longer than the arguments themselves. */
  lemma {:induction false} CommandBound(args: seq<string>, o: Options)
    requires Parse(args, o).Go?
    ensures Parse(args, o).o.cmd == o.cmd || |Parse(args, o).o.cmd| <= |Join(args, " ")|
    decreases |args|
  {
    if args != [] {
      var r := Once(args, o);
      RoundCommand(args, o);
      if r.Shift? {
        CommandBound(args[r.n..], r.o);
        SuffixIsShorter(args, r.n);
      }
    }
  }

  /** The command survives the call if and only if no word after the first looks like an option with a value. */
  lemma CommandSurvivesIff(table: string, ws: seq<string>)
    requires IsWord(table) && AllWords(ws) && ws != []
    ensures var out := CallWithCommand(table, ws);
            out.Go? && out.o.cmd == Join(ws, " ") <==> Plain(ws)
  {
    if Plain(ws) {
      CommandReassembled(table, ws);
    } else {
      var rest := ws[1..];
      var n := Swallowed(rest);
      CallSteps(table, ws);
      var i :| 1 <= i < |ws| && OptionLike(ws[i]);
      assert rest[i - 1] == ws[i];
      assert n < |rest|;
      JoinSplits(ws, n + 1);
      assert rest[n..] == ws[n + 1..];
      if CallWithCommand(table, ws).Go? {
        CommandBound(rest[n..], NONE.(iptable := table, cmd := Join(ws[..n + 1], " ")));
      }
    }
  }

  // ---------- The last-resort form ----------

  lemma SuperValue(w: string)
    ensures Stripped(SUPER + w) == w
  {
    assert OccursAt(SUPER + w, SUPER, 0);
  }

  lemma SuperKind(w: string)
    requires w != ""
    ensures KindOf(SUPER + w) == Super
  {
    var a := SUPER + w;
    LongIsNotShort(a);
    LongBy(a, 's');
    assert a[3] == 'u' && a[2] == 's';
  }

  lemma StripCons(a: string, rest: seq<string>)
    ensures StripAll([a] + rest) == [Stripped(a)] + StripAll(rest)
  {
  }

  lemma SuperFirst(a: string, rest: seq<string>, o: Options)
    requires KindOf(a) == Super
    ensures Parse([a] + rest, o) == Go(o.(cmd := Join([Stripped(a)] + StripAll(rest), " ")))
  {
    StripCons(a, rest);
    assert Once([a] + rest, o) == Stop(Go(o.(cmd := Join(StripAll([a] + rest), " "))));
  }

  lemma SuperCall(table: string, ws: seq<string>)
    requires IsWord(table) && AllWords(ws) && ws != []
    ensures Parse(Resplit(["--iptable=" + table, SUPER + Join(ws, " ")]), NONE)
            == Go(NONE.(iptable := table, cmd := Join([ws[0]] + StripAll(ws[1..]), " ")))
  {
    CallWords(table, SUPER, ws);
    TableKind(table);
    SuperKind(ws[0]);
    SuperValue(ws[0]);
    TableFirst("--iptable=" + table, table, [SUPER + ws[0]] + ws[1..], NONE);
    SuperFirst(SUPER + ws[0], ws[1..], NONE.(iptable := table));
  }

  lemma StripShortensIff(w: string)
    ensures if Contains(w, SUPER) then |Stripped(w)| < |w| else Stripped(w) == w
  {
  }

  lemma StripTail(ws: seq<string>, i: nat)
    requires i < |ws|
    ensures var us := [ws[0]] + StripAll(ws[1..]);
            us[i] == if i == 0 then ws[0] else Stripped(ws[i])
  {
  }

  lemma StripShrinks(ws: seq<string>, k: nat)
    requires 1 <= k < |ws| && |Stripped(ws[k])| < |ws[k]|
    ensures |Join([ws[0]] + StripAll(ws[1..]), " ")| < |Join(ws, " ")|
  {
    var us := [ws[0]] + StripAll(ws[1..]);
    forall i | 0 <= i < |ws|
      ensures |us[i]| <= |ws[i]|
    {
      StripTail(ws, i);
      StripShortensIff(ws[i]);
    }
    assert |us[k]| < |ws[k]| by { StripTail(ws, k); }
    ShorterWords(us, ws);
  }

  lemma StripKeeps(ws: seq<string>)
    requires ws != [] && forall i :: 1 <= i < |ws| ==> !Contains(ws[i], SUPER)
    ensures [ws[0]] + StripAll(ws[1..]) == ws
  {
    forall i | 1 <= i < |ws|
      ensures Stripped(ws[i]) == ws[i]
    {
      StripShortensIff(ws[i]);
    }
  }

  /** `--supercmd` carries every word, options included, if and only if no later word repeats `--supercmd=`. */
  lemma SuperSurvivesIff(table: string, ws: seq<string>)
    requires IsWord(table) && AllWords(ws) && ws != []
    ensures Parse(Resplit(["--iptable=" + table, SUPER + Join(ws, " ")]), NONE)
            == Go(NONE.(iptable := table, cmd := Join(ws, " ")))
            <==> forall i :: 1 <= i < |ws| ==> !Contains(ws[i], SUPER)
  {
    SuperCall(table, ws);
    if k :| 1 <= k < |ws| && Contains(ws[k], SUPER) {
      StripShortensIff(ws[k]);
      StripShrinks(ws, k);
    } else {
      StripKeeps(ws);
    }
  }
}
