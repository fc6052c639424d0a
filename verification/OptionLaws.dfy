/** What the options of multexu.sh set, in any order and number, and the calls that send files. */
module OptionLaws {
  import opened Shell
  import opened Addresses
  import opened Options
  import opened Dispatch

  // ---------- Options with a value ----------

  ghost predicate Named(a: string, short: string, long: string) {
    Given(a, short) || Given(a, long)
  }

  /** The text after the name and its equals sign. */
  ghost function TextAfter(a: string, short: string, long: string): string
    requires Named(a, short, long)
  {
    if Given(a, short) then a[|short| + 1..] else a[|long| + 1..]
  }

  /** The value that the last argument of that name gives, or `default` if there is none. */
  ghost function Last(args: seq<string>, short: string, long: string, default: string): string {
    if args == [] then default
    else Last(args[1..], short, long, if Named(args[0], short, long) then TextAfter(args[0], short, long) else default)
  }

  lemma {:induction false} LastMeans(args: seq<string>, short: string, long: string, default: string, i: nat)
    requires i < |args| && Named(args[i], short, long)
    requires forall j :: i < j < |args| ==> !Named(args[j], short, long)
    ensures Last(args, short, long, default) == TextAfter(args[i], short, long)
    decreases |args|
  {
    var d := if Named(args[0], short, long) then TextAfter(args[0], short, long) else default;
    if i == 0 {
      NoneLast(args[1..], short, long, d);
    } else {
      LastMeans(args[1..], short, long, d, i - 1);
    }
  }

  lemma {:induction false} NoneLast(args: seq<string>, short: string, long: string, default: string)
    requires forall j :: 0 <= j < |args| ==> !Named(args[j], short, long)
    ensures Last(args, short, long, default) == default
  {
    if args != [] {
      NoneLast(args[1..], short, long, default);
    }
  }

  ghost predicate IsLocation(a: string) { Named(a, "-l", "--location") }

  ghost predicate IsFiles(a: string) { Named(a, "-s", "--sendfile") }

  ghost predicate IsTable(a: string) { Named(a, "-i", "--iptable") }

  ghost predicate IsReboot(a: string) { a == "-r" || a == "--reboot" }

  /** An argument that sets something and lets the loop go on. */
  ghost predicate IsSetting(a: string) {
    IsLocation(a) || IsFiles(a) || IsTable(a) || IsReboot(a)
  }

  lemma ValueIsText(a: string, name: string)
    requires Given(a, name) && forall i :: 0 <= i < |name| ==> name[i] != '='
    ensures ValueOf(a) == a[|name| + 1..]
  {
    var value := a[|name| + 1..];
    assert a == name + "=" + value;
    ValueAfter(name, value);
  }

  lemma LocationKind(a: string)
    requires IsLocation(a)
    ensures KindOf(a) == Location(TextAfter(a, "-l", "--location")) && !IsFiles(a) && !IsTable(a) && !IsReboot(a)
  {
    if Given(a, "-l") {
      ValueIsText(a, "-l");
      assert a[1] == 'l';
    } else {
      ValueIsText(a, "--location");
      LongIsNotShort(a);
      assert a[2] == 'l';
    }
  }

  lemma FilesKind(a: string)
    requires IsFiles(a)
    ensures KindOf(a) == Files(TextAfter(a, "-s", "--sendfile")) && !IsLocation(a) && !IsTable(a) && !IsReboot(a)
  {
    if Given(a, "-s") {
      ValueIsText(a, "-s");
      assert a[1] == 's';
    } else {
      ValueIsText(a, "--sendfile");
      LongIsNotShort(a);
      assert a[2] == 's';
    }
  }

  lemma AnyTableKind(a: string)
    requires IsTable(a)
    ensures KindOf(a) == Table(TextAfter(a, "-i", "--iptable")) && !IsLocation(a) && !IsFiles(a) && !IsReboot(a)
  {
    if Given(a, "-i") {
      ValueIsText(a, "-i");
      assert a[1] == 'i';
    } else {
      ValueIsText(a, "--iptable");
      LongIsNotShort(a);
      LongBy(a, 'i');
      assert a[2] == 'i';
    }
  }

  lemma RebootKinds(a: string)
    requires IsReboot(a)
    ensures KindOf(a) == Reboot && !IsLocation(a) && !IsFiles(a) && !IsTable(a)
  {
    if a == "-r" {
      assert a[1] == 'r';
    } else {
      LongIsNotShort(a);
      LongBy(a, 'r');
      assert a[2] == 'r';
    }
  }

  /** What a list of settings makes of `o`: for each option the last one counts. */
  ghost function Settled(args: seq<string>, o: Options): Options {
    o.(iptable := Last(args, "-i", "--iptable", o.iptable),
       files := Last(args, "-s", "--sendfile", o.files),
       location := Last(args, "-l", "--location", o.location),
       reboot := o.reboot || exists i :: 0 <= i < |args| && IsReboot(args[i]))
  }

  /** What one setting makes of `o`. */
  ghost function SetBy(a: string, o: Options): Options {
    o.(iptable := if IsTable(a) then TextAfter(a, "-i", "--iptable") else o.iptable,
       files := if IsFiles(a) then TextAfter(a, "-s", "--sendfile") else o.files,
       location := if IsLocation(a) then TextAfter(a, "-l", "--location") else o.location,
       reboot := o.reboot || IsReboot(a))
  }

  /** One round of the loop per kind of setting. */
  lemma RoundOf(a: string, rest: seq<string>, o: Options)
    ensures KindOf(a).Location? ==> Parse([a] + rest, o) == Parse(rest, o.(location := KindOf(a).v))
    ensures KindOf(a).Files? ==> Parse([a] + rest, o) == Parse(rest, o.(files := KindOf(a).v))
    ensures KindOf(a).Table? ==> Parse([a] + rest, o) == Parse(rest, o.(iptable := KindOf(a).v))
    ensures KindOf(a).Reboot? ==> Parse([a] + rest, o) == Parse(rest, o.(reboot := true))
  {
    assert ([a] + rest)[1..] == rest;
  }

  lemma OneSetting(a: string, rest: seq<string>, o: Options)
    requires IsSetting(a)
    ensures Parse([a] + rest, o) == Parse(rest, SetBy(a, o))
  {
    RoundOf(a, rest, o);
    if IsLocation(a) {
      LocationKind(a);
    } else if IsFiles(a) {
      FilesKind(a);
    } else if IsTable(a) {
      AnyTableKind(a);
    } else {
      RebootKinds(a);
    }
  }

  lemma LastCons(a: string, args: seq<string>, short: string, long: string, default: string)
    ensures Last([a] + args, short, long, default)
            == Last(args, short, long, if Named(a, short, long) then TextAfter(a, short, long) else default)
  {
    assert ([a] + args)[1..] == args;
  }

  lemma RebootCons(a: string, args: seq<string>)
    ensures (exists i :: 0 <= i < |[a] + args| && IsReboot(([a] + args)[i]))
            <==> IsReboot(a) || exists i :: 0 <= i < |args| && IsReboot(args[i])
  {
    var all := [a] + args;
    if IsReboot(a) {
      assert IsReboot(all[0]);
    } else if i :| 0 <= i < |args| && IsReboot(args[i]) {
      assert IsReboot(all[i + 1]);
    }
    if i :| 0 <= i < |all| && IsReboot(all[i]) {
      assert i > 0 ==> all[i] == args[i - 1];
    }
  }

  lemma SettledCons(a: string, args: seq<string>, o: Options)
    ensures Settled([a] + args, o) == Settled(args, SetBy(a, o))
  {
    LastCons(a, args, "-i", "--iptable", o.iptable);
    LastCons(a, args, "-s", "--sendfile", o.files);
    LastCons(a, args, "-l", "--location", o.location);
    RebootCons(a, args);
  }

  ghost predicate AllSettings(args: seq<string>) {
    forall i :: 0 <= i < |args| ==> IsSetting(args[i])
  }

  /** Settings in any order and number take effect, the last of each kind, and the loop goes on behind them. */
  lemma {:induction false} SettingsParse(args: seq<string>, rest: seq<string>, o: Options)
    requires AllSettings(args)
    ensures Parse(args + rest, o) == Parse(rest, Settled(args, o))
    decreases |args|
  {
    if args == [] {
      assert args + rest == rest;
      assert Settled(args, o) == o;
    } else {
      var a, tail := args[0], args[1..];
      assert args == [a] + tail && args + rest == [a] + (tail + rest);
      OneSetting(a, tail + rest, o);
      SettingsParse(tail, rest, SetBy(a, o));
      SettledCons(a, tail, o);
    }
  }

  // ---------- Arguments that end the loop ----------

  lemma StopsAt(a: string, rest: seq<string>, o: Options)
    ensures KindOf(a).Help? || KindOf(a).Version? ==> Parse([a] + rest, o) == Exit(0)
    ensures KindOf(a).NoLocation? || KindOf(a).NoFiles? || KindOf(a).NoCommand? || KindOf(a).NoTable? ==>
              Parse([a] + rest, o) == Exit(1)
    ensures KindOf(a).End? ==> Parse([a] + rest, o) == Go(o)
    ensures KindOf(a).Define? ==>
              Parse([a] + rest, o) == if rest == [] || rest[0] == "" then Exit(1) else Parse(rest, o)
  {
    assert ([a] + rest)[1..] == rest;
  }

  ghost predicate AsksForText(a: string) {
    a == "-h" || a == "-?" || a == "--help" || a == "-v" || a == "--version"
  }

  ghost predicate LacksValue(a: string) {
    || a == "-l=" || a == "--location=" || a == "-s" || a == "--sendfile="
    || a == "-c" || a == "--cmd=" || a == "-i=" || a == "--iptable="
  }

  lemma VersionKind(a: string)
    requires a == "-v" || a == "--version"
    ensures KindOf(a) == Version
  {
    if a == "-v" {
      assert a[1] == 'v' && |a| == 2;
    } else {
      LongKind(a, 'v');
    }
  }

  /** A long option is decided by its third character. */
  lemma LongKind(a: string, c: char)
    requires "--" < a && a[2] == c
    ensures a != "-l=" && a != "-s" && a != "-u" && a != "-c" && a != "-i=" && a != "-h" && a != "-?" && a != "-v"
    ensures !Given(a, "-l") && !Given(a, "-s") && !Given(a, "-c") && !Given(a, "-i")
    ensures c != 'h' ==> a != "--help"
    ensures c != 'l' ==> !Given(a, "--location") && a != "--location="
    ensures c != 's' ==> !Given(a, "--sendfile") && a != "--sendfile=" && !Given(a, "--supercmd")
    ensures c != 'u' ==> a != "--udefine"
    ensures c != 'c' ==> !Given(a, "--cmd") && a != "--cmd="
    ensures c != 'i' ==> !Given(a, "--iptable") && a != "--iptable="
  {
    assert a[1] == '-';
  }

  lemma ShortLacks(a: string)
    requires a == "-l=" || a == "-s" || a == "-c" || a == "-i="
    ensures KindOf(a) == if a == "-l=" then NoLocation else if a == "-s" then NoFiles
                         else if a == "-c" then NoCommand else NoTable
  {
    assert |a| <= 3 && a[1] != '-';
  }

  lemma LongLacks(a: string)
    requires a == "--location=" || a == "--sendfile="
    ensures KindOf(a) == if a == "--location=" then NoLocation else NoFiles
  {
    LongKind(a, a[2]);
  }

  lemma LongLacksMore(a: string)
    requires a == "--cmd=" || a == "--iptable="
    ensures KindOf(a) == if a == "--cmd=" then NoCommand else NoTable
  {
    LongKind(a, a[2]);
  }

  /** Help and version end the script well, an option without its value badly, whatever was set before. */
  lemma ExitingArgument(args: seq<string>, a: string, rest: seq<string>)
    requires AllSettings(args)
    ensures AsksForText(a) ==> Parse(args + ([a] + rest), NONE) == Exit(0)
    ensures LacksValue(a) ==> Parse(args + ([a] + rest), NONE) == Exit(1)
  {
    SettingsParse(args, [a] + rest, NONE);
    StopsAt(a, rest, Settled(args, NONE));
    ExitKinds(a);
  }

  lemma ExitKinds(a: string)
    ensures AsksForText(a) ==> KindOf(a).Help? || KindOf(a).Version?
    ensures LacksValue(a) ==> KindOf(a).NoLocation? || KindOf(a).NoFiles? || KindOf(a).NoCommand? || KindOf(a).NoTable?
  {
    if a == "-v" || a == "--version" {
      VersionKind(a);
    } else if a == "-l=" || a == "-s" || a == "-c" || a == "-i=" {
      ShortLacks(a);
    } else if a == "--location=" || a == "--sendfile=" {
      LongLacks(a);
    } else if a == "--cmd=" || a == "--iptable=" {
      LongLacksMore(a);
    }
  }

  lemma DashFirst(a: string, name: string)
    requires "-" <= name && (a == "" || a[0] != '-' || a == "-")
    ensures !Given(a, name) && (|name| > 1 ==> a != name)
  {
  }

  lemma NoOption(a: string)
    requires a == "" || a[0] != '-' || a == "-"
    ensures KindOf(a) == End
  {
    DashFirst(a, "-l");
    DashFirst(a, "--location");
    DashFirst(a, "-s");
    DashFirst(a, "--sendfile");
    DashFirst(a, "--supercmd");
    DashFirst(a, "-c");
    DashFirst(a, "--cmd");
    DashFirst(a, "-i");
    DashFirst(a, "--iptable");
    assert |a| > 1 ==> a[0] != '-';
  }

  /** A word that is no option ends the loop with what was set before it. */
  lemma PlainArgument(args: seq<string>, a: string, rest: seq<string>)
    requires AllSettings(args) && (a == "" || a[0] != '-' || a == "-")
    ensures Parse(args + ([a] + rest), NONE) == Go(Settled(args, NONE))
  {
    SettingsParse(args, [a] + rest, NONE);
    NoOption(a);
    StopsAt(a, rest, Settled(args, NONE));
  }

  lemma DefineKind(a: string)
    requires a == "-u" || a == "--udefine"
    ensures KindOf(a) == Define
  {
    if a == "--udefine" {
      LongKindOfDefine(a);
    } else {
      assert a[1] == 'u';
    }
  }

  lemma LongKindOfDefine(a: string)
    requires a == "--udefine"
    ensures !Given(a, "-l") && !Given(a, "-s") && a != "--help" && !Given(a, "--location") && !Given(a, "--sendfile")
  {
    LongKind(a, 'u');
  }

  /** `-u` needs a next argument and leaves it in place, to be read as an argument of its own. */
  lemma DefineArgument(args: seq<string>, a: string, rest: seq<string>)
    requires AllSettings(args) && (a == "-u" || a == "--udefine")
    ensures Parse(args + ([a] + rest), NONE)
            == if rest == [] || rest[0] == "" then Exit(1) else Parse(rest, Settled(args, NONE))
  {
    SettingsParse(args, [a] + rest, NONE);
    DefineKind(a);
    StopsAt(a, rest, Settled(args, NONE));
  }

  ghost predicate Known(a: string) {
    || IsSetting(a) || AsksForText(a) || LacksValue(a) || a == "-u" || a == "--udefine"
    || Named(a, "-c", "--cmd") || Given(a, "--supercmd")
  }

  /** An unknown option is skipped. */
  lemma UnknownArgument(args: seq<string>, a: string, rest: seq<string>)
    requires AllSettings(args) && "-" < a && !Known(a)
    ensures Parse(args + ([a] + rest), NONE) == Parse(rest, Settled(args, NONE))
  {
    SettingsParse(args, [a] + rest, NONE);
    assert KindOf(a) == Ignored;
    assert ([a] + rest)[1..] == rest;
  }

  // ---------- Short forms ----------

  lemma SameKind(a: string, b: string, rest: seq<string>, o: Options)
    requires KindOf(a) == KindOf(b) && !KindOf(a).Super?
    ensures Parse([a] + rest, o) == Parse([b] + rest, o)
  {
    assert ([a] + rest)[1..] == rest && ([b] + rest)[1..] == rest;
    if KindOf(a).Command? {
      assert ([a] + rest)[1 + Swallowed(rest)..] == ([b] + rest)[1 + Swallowed(rest)..];
    }
  }

  lemma ShortCommandKind(w: string)
    requires w != ""
    ensures KindOf("-c=" + w) == Command(w)
  {
    var a := "-c=" + w;
    assert a == "-c" + "=" + w && a[1] == 'c';
    ValueAfter("-c", w);
  }

  lemma SameSetting(a: string, b: string, rest: seq<string>, o: Options)
    requires IsSetting(a) && IsSetting(b) && SetBy(a, o) == SetBy(b, o)
    ensures Parse([a] + rest, o) == Parse([b] + rest, o)
  {
    OneSetting(a, rest, o);
    OneSetting(b, rest, o);
  }

  /** Each short option does what its long form does. */
  lemma ShortCommand(v: string, rest: seq<string>, o: Options)
    requires v != ""
    ensures Parse(["-c=" + v] + rest, o) == Parse(["--cmd=" + v] + rest, o)
  {
    ShortCommandKind(v);
    CommandKind(v);
    SameKind("-c=" + v, "--cmd=" + v, rest, o);
  }

  lemma ShortTable(v: string, rest: seq<string>, o: Options)
    requires v != ""
    ensures Parse(["-i=" + v] + rest, o) == Parse(["--iptable=" + v] + rest, o)
  {
    var a, b := "-i=" + v, "--iptable=" + v;
    assert a[3..] == v && b[10..] == v && b[1] == '-';
    AnyTableKind(a);
    AnyTableKind(b);
    SameSetting(a, b, rest, o);
  }

  lemma ShortFiles(v: string, rest: seq<string>, o: Options)
    requires v != ""
    ensures Parse(["-s=" + v] + rest, o) == Parse(["--sendfile=" + v] + rest, o)
  {
    var a, b := "-s=" + v, "--sendfile=" + v;
    assert a[3..] == v && b[11..] == v && b[1] == '-';
    FilesKind(a);
    FilesKind(b);
    SameSetting(a, b, rest, o);
  }

  lemma ShortLocation(v: string, rest: seq<string>, o: Options)
    requires v != ""
    ensures Parse(["-l=" + v] + rest, o) == Parse(["--location=" + v] + rest, o)
  {
    var a, b := "-l=" + v, "--location=" + v;
    assert a[3..] == v && b[11..] == v && b[1] == '-';
    LocationKind(a);
    LocationKind(b);
    SameSetting(a, b, rest, o);
  }

  lemma ShortReboot(rest: seq<string>, o: Options)
    ensures Parse(["-r"] + rest, o) == Parse(["--reboot"] + rest, o)
  {
    RebootKinds("-r");
    RebootKinds("--reboot");
    SameSetting("-r", "--reboot", rest, o);
  }

  // ---------- Sending files ----------

  lemma {:induction false} ResplitKeeps(args: seq<string>)
    requires AllWords(args)
    ensures Resplit(args) == args
  {
    if args != [] {
      ResplitKeeps(args[1..]);
      WordsOfJoin([args[0]], ' ');
      assert Join([args[0]], " ") == args[0];
      assert [args[0]] + args[1..] == args;
    }
  }

  ghost predicate FileNames(files: seq<string>) {
    files != [] && AllWords(files) && forall i :: 0 <= i < |files| ==> Free(files[i], ',')
  }

  lemma FileFields(files: seq<string>)
    requires FileNames(files)
    ensures Nonempty(CommaFields(Join(files, ","))) == files && Join(files, ",") != ""
  {
    SplitOfJoin(files, ',');
    NonemptyKeeps(files);
    assert |files[0]| > 0;
  }

  ghost predicate OnlySends(args: seq<string>) {
    forall i :: 0 <= i < |args| ==> IsLocation(args[i]) || IsFiles(args[i]) || IsTable(args[i])
  }

  lemma SendsReboot(args: seq<string>)
    requires OnlySends(args)
    ensures AllSettings(args) && !Settled(args, NONE).reboot
  {
    forall i | 0 <= i < |args|
      ensures !IsReboot(args[i])
    {
      NotReboot(args[i]);
    }
  }

  lemma NotReboot(a: string)
    requires IsLocation(a) || IsFiles(a) || IsTable(a)
    ensures !IsReboot(a)
  {
    if IsLocation(a) {
      LocationKind(a);
    } else if IsFiles(a) {
      FilesKind(a);
    } else {
      AnyTableKind(a);
    }
  }

  lemma SendsParse(args: seq<string>)
    requires AllWords(args) && OnlySends(args)
    ensures Parse(Resplit(args), NONE) == Go(Settled(args, NONE)) && !Settled(args, NONE).reboot
    ensures SpaceFree(Settled(args, NONE).files) && Settled(args, NONE).cmd == ""
  {
    SendsReboot(args);
    ResplitKeeps(args);
    SettingsParse(args, [], NONE);
    assert args + [] == args;
    FilesAreSpaceFree(args, NONE);
  }

  /** Calls with tables, files and locations only. */
  lemma SendsOf(args: seq<string>, files: seq<string>, location: string, config: string -> string)
    requires AllWords(args) && OnlySends(args)
    requires FileNames(files) && Last(args, "-s", "--sendfile", "") == Join(files, ",")
    requires location != "" && Last(args, "-l", "--location", "") == location
    ensures var ips := Dispatch.Targets(Settled(args, NONE), config);
            Script(args, config) == if AllValid(ips) then Result(ScpAll(files, ips, location), 0) else Result([], 1)
  {
    SendsParse(args);
    FileFields(files);
    ActSends(Settled(args, NONE), files, config);
  }

  lemma ActSends(o: Options, files: seq<string>, config: string -> string)
    requires !o.reboot && o.cmd == "" && o.location != "" && o.files == Join(files, ",") && SpaceFree(o.files)
    requires FileNames(files)
    ensures var ips := Dispatch.Targets(o, config);
            Act(o, config) == if AllValid(ips) then Result(ScpAll(files, ips, o.location), 0) else Result([], 1)
  {
    FileFields(files);
    ActOnTargets(o, config);
    var ips := Dispatch.Targets(o, config);
    assert [] + ScpAll(files, ips, o.location) == ScpAll(files, ips, o.location);
  }

  lemma OnlyOne(args: seq<string>, short: string, long: string, i: nat)
    requires i < |args| && Named(args[i], short, long)
    requires forall j :: 0 <= j < |args| && j != i ==> !Named(args[j], short, long)
    ensures Last(args, short, long, "") == TextAfter(args[i], short, long)
  {
    LastMeans(args, short, long, "", i);
  }

  lemma Disjoint(t: string, s: string, l: string)
    requires IsTable(t) && IsFiles(s) && IsLocation(l)
    ensures !IsFiles(t) && !IsLocation(t) && !IsTable(s) && !IsLocation(s) && !IsTable(l) && !IsFiles(l)
    ensures TextAfter(t, "-i", "--iptable") != "" && TextAfter(l, "-l", "--location") != ""
  {
    AnyTableKind(t);
    FilesKind(s);
    LocationKind(l);
  }

  lemma ThreeSettings(args: seq<string>, t: nat, s: nat, l: nat)
    requires |args| == 3 && t < 3 && s < 3 && l < 3 && t != s && s != l && t != l
    requires IsTable(args[t]) && IsFiles(args[s]) && IsLocation(args[l])
    ensures OnlySends(args)
    ensures Last(args, "-i", "--iptable", "") == TextAfter(args[t], "-i", "--iptable") != ""
    ensures Last(args, "-s", "--sendfile", "") == TextAfter(args[s], "-s", "--sendfile")
    ensures Last(args, "-l", "--location", "") == TextAfter(args[l], "-l", "--location") != ""
  {
    Disjoint(args[t], args[s], args[l]);
    OnlyOne(args, "-i", "--iptable", t);
    OnlyOne(args, "-s", "--sendfile", s);
    OnlyOne(args, "-l", "--location", l);
  }

  /** `--iptable`, `--sendfile` and `--location`, short or long, in any order: each file goes to each address, in
      order, with exit status 0; or, if an address is invalid, nothing goes anywhere. */
  lemma FilesReachExactly(args: seq<string>, t: nat, s: nat, l: nat, files: seq<string>, config: string -> string)
    requires |args| == 3 && AllWords(args) && t < 3 && s < 3 && l < 3 && t != s && s != l && t != l
    requires IsTable(args[t]) && IsFiles(args[s]) && IsLocation(args[l])
    requires FileNames(files) && TextAfter(args[s], "-s", "--sendfile") == Join(files, ",")
    ensures var table, location := TextAfter(args[t], "-i", "--iptable"), TextAfter(args[l], "-l", "--location");
            var ips := Nonempty(IpArray(table, config));
            Script(args, config) == if AllValid(ips) then Result(ScpAll(files, ips, location), 0) else Result([], 1)
  {
    ThreeSettings(args, t, s, l);
    SendsOf(args, files, TextAfter(args[l], "-l", "--location"), config);
  }

  /** An option in its long or short form, as a word. */
  ghost function Form(long: bool, short: string, name: string, v: string): string {
    (if long then name else short) + "=" + v
  }

  lemma FormMeans(long: bool, short: string, name: string, v: string)
    requires IsWord(v) && IsWord(short) && IsWord(name) && |short| == 2 && "--" < name && short[1] != '-'
    ensures var a := Form(long, short, name, v);
            IsWord(a) && Named(a, short, name) && TextAfter(a, short, name) == v
  {
    var a := Form(long, short, name, v);
    if long {
      assert a[1] == '-';
      assert a[|name| + 1..] == v;
    } else {
      assert a[3..] == v;
    }
  }

  /** The same on the texts of a call, each option in either form and the last two in either order. */
  lemma SendCall(table: string, files: seq<string>, location: string, config: string -> string,
                 longT: bool, longS: bool, longL: bool, swap: bool)
    requires IsWord(table) && IsWord(location) && FileNames(files) && IsWord(Join(files, ","))
    ensures var t, s, l := Form(longT, "-i", "--iptable", table), Form(longS, "-s", "--sendfile", Join(files, ",")),
                           Form(longL, "-l", "--location", location);
            var ips := Nonempty(IpArray(table, config));
            Script(if swap then [t, l, s] else [t, s, l], config)
            == if AllValid(ips) then Result(ScpAll(files, ips, location), 0) else Result([], 1)
  {
    var t, s, l := Form(longT, "-i", "--iptable", table), Form(longS, "-s", "--sendfile", Join(files, ",")),
                   Form(longL, "-l", "--location", location);
    FormMeans(longT, "-i", "--iptable", table);
    FormMeans(longS, "-s", "--sendfile", Join(files, ","));
    FormMeans(longL, "-l", "--location", location);
    if swap {
      FilesReachExactly([t, l, s], 0, 2, 1, files, config);
    } else {
      FilesReachExactly([t, s, l], 0, 1, 2, files, config);
    }
  }
}
