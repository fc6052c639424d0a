/** From the parsed options of multexu.sh to the ssh and scp commands it issues. */
module Dispatch {
  import opened Common
  import opened Shell
  import opened Addresses
  import Decimal
  import opened Options

  datatype Action = Ssh(ip: string, cmd: string) | Scp(file: string, ip: string, location: string)

  /** What the script did, and its exit status. */
  datatype Result = Result(trace: seq<Action>, code: nat)

  // ---------- The address list ----------

  /** `[[:space:]]` */
  predicate IsBlank(c: char) {
    IsSpace(c) || c == '\r' || c == '\U{B}' || c == '\U{C}'
  }

  /** `sed s/[[:space:]]//g` */
  function Unspaced(s: string): (r: string)
    ensures SpaceFree(r)
  {
    if s == "" then "" else if IsBlank(s[0]) then Unspaced(s[1..]) else [s[0]] + Unspaced(s[1..])
  }

  lemma {:induction false} UnspacedOfConcat(s: string, t: string)
    ensures Unspaced(s + t) == Unspaced(s) + Unspaced(t)
    decreases |s|
  {
    if s == "" {
      assert s + t == t;
    } else {
      assert (s + t)[1..] == s[1..] + t;
      UnspacedOfConcat(s[1..], t);
    }
  }

  /** Whitespace goes and nothing else does, wherever it stands. */
  lemma UnspacedDropsBlanks(s: string, c: char, t: string)
    ensures var blank := c == ' ' || c == '\t' || c == '\n' || c == '\r' || c == '\U{B}' || c == '\U{C}';
            Unspaced(s + [c] + t) == Unspaced(s) + (if blank then "" else [c]) + Unspaced(t)
  {
    UnspacedOfConcat(s + [c], t);
    UnspacedOfConcat(s, [c]);
    assert [c][1..] == "";
  }

  function UnspacedAll(ws: seq<string>): (r: seq<string>)
    ensures |r| == |ws| && forall i :: 0 <= i < |r| ==> SpaceFree(r[i])
  {
    seq(|ws|, i requires 0 <= i < |ws| => Unspaced(ws[i]))
  }

  /** Field splitting with IFS set to a comma: a comma at the very end closes no further field. */
  function CommaFields(s: string): seq<string> {
    var f := Split(s, ',');
    if f[|f| - 1] == "" then f[..|f| - 1] else f
  }

  /** `iptable_to_ip_array`; `config` gives the contents of a table file. */
  function IpArray(iptable: string, config: string -> string): seq<string> {
    if Contains(iptable, ".out") then UnspacedAll(Words(config(iptable))) else CommaFields(Unspaced(iptable))
  }

  /** `$@` into a variable, then unquoted: empty entries disappear. */
  function Entries(list: seq<string>): seq<string> {
    Words(Join(list, " "))
  }

  function Nonempty(ws: seq<string>): seq<string> {
    if ws == [] then [] else (if ws[0] == "" then [] else [ws[0]]) + Nonempty(ws[1..])
  }

  lemma {:induction false} NonemptyKeeps(ws: seq<string>)
    requires AllWords(ws)
    ensures Nonempty(ws) == ws
  {
    if ws != [] {
      NonemptyKeeps(ws[1..]);
    }
  }

  lemma {:induction false} EntriesAreNonempty(list: seq<string>)
    requires forall i :: 0 <= i < |list| ==> SpaceFree(list[i])
    ensures Entries(list) == Nonempty(list)
    decreases |list|
  {
    if list == [] {
    } else if |list| == 1 {
      ReadWord("", list[0], "");
      assert list[0] + "" == list[0] && "" + list[0] == list[0];
      assert list[1..] == [] && Nonempty([]) == [];
    } else {
      var rest := Join(list[1..], " ");
      EntriesAreNonempty(list[1..]);
      assert list[0] + " " + rest == list[0] + (" " + rest) && "" + list[0] == list[0];
      ReadWord("", list[0], " " + rest);
      assert (" " + rest)[1..] == rest;
    }
  }

  // ---------- The loops ----------

  predicate AllValid(ips: seq<string>) {
    forall i :: 0 <= i < |ips| ==> IsValidIp(ips[i])
  }

  /** `check_ip_array`: 1 at the first invalid entry, otherwise 0. */
  method CheckIpArray(ips: seq<string>) returns (code: nat)
    ensures code == if AllValid(ips) then 0 else 1
  {
    for i := 0 to |ips|
      invariant AllValid(ips[..i])
    {
      if !IsValidIp(ips[i]) {
        return 1;
      }
      assert ips[..i + 1] == ips[..i] + [ips[i]];
    }
    assert ips[..|ips|] == ips;
    code := 0;
  }

  function SshAll(cmd: string, ips: seq<string>): (t: seq<Action>)
    ensures |t| == |ips| && forall i :: 0 <= i < |t| ==> t[i] == Ssh(ips[i], cmd)
  {
    seq(|ips|, i requires 0 <= i < |ips| => Ssh(ips[i], cmd))
  }

  /** `execute_sshcmd` */
  method ExecuteSshCmd(cmd: string, ips: seq<string>) returns (trace: seq<Action>)
    ensures trace == SshAll(cmd, ips)
  {
    trace := [];
    for i := 0 to |ips|
      invariant trace == SshAll(cmd, ips[..i])
    {
      trace := trace + [Ssh(ips[i], cmd)];
    }
    assert ips[..|ips|] == ips;
  }

  function ScpAll(files: seq<string>, ips: seq<string>, location: string): seq<Action> {
    if files == [] then []
    else ScpAll(files[..|files| - 1], ips, location) + ScpOne(files[|files| - 1], ips, location)
  }

  function ScpOne(file: string, ips: seq<string>, location: string): (t: seq<Action>)
    ensures |t| == |ips| && forall i :: 0 <= i < |t| ==> t[i] == Scp(file, ips[i], location)
  {
    seq(|ips|, i requires 0 <= i < |ips| => Scp(file, ips[i], location))
  }

  /** `sendfiles`: two nested loops. */
  method SendFiles(files: seq<string>, ips: seq<string>, location: string) returns (trace: seq<Action>)
    ensures trace == ScpAll(files, ips, location)
  {
    trace := [];
    for f := 0 to |files|
      invariant trace == ScpAll(files[..f], ips, location)
    {
      ghost var before := trace;
      for i := 0 to |ips|
        invariant trace == before + ScpOne(files[f], ips[..i], location)
      {
        assert ScpOne(files[f], ips[..i + 1], location)
            == ScpOne(files[f], ips[..i], location) + [Scp(files[f], ips[i], location)];
        trace := trace + [Scp(files[f], ips[i], location)];
      }
      assert ips[..|ips|] == ips;
      assert files[..f + 1][..f] == files[..f];
    }
    assert files[..|files|] == files;
  }

  /** Files go to exactly the file-by-address product, file by file and address by address. */
  lemma {:induction false} ScpIsProduct(files: seq<string>, ips: seq<string>, location: string, f: nat, i: nat)
    ensures |ScpAll(files, ips, location)| == |files| * |ips|
    ensures f < |files| && i < |ips| ==>
              f * |ips| + i < |files| * |ips|
              && ScpAll(files, ips, location)[f * |ips| + i] == Scp(files[f], ips[i], location)
    decreases |files|
  {
    if files != [] {
      var front, n := files[..|files| - 1], |files| - 1;
      ScpIsProduct(front, ips, location, f, i);
      assert |files| * |ips| == n * |ips| + |ips|;
      if f < n && i < |ips| {
        assert front[f] == files[f];
      }
    }
  }

  // ---------- The whole script ----------

  /** What follows the option loop. */
  function Act(o: Options, config: string -> string): Result {
    var list := if o.iptable != "" then IpArray(o.iptable, config) else [];
    var ips := Entries(list);
    if !AllValid(ips) then Result([], 1)
    else if !o.reboot && o.cmd == "" && o.files == "" then Result([], 1)
    else
      var ssh := if o.reboot then SshAll("reboot", ips) else if o.cmd != "" then SshAll(o.cmd, ips) else [];
      if o.files == "" then Result(ssh, 0)
      else if o.location == "" then Result(ssh, 1)
      else Result(ssh + ScpAll(Entries(CommaFields(o.files)), ips, o.location), 0)
  }

  /** The script as a function of its arguments and the table files. */
  function Script(argv: seq<string>, config: string -> string): Result {
    match Parse(Resplit(argv), NONE)
    case Exit(code) => Result([], code)
    case Go(o) => Act(o, config)
  }

  method Multexu(argv: seq<string>, config: string -> string) returns (r: Result)
    ensures r == Script(argv, config)
  {
    var out := GetParameters(Resplit(argv));
    if out.Exit? {
      return Result([], out.code);
    }
    var o := out.o;
    var ips := [];
    assert Entries([]) == [];
    if o.iptable != "" {
      ips := Entries(IpArray(o.iptable, config));
      var retval := CheckIpArray(ips);
      if retval != 0 {
        return Result([], 1);
      }
    }
    if !o.reboot && o.cmd == "" && o.files == "" {
      return Result([], 1);
    }
    var trace := [];
    if o.reboot {
      trace := ExecuteSshCmd("reboot", ips);
    } else if o.cmd != "" {
      trace := ExecuteSshCmd(o.cmd, ips);
    }
    if o.files != "" {
      if o.location == "" {
        return Result(trace, 1);
      }
      var sent := SendFiles(Entries(CommaFields(o.files)), ips, o.location);
      trace := trace + sent;
    }
    r := Result(trace, 0);
  }

  // ---------- All or nothing ----------

  lemma {:induction false} FieldsAreSpaceFree(s: string, c: char)
    requires SpaceFree(s)
    ensures forall i :: 0 <= i < |Split(s, c)| ==> SpaceFree(Split(s, c)[i])
  {
    if s != "" {
      FieldsAreSpaceFree(s[1..], c);
    }
  }

  lemma IpArrayIsSpaceFree(iptable: string, config: string -> string)
    ensures forall i :: 0 <= i < |IpArray(iptable, config)| ==> SpaceFree(IpArray(iptable, config)[i])
  {
    FieldsAreSpaceFree(Unspaced(iptable), ',');
  }

  /** The nonempty addresses of the table. */
  function Targets(o: Options, config: string -> string): seq<string> {
    if o.iptable == "" then [] else Nonempty(IpArray(o.iptable, config))
  }

  lemma {:induction false} WordsAreWords(current: string, s: string)
    requires SpaceFree(current)
    ensures AllWords(WordsFrom(current, s))
    decreases |s|
  {
    if s != "" {
      WordsAreWords("", s[1..]);
      if !IsSpace(s[0]) {
        WordsAreWords(current + [s[0]], s[1..]);
      }
    }
  }

  lemma {:induction false} ArgumentsAreWords(argv: seq<string>)
    ensures AllWords(Resplit(argv))
  {
    if argv != [] {
      WordsAreWords("", argv[0]);
      ArgumentsAreWords(argv[1..]);
    }
  }

  lemma KindIsSpaceFree(a: string)
    requires SpaceFree(a)
    ensures KindOf(a).Files? ==> SpaceFree(KindOf(a).v)
  {
  }

  lemma {:induction false} FilesAreSpaceFree(args: seq<string>, o: Options)
    requires AllWords(args) && SpaceFree(o.files) && Parse(args, o).Go?
    ensures SpaceFree(Parse(args, o).o.files)
    decreases |args|
  {
    if args != [] {
      var r := Once(args, o);
      KindIsSpaceFree(args[0]);
      if r.Shift? {
        FilesAreSpaceFree(args[r.n..], r.o);
      }
    }
  }

  /** Nothing to do, or files without a place to go to. */
  predicate Incomplete(o: Options) {
    (!o.reboot && o.cmd == "" && o.files == "") || (o.files != "" && o.location == "")
  }

  /**
    For every command line: one invalid nonempty address and nothing is sent to anybody; otherwise the command
    goes once to each address in order, and then the files, each to each address. The exit status tells an
    incomplete call from a complete one.
   */
  lemma AllOrNothing(argv: seq<string>, config: string -> string)
    ensures var out, r := Parse(Resplit(argv), NONE), Script(argv, config);
            if out.Exit? then r == Result([], out.code)
            else
              var o, ips := out.o, Targets(out.o, config);
              if !AllValid(ips) then r == Result([], 1)
              else
                var ssh := if o.reboot then SshAll("reboot", ips) else if o.cmd != "" then SshAll(o.cmd, ips) else [];
                && r.trace == (if o.files == "" || o.location == "" then ssh
                               else ssh + ScpAll(Nonempty(CommaFields(o.files)), ips, o.location))
                && r.code == (if Incomplete(o) then 1 else 0)
  {
    var out := Parse(Resplit(argv), NONE);
    if out.Go? {
      ArgumentsAreWords(argv);
      FilesAreSpaceFree(Resplit(argv), NONE);
      ActOnTargets(out.o, config);
    }
  }

  lemma ActOnTargets(o: Options, config: string -> string)
    requires SpaceFree(o.files)
    ensures var ips, r := Targets(o, config), Act(o, config);
            if !AllValid(ips) then r == Result([], 1)
            else
              var ssh := if o.reboot then SshAll("reboot", ips) else if o.cmd != "" then SshAll(o.cmd, ips) else [];
              && r.trace == (if o.files == "" || o.location == "" then ssh
                             else ssh + ScpAll(Nonempty(CommaFields(o.files)), ips, o.location))
              && r.code == (if Incomplete(o) then 1 else 0)
  {
    if o.iptable != "" {
      IpArrayIsSpaceFree(o.iptable, config);
      EntriesAreNonempty(IpArray(o.iptable, config));
    } else {
      assert Entries([]) == [];
    }
    FieldsAreSpaceFree(o.files, ',');
    EntriesAreNonempty(CommaFields(o.files));
  }

  // ---------- End to end ----------

  predicate BlankFree(s: string) {
    forall i :: 0 <= i < |s| ==> !IsBlank(s[i])
  }

  lemma {:induction false} UnspacedKeeps(s: string)
    requires BlankFree(s)
    ensures Unspaced(s) == s
  {
    if s != "" {
      UnspacedKeeps(s[1..]);
    }
  }

  lemma {:induction false} NonemptyDropsLast(fs: seq<string>)
    requires fs != [] && fs[|fs| - 1] == ""
    ensures Nonempty(fs[..|fs| - 1]) == Nonempty(fs)
    decreases |fs|
  {
    if |fs| > 1 {
      NonemptyDropsLast(fs[1..]);
      assert fs[..|fs| - 1][1..] == fs[1..][..|fs[1..]| - 1];
    } else {
      assert fs[..0] == [] && fs[1..] == [];
    }
  }

  /** A comma-joined list of addresses names its nonempty entries. */
  lemma ListNamesEntries(fs: seq<string>, config: string -> string)
    requires fs != [] && forall i :: 0 <= i < |fs| ==> Free(fs[i], ',')
    requires BlankFree(Join(fs, ",")) && !Contains(Join(fs, ","), ".out")
    ensures Nonempty(IpArray(Join(fs, ","), config)) == Nonempty(fs)
    ensures fs[|fs| - 1] != "" ==> IpArray(Join(fs, ","), config) == fs
  {
    UnspacedKeeps(Join(fs, ","));
    SplitOfJoin(fs, ',');
    if fs[|fs| - 1] == "" {
      NonemptyDropsLast(fs);
    }
  }

  /** From the command line to the wire: table, command words, splitting, validation and dispatch together. */
  lemma CommandReachesExactly(fs: seq<string>, ws: seq<string>, config: string -> string)
    requires fs != [] && forall i :: 0 <= i < |fs| ==> Free(fs[i], ',')
    requires IsWord(Join(fs, ",")) && BlankFree(Join(fs, ",")) && !Contains(Join(fs, ","), ".out")
    requires ws != [] && AllWords(ws) && Plain(ws)
    ensures Script(["--iptable=" + Join(fs, ","), "--cmd=" + Join(ws, " ")], config)
            == if AllValid(Nonempty(fs)) then Result(SshAll(Join(ws, " "), Nonempty(fs)), 0) else Result([], 1)
  {
    var o := NONE.(iptable := Join(fs, ","), cmd := Join(ws, " "));
    ScriptOfCommand(Join(fs, ","), ws, config);
    ListNamesEntries(fs, config);
    ActOnTargets(o, config);
    assert o.cmd != "" by { assert |ws[0]| > 0; }
  }

  lemma ScriptOfCommand(table: string, ws: seq<string>, config: string -> string)
    requires IsWord(table) && ws != [] && AllWords(ws) && Plain(ws)
    ensures Script(["--iptable=" + table, "--cmd=" + Join(ws, " ")], config)
            == Act(NONE.(iptable := table, cmd := Join(ws, " ")), config)
  {
    CommandReassembled(table, ws);
  }

  // ---------- Address lists ----------

  function ShowAll(qs: seq<Quad>): (s: seq<string>)
    ensures |s| == |qs| && forall i :: 0 <= i < |s| ==> s[i] == Show(qs[i])
  {
    seq(|qs|, i requires 0 <= i < |qs| => Show(qs[i]))
  }

  predicate AddressText(s: string, commas: bool) {
    forall i :: 0 <= i < |s| ==> s[i] == '.' || (commas && s[i] == ',') || Decimal.IsDigit(s[i])
  }

  lemma {:induction false} JoinedText(fs: seq<string>, sep: string, commas: bool)
    requires AddressText(sep, commas) && forall i :: 0 <= i < |fs| ==> AddressText(fs[i], commas)
    ensures AddressText(Join(fs, sep), commas)
    decreases |fs|
  {
    if |fs| > 1 {
      JoinedText(fs[1..], sep, commas);
    }
  }

  lemma NoTableFile(s: string)
    requires AddressText(s, true)
    ensures BlankFree(s) && !Contains(s, ".out")
  {
    forall i: nat
      ensures !OccursAt(s, ".out", i)
    {
      assert i + 1 < |s| ==> s[i..][1] == s[i + 1] != ".out"[1];
    }
  }

  lemma ShowIsText(q: Quad)
    ensures AddressText(Show(q), false) && Show(q) != ""
  {
    var fs := [Decimal.Print(q.a), Decimal.Print(q.b), Decimal.Print(q.c), Decimal.Print(q.d)];
    JoinedText(fs, ".", false);
  }

  /** A comma-joined list of dotted quads splits back to the same list and passes validation. */
  lemma AddressListRoundTrip(qs: seq<Quad>, config: string -> string)
    requires qs != []
    ensures IpArray(Join(ShowAll(qs), ","), config) == ShowAll(qs)
    ensures AllValid(ShowAll(qs))
  {
    var fs := ShowAll(qs);
    forall i | 0 <= i < |fs|
      ensures AddressText(fs[i], true) && Free(fs[i], ',') && fs[i] != "" && IsValidIp(fs[i])
    {
      ShowIsText(qs[i]);
      ShowIsValid(qs[i]);
    }
    JoinedText(fs, ",", true);
    NoTableFile(Join(fs, ","));
    ListNamesEntries(fs, config);
  }
}
