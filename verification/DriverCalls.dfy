/**
  The driver scripts post their commands by calling multexu.sh. Taken through its option loop, table reading,
  validation and dispatch, such a call is the posting of one command to each word of the table that the barriers
  count.
 */
module DriverCalls {
  import opened Shell
  import opened Addresses
  import opened Options
  import opened Dispatch
  import Protocol = SignalProtocol
  import Drivers

  /** The option that marks a node before its reboot, as multexu_ssh.sh takes it. */
  const MARK := "--send_execute_statu_signal=REBOOT"

  /** The words of a driver command: no later word has an equals sign, except the mark. */
  ghost predicate DriverWords(ws: seq<string>) {
    && ws != [] && AllWords(ws)
    && forall i :: 1 <= i < |ws| ==> Free(ws[i], '=') || ws[i] == MARK
  }

  lemma PlainWithoutEquals(w: string)
    requires Free(w, '=')
    ensures !OptionLike(w)
  {
    OptionLikeMeans(w);
  }

  /** An underscore between the last dash and the first equals sign hides an option from the stop test. */
  lemma UnderscoreHides(head: string, tail: string)
    requires Free(head, '=') && Free(tail, '-')
    ensures !OptionLike(head + "_" + tail)
  {
    var w := head + "_" + tail;
    OptionLikeMeans(w);
    forall i: nat, j: nat
      ensures !MatchesAt(w, i, j)
    {
      assert forall k :: |head| < k < |w| ==> w[k] == tail[k - |head| - 1];
      if i < |head| {
        assert w[i + 1..][|head| - i - 1] == '_';
        assert forall k :: i < k < |head| ==> w[k] == head[k] == w[i + 1..][k - i - 1];
      }
    }
  }

  lemma MarkIsPlain(w: string)
    requires w == MARK
    ensures !OptionLike(w)
  {
    var head, tail := "--send", "execute_statu_signal=REBOOT";
    assert w == head + "_" + tail;
    UnderscoreHides(head, tail);
  }

  /** So every driver command gets through the option loop whole. */
  lemma DriverWordsArePlain(ws: seq<string>)
    requires DriverWords(ws)
    ensures Plain(ws)
  {
    forall i | 1 <= i < |ws|
      ensures !OptionLike(ws[i])
    {
      if Free(ws[i], '=') {
        PlainWithoutEquals(ws[i]);
      } else {
        MarkIsPlain(ws[i]);
      }
    }
  }

  // ---------- The table of a call ----------

  /** A table file whose words have no carriage returns or other blanks names exactly its words. */
  lemma TableNamesWords(file: string, config: string -> string)
    requires Contains(file, ".out")
    requires forall i :: 0 <= i < |Words(config(file))| ==> BlankFree(Words(config(file))[i])
    ensures Nonempty(IpArray(file, config)) == Words(config(file))
  {
    var ws := Words(config(file));
    WordsAreWords("", config(file));
    forall i | 0 <= i < |ws|
      ensures Unspaced(ws[i]) == ws[i]
    {
      UnspacedKeeps(ws[i]);
    }
    assert UnspacedAll(ws) == ws;
    NonemptyKeeps(ws);
  }

  /** The trace of ssh commands is the posting of `cmd` to each listed node, with the text that was given. */
  ghost predicate PostsOf(trace: seq<Action>, cmd: Protocol.Cmd, t: Drivers.Table, text: string) {
    && |trace| == |Drivers.Posts(cmd, t.words)|
    && forall i :: 0 <= i < |trace| ==> trace[i] == Ssh(Drivers.Posts(cmd, t.words)[i].node, text)
  }

  /** A driver command over a table file of valid addresses goes to exactly the words that its barrier polls. */
  lemma CallPosts(file: string, ws: seq<string>, config: string -> string, cmd: Protocol.Cmd)
    requires IsWord(file) && Contains(file, ".out") && DriverWords(ws)
    requires forall i :: 0 <= i < |Words(config(file))| ==> BlankFree(Words(config(file))[i])
    ensures var r, t := Script(["--iptable=" + file, "--cmd=" + Join(ws, " ")], config), Drivers.TableOf(config(file));
            if AllValid(t.words) then r.code == 0 && PostsOf(r.trace, cmd, t, Join(ws, " ")) else r == Result([], 1)
  {
    var o := NONE.(iptable := file, cmd := Join(ws, " "));
    DriverWordsArePlain(ws);
    ScriptOfCommand(file, ws, config);
    TableNamesWords(file, config);
    ActOnTargets(o, config);
    assert o.cmd != "" by { assert |ws[0]| > 0; }
  }

  // ---------- Reboots ----------

  lemma RebootKind()
    ensures KindOf("--reboot") == Reboot
  {
    var a := "--reboot";
    LongIsNotShort(a);
    LongBy(a, 'r');
    assert a[2] == 'r' && a != "--version";
    assert !Given(a, "--iptable") && a != "--iptable=";
  }

  lemma RebootWords(file: string)
    requires IsWord(file)
    ensures Resplit(["--iptable=" + file, "--reboot"]) == ["--iptable=" + file] + ["--reboot"]
  {
    ResplitTwo("--iptable=" + file, "--reboot");
    TableWord(file);
    WordsOfJoin(["--reboot"], ' ');
  }

  lemma RebootParses(file: string)
    requires IsWord(file)
    ensures Parse(Resplit(["--iptable=" + file, "--reboot"]), NONE) == Go(NONE.(iptable := file, reboot := true))
  {
    RebootWords(file);
    TableKind(file);
    TableFirst("--iptable=" + file, file, ["--reboot"], NONE);
    RebootKind();
    assert ["--reboot"][1..] == [];
  }

  /** A reboot call restarts exactly the listed nodes. */
  lemma RebootPosts(file: string, config: string -> string)
    requires IsWord(file) && Contains(file, ".out")
    requires forall i :: 0 <= i < |Words(config(file))| ==> BlankFree(Words(config(file))[i])
    ensures var r, t := Script(["--iptable=" + file, "--reboot"], config), Drivers.TableOf(config(file));
            if AllValid(t.words) then PostsOf(r.trace, Protocol.Restart, t, "reboot") else r == Result([], 1)
  {
    RebootParses(file);
    TableNamesWords(file, config);
    ActOnTargets(NONE.(iptable := file, reboot := true), config);
  }
}
