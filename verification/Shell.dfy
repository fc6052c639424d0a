/** The pieces of shell text processing the scripts rely on: word splitting, joining and substring search. */
module Shell {
  import opened Common

  /** The characters of the default IFS. */
  predicate IsSpace(c: char) {
    c == ' ' || c == '\t' || c == '\n'
  }

  predicate SpaceFree(w: string) {
    forall i :: 0 <= i < |w| ==> !IsSpace(w[i])
  }

  predicate IsWord(w: string) {
    w != "" && SpaceFree(w)
  }

  predicate AllWords(ws: seq<string>) {
    forall i :: 0 <= i < |ws| ==> IsWord(ws[i])
  }

  /** Splits `s` into words; `current` is the part of a word already read. */
  function WordsFrom(current: string, s: string): seq<string>
    decreases |s|
  {
    if s == "" then (if current == "" then [] else [current])
    else if IsSpace(s[0]) then (if current == "" then [] else [current]) + WordsFrom("", s[1..])
    else WordsFrom(current + [s[0]], s[1..])
  }

  /** Unquoted expansion of `s`. */
  function Words(s: string): seq<string> {
    WordsFrom("", s)
  }

  function Join(ws: seq<string>, sep: string): string {
    if ws == [] then "" else if |ws| == 1 then ws[0] else ws[0] + sep + Join(ws[1..], sep)
  }

  lemma {:induction false} ReadWord(current: string, w: string, rest: string)
    requires SpaceFree(w)
    ensures WordsFrom(current, w + rest) == WordsFrom(current + w, rest)
    decreases |w|
  {
    if w == "" {
      assert w + rest == rest && current + w == current;
    } else {
      assert (w + rest)[0] == w[0] && (w + rest)[1..] == w[1..] + rest;
      ReadWord(current + [w[0]], w[1..], rest);
      assert current + [w[0]] + w[1..] == current + w;
    }
  }

  lemma WordThenSpace(w: string, c: char, rest: string)
    requires IsWord(w) && IsSpace(c)
    ensures Words(w + [c] + rest) == [w] + Words(rest)
  {
    assert w + [c] + rest == w + ([c] + rest) && "" + w == w;
    ReadWord("", w, [c] + rest);
    assert ([c] + rest)[1..] == rest;
  }

  /** Joining words by a whitespace character and splitting again gives the words back. */
  lemma {:induction false} WordsOfJoin(ws: seq<string>, c: char)
    requires AllWords(ws) && IsSpace(c)
    ensures Words(Join(ws, [c])) == ws
    decreases |ws|
  {
    if ws == [] {
    } else if |ws| == 1 {
      ReadWord("", ws[0], "");
      assert ws[0] + "" == ws[0] && "" + ws[0] == ws[0];
    } else {
      WordThenSpace(ws[0], c, Join(ws[1..], [c]));
      WordsOfJoin(ws[1..], c);
    }
  }

  /** A text without blank, tab and newline is one word. */
  lemma WordAlone(w: string)
    requires w != "" && forall i :: 0 <= i < |w| ==> w[i] != ' ' && w[i] != '\t' && w[i] != '\n'
    ensures Words(w) == [w]
  {
    ReadWord("", w, "");
    assert w + "" == w && "" + w == w;
  }

  /** Blanks, tabs and newlines separate, wherever they stand and however many there are. */
  lemma {:induction false} WordsOfConcat(current: string, s: string, c: char, t: string)
    requires c == ' ' || c == '\t' || c == '\n'
    ensures WordsFrom(current, s + [c] + t) == WordsFrom(current, s) + Words(t)
    decreases |s|
  {
    if s == "" {
      assert s + [c] + t == [c] + t && ([c] + t)[1..] == t;
    } else {
      assert (s + [c] + t)[0] == s[0] && (s + [c] + t)[1..] == s[1..] + [c] + t;
      WordsOfConcat("", s[1..], c, t);
      WordsOfConcat(current + [s[0]], s[1..], c, t);
    }
  }

  // ---------- Substrings ----------

  predicate OccursAt(s: string, t: string, i: nat) {
    i <= |s| && t <= s[i..]
  }

  /** The first position at which `t` occurs in `s`. */
  function Find(s: string, t: string): (r: Option<nat>)
    ensures r.Some? ==> OccursAt(s, t, r.value) && forall i: nat :: i < r.value ==> !OccursAt(s, t, i)
    ensures r.None? ==> forall i: nat :: !OccursAt(s, t, i)
    decreases |s|
  {
    assert forall i: nat :: 0 < i <= |s| ==> s[1..][i - 1..] == s[i..];
    assert forall i: nat {:trigger OccursAt(s, t, i)} ::
        0 < i <= |s| ==> (OccursAt(s, t, i) <==> OccursAt(s[1..], t, i - 1));
    if t <= s then Some(0)
    else if s == "" then None
    else
      var r := Find(s[1..], t);
      if r.Some? then Some(1 + r.value) else None
  }

  predicate Contains(s: string, t: string) {
    Find(s, t).Some?
  }
}
