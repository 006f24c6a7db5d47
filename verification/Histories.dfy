/**
 * The bounded histories of a run: its log, cut to the latest characters, and its retry feedback, cut to the
 * latest entries (app/runtime_modules/run_state.py, app/runtime_modules/files.py).
 */
module Histories {
  import opened Prelude

  // ---------------------------------------------------------------- the run log

  const MAX_RUN_LOG_CHARS: nat := 250_000

  const ROTATED := "# Log rotated: keeping latest entries only.\n"

  /** Reading a text file: every kind of line end becomes a newline. */
  function Translated(s: string): (t: string)
    ensures '\r' !in t
    ensures '\r' !in s ==> t == s
    decreases |s|
  {
    if s == "" then ""
    else if s[0] != '\r' then
      assert s == [s[0]] + s[1..];
      [s[0]] + Translated(s[1..])
    else if |s| > 1 && s[1] == '\n' then "\n" + Translated(s[2..])
    else "\n" + Translated(s[1..])
  }

  /** The content, or the header and its last characters. */
  function Cut(content: string, max: nat, header: string): string {
    if |content| > max then header + content[|content| - max..] else content
  }

  function Rotated(content: string): string {
    Cut(content, MAX_RUN_LOG_CHARS, ROTATED)
  }

  /** The file after these lines were logged, one call each. */
  function LogAfter(lines: seq<string>): string {
    if lines == [] then "" else Rotated(Translated(LogAfter(lines[..|lines| - 1])) + lines[|lines| - 1])
  }

  lemma LogOneMore(lines: seq<string>, line: string)
    ensures LogAfter(lines + [line]) == Rotated(Translated(LogAfter(lines)) + line)
  {
    assert (lines + [line])[..|lines|] == lines;
  }

  function Concat(lines: seq<string>): string {
    if lines == [] then "" else Concat(lines[..|lines| - 1]) + lines[|lines| - 1]
  }

  lemma Associative<T>(a: seq<T>, b: seq<T>, c: seq<T>)
    ensures (a + b) + c == a + (b + c)
  {
  }

  lemma CutBehind(front: string, end: string, max: nat, header: string)
    requires |end| >= max && |front + end| > max
    ensures Cut(front + end, max, header) == header + end[|end| - max..]
  {
    assert (front + end)[|front + end| - max..] == end[|end| - max..];
  }

  /** Cutting early loses nothing that cutting late would keep. */
  lemma CutTwice(history: string, line: string, max: nat, header: string)
    requires header != ""
    ensures Cut(Cut(history, max, header) + line, max, header) == Cut(history + line, max, header)
  {
    if |history| > max {
      var front, tail := history[..|history| - max], history[|history| - max..];
      assert history == front + tail;
      Associative(header, tail, line);
      Associative(front, tail, line);
      CutBehind(header, tail + line, max, header);
      CutBehind(front, tail + line, max, header);
    }
  }

  lemma CutKeepsOut(history: string, max: nat, header: string, c: char)
    requires c !in history && c !in header
    ensures c !in Cut(history, max, header)
  {
  }

  /** Without carriage returns the file is the whole history or the header and exactly its last characters. */
  lemma {:induction false} LogWithoutReturns(lines: seq<string>)
    requires lines != [] ==> '\r' !in Concat(lines[..|lines| - 1])
    ensures LogAfter(lines) == Rotated(Concat(lines))
    decreases |lines|
  {
    if lines != [] {
      var rest := lines[..|lines| - 1];
      if rest != [] {
        assert Concat(rest) == Concat(rest[..|rest| - 1]) + rest[|rest| - 1];
      }
      LogWithoutReturns(rest);
      CutKeepsOut(Concat(rest), MAX_RUN_LOG_CHARS, ROTATED, '\r');
      CutTwice(Concat(rest), lines[|lines| - 1], MAX_RUN_LOG_CHARS, ROTATED);
    }
  }

  lemma SameEnd(a: string, b: string, end: string)
    ensures a + end == b + end <==> a == b
  {
    if a + end == b + end {
      assert |a + end| == |a| + |end| && |b + end| == |b| + |end|;
      assert a == (a + end)[..|a|] && b == (b + end)[..|b|];
    }
  }

  predicate EndsWith(text: string, end: string) {
    |end| <= |text| && text[|text| - |end|..] == end
  }

  lemma {:induction false} TranslatedEndsWith(text: string, end: string)
    requires EndsWith(text, end) && '\r' !in end
    ensures EndsWith(Translated(text), end)
    decreases |text|
  {
    if |text| == |end| {
      assert text == end;
    } else {
      var rest := text[1..];
      assert EndsWith(rest, end);
      TranslatedEndsWith(rest, end);
      if text[0] != '\r' {
        PrefixKeepsEnd([text[0]], Translated(rest), end);
      } else if |text| > 1 && text[1] == '\n' {
        assert rest[0] == '\n' && rest[1..] == text[2..];
        assert Translated(text) == "\n" + Translated(text[2..]) == Translated(rest);
      } else {
        PrefixKeepsEnd("\n", Translated(rest), end);
      }
    }
  }

  lemma PrefixKeepsEnd(front: string, text: string, end: string)
    requires EndsWith(text, end)
    ensures EndsWith(front + text, end)
  {
    var all := front + text;
    assert all[|all| - |end|..] == text[|text| - |end|..];
  }

  lemma CutKeepsEnd(content: string, max: nat, header: string, end: string)
    requires EndsWith(content, end) && |end| <= max
    ensures EndsWith(Cut(content, max, header), end)
  {
    if |content| > max {
      var tail := content[|content| - max..];
      assert tail[|tail| - |end|..] == content[|content| - |end|..];
      PrefixKeepsEnd(header, tail, end);
    }
  }

  /** The end of a concatenation. */
  lemma LastChars(a: string, b: string, n: nat)
    requires n <= |a + b|
    ensures |b| <= n ==> (a + b)[|a + b| - n..] == a[|a| - (n - |b|)..] + b
    ensures n <= |b| ==> (a + b)[|a + b| - n..] == b[|b| - n..]
  {
  }

  /** Whatever end of the history has no carriage return is still the end of the log when it is read back. */
  lemma {:induction false} EndSurvives(lines: seq<string>, end: string)
    requires EndsWith(Concat(lines), end) && '\r' !in end && |end| <= MAX_RUN_LOG_CHARS
    ensures EndsWith(Translated(LogAfter(lines)), end)
    decreases |lines|
  {
    if lines != [] {
      var rest, last := lines[..|lines| - 1], lines[|lines| - 1];
      var read := Translated(LogAfter(rest));
      EndSplits(Concat(rest), last, end);
      if |end| <= |last| {
        PrefixKeepsEnd(read, last, end);
      } else {
        var before := end[..|end| - |last|];
        EndSurvives(rest, before);
        EndsJoin(read, last, before);
      }
      CutKeepsEnd(read + last, MAX_RUN_LOG_CHARS, ROTATED, end);
      TranslatedEndsWith(LogAfter(lines), end);
    }
  }

  lemma EndSplits(a: string, b: string, end: string)
    requires EndsWith(a + b, end)
    ensures |end| <= |b| ==> EndsWith(b, end)
    ensures |b| < |end| ==> end == end[..|end| - |b|] + b && EndsWith(a, end[..|end| - |b|])
  {
    LastChars(a, b, |end|);
    if |b| < |end| {
      var before := a[|a| - (|end| - |b|)..];
      assert end == before + b && end[..|end| - |b|] == before;
    }
  }

  lemma EndsJoin(a: string, b: string, before: string)
    requires EndsWith(a, before)
    ensures EndsWith(a + b, before + b)
  {
    LastChars(a, b, |before + b|);
  }

  /** How much of what came before is kept beside the last line. */
  function KeptBefore(last: string): nat {
    if |last| < MAX_RUN_LOG_CHARS then MAX_RUN_LOG_CHARS - |last| else 0
  }

  lemma SameCut(a: string, b: string, last: string, k: nat)
    requires k == KeptBefore(last) && |a| + |last| > MAX_RUN_LOG_CHARS && |b| + |last| > MAX_RUN_LOG_CHARS
    ensures Rotated(a + last) == Rotated(b + last) <==> a[|a| - k..] == b[|b| - k..]
  {
    var x, y := a[|a| - k..], b[|b| - k..];
    LastChars(a, last, MAX_RUN_LOG_CHARS);
    LastChars(b, last, MAX_RUN_LOG_CHARS);
    var header, s, t := ROTATED, (a + last)[|a + last| - MAX_RUN_LOG_CHARS..],
                       (b + last)[|b + last| - MAX_RUN_LOG_CHARS..];
    SamePrefix(header, s, t);
    if |last| < MAX_RUN_LOG_CHARS {
      SameEnd(x, y, last);
    }
  }

  lemma SamePrefix(front: string, a: string, b: string)
    ensures front + a == front + b <==> a == b
  {
    if front + a == front + b {
      assert a == (front + a)[|front|..] && b == (front + b)[|front|..];
    }
  }

  /**
   * After any calls the log is the whole history, or the header and exactly its last characters, if and only if
   * reading changed none of the characters that are kept from before the last line, and a history over the limit
   * is rotated by its last call.
   */
  lemma LogIsBoundedHistory(lines: seq<string>)
    requires lines != []
    ensures var rest, last := lines[..|lines| - 1], lines[|lines| - 1];
            var history := Concat(rest);
            LogAfter(lines) == Rotated(Concat(lines))
            <==> if |Concat(lines)| <= MAX_RUN_LOG_CHARS then '\r' !in history
                 else |Translated(LogAfter(rest)) + last| > MAX_RUN_LOG_CHARS
                      && '\r' !in history[|history| - KeptBefore(last)..]
  {
    var rest, last := lines[..|lines| - 1], lines[|lines| - 1];
    var history, read, k := Concat(rest), Translated(LogAfter(rest)), KeptBefore(last);
    if |Concat(lines)| <= MAX_RUN_LOG_CHARS {
      if '\r' !in history {
        LogWithoutReturns(lines);
      } else {
        assert read != history;
        SameEnd(read, history, last);
      }
    } else if |read + last| > MAX_RUN_LOG_CHARS {
      SameCut(read, history, last, k);
      if '\r' !in history[|history| - k..] {
        EndSurvives(rest, history[|history| - k..]);
      }
    } else {
      assert |LogAfter(lines)| <= MAX_RUN_LOG_CHARS < |Rotated(Concat(lines))|;
    }
  }

  lemma {:induction false} TranslatedReturn(s: string)
    requires '\r' !in s
    ensures Translated(s + "\r") == s + "\n"
  {
    if s == "" {
      assert "" + "\r" == "\r" && Translated("\r") == "\n" + Translated("\r"[1..]);
    } else {
      assert s == [s[0]] + s[1..] && (s + "\r")[1..] == s[1..] + "\r";
      TranslatedReturn(s[1..]);
    }
  }

  /** A line that ends in a carriage return is not what the next call leaves of it. */
  lemma ReturnIsLost(s: string, last: string)
    requires '\r' !in s && |s| + 1 + |last| <= MAX_RUN_LOG_CHARS
    ensures LogAfter([s + "\r", last]) == s + "\n" + last != Rotated(Concat([s + "\r", last]))
  {
    var line := s + "\r";
    assert [line, last][..1] == [line] && [line][..0] == [];
    assert Concat([line]) == line && Concat([line, last]) == line + last;
    assert LogAfter([line]) == line;
    TranslatedReturn(s);
    assert (s + "\n" + last)[|s|] == '\n' && (line + last)[|s|] == '\r';
  }

  // ---------------------------------------------------------------- the retry feedback

  /** A text file, line by line; every line ends with a newline. */
  type Text = seq<string>

  const ENTRY_HEADER := "## Retry Feedback for "

  predicate Header(line: string) {
    ENTRY_HEADER <= line
  }

  function Stripped(line: string): (s: string)
    ensures s <= line
  {
    if line != "" && White(line[|line| - 1]) then Stripped(line[..|line| - 1]) else line
  }

  /** `str.rstrip` on a text and one newline behind it. */
  function Tidy(text: Text): Text {
    if text == [] then []
    else
      var last := Stripped(text[|text| - 1]);
      if last == "" then Tidy(text[..|text| - 1]) else text[..|text| - 1] + [last]
  }

  /** The lines before the first header. */
  function Preamble(text: Text): Text {
    if text == [] || Header(text[0]) then [] else [text[0]] + Preamble(text[1..])
  }

  /** Each header line with the lines up to the next one. */
  function Blocks(text: Text): seq<Text> {
    if text == [] then []
    else if Header(text[0]) then [[text[0]] + Preamble(text[1..])] + Blocks(text[1..])
    else Blocks(text[1..])
  }

  function LastOf<T>(s: seq<T>, n: nat): seq<T> {
    if |s| <= n then s else s[|s| - n..]
  }

  function Joined(blocks: seq<Text>): Text {
    if blocks == [] then [] else blocks[0] + [""] + Joined(blocks[1..])
  }

  function Tidied(blocks: seq<Text>): seq<Text> {
    seq(|blocks|, i requires 0 <= i < |blocks| => Tidy(blocks[i]))
  }

  /** One failure: the step to retry, the time, and the lines about it. */
  datatype Entry = Entry(target: string, stamp: string, details: Text)

  function Lines(e: Entry): (text: Text)
  {
    [ENTRY_HEADER + e.target, "", "Submitted at: " + e.stamp, ""] + e.details + [""]
  }

  /** The file that replaces the previous one: its last two blocks and the new entry. */
  function Compact(previous: Text, e: Entry): Text {
    Tidy(Joined(LastOf(Blocks(previous), 2)) + Lines(e))
  }

  /** No line about the failure looks like the start of another entry. */
  predicate SingleHeader(e: Entry) {
    forall i :: 1 <= i < |Tidy(Lines(e))| ==> !Header(Tidy(Lines(e))[i])
  }

  predicate Block(text: Text) {
    text != [] && Header(text[0]) && forall i :: 1 <= i < |text| ==> !Header(text[i])
  }

  lemma {:induction false} NoHeaders(text: Text)
    requires forall l :: l in text ==> !Header(l)
    ensures Preamble(text) == text && Blocks(text) == []
    decreases |text|
  {
    if text != [] {
      NoHeaders(text[1..]);
    }
  }

  lemma {:induction false} PreambleHas(text: Text)
    ensures forall l :: l in Preamble(text) ==> !Header(l)
    decreases |text|
  {
    if text != [] && !Header(text[0]) {
      PreambleHas(text[1..]);
    }
  }

  lemma {:induction false} BlocksAre(text: Text)
    ensures forall b :: b in Blocks(text) ==> Block(b)
    decreases |text|
  {
    if text != [] {
      BlocksAre(text[1..]);
      PreambleHas(text[1..]);
    }
  }

  lemma {:induction false} PreambleConcat(a: Text, b: Text)
    requires b != [] && Header(b[0])
    ensures Preamble(a + b) == Preamble(a)
    decreases |a|
  {
    if a == [] {
      assert a + b == b;
    } else {
      assert (a + b)[1..] == a[1..] + b;
      PreambleConcat(a[1..], b);
    }
  }

  /** A text is cut where a header starts. */
  lemma {:induction false} BlocksConcat(a: Text, b: Text)
    requires b != [] && Header(b[0])
    ensures Blocks(a + b) == Blocks(a) + Blocks(b)
    decreases |a|
  {
    if a == [] {
      assert a + b == b;
    } else {
      assert (a + b)[1..] == a[1..] + b;
      BlocksConcat(a[1..], b);
      PreambleConcat(a[1..], b);
    }
  }

  lemma BlockIsOne(text: Text)
    requires Block(text)
    ensures Blocks(text) == [text]
  {
    var rest := text[1..];
    assert forall l :: l in rest ==> !Header(l) by {
      assert forall i :: 0 <= i < |rest| ==> rest[i] == text[i + 1];
    }
    NoHeaders(rest);
    assert text == [text[0]] + rest;
  }

  lemma PaddedBlock(text: Text)
    requires Block(text)
    ensures Blocks(text + [""]) == [text + [""]] && Tidy(text + [""]) == Tidy(text)
  {
    assert (text + [""])[0] == text[0];
    BlockIsOne(text + [""]);
  }

  lemma JoinedStarts(blocks: seq<Text>, b: Text)
    requires forall x :: x in blocks ==> Block(x)
    requires b != [] && Header(b[0])
    ensures Joined(blocks) + b != [] && Header((Joined(blocks) + b)[0])
  {
    if blocks == [] {
      assert Joined(blocks) + b == b;
    } else {
      assert Block(blocks[0]);
      assert (Joined(blocks) + b)[0] == blocks[0][0];
    }
  }

  lemma TidiedCons(b: Text, blocks: seq<Text>)
    ensures Tidied([b] + blocks) == [Tidy(b)] + Tidied(blocks)
  {
  }

  lemma PaddedBehind(b: Text, behind: Text)
    requires Block(b) && behind != [] && Header(behind[0])
    ensures Tidied(Blocks(b + [""] + behind)) == [Tidy(b)] + Tidied(Blocks(behind))
  {
    PaddedBlock(b);
    BlocksConcat(b + [""], behind);
    TidiedCons(b + [""], Blocks(behind));
  }

  lemma JoinedCons(first: Text, rest: seq<Text>, b: Text)
    requires Block(first) && forall x :: x in rest ==> Block(x)
    requires b != [] && Header(b[0])
    requires Tidied(Blocks(Joined(rest) + b)) == Tidied(rest) + Tidied(Blocks(b))
    ensures Tidied(Blocks(Joined([first] + rest) + b)) == Tidied([first] + rest) + Tidied(Blocks(b))
  {
    var behind := Joined(rest) + b;
    JoinedStarts(rest, b);
    assert ([first] + rest)[1..] == rest;
    assert Joined([first] + rest) == (first + [""]) + Joined(rest);
    Associative(first + [""], Joined(rest), b);
    PaddedBehind(first, behind);
    TidiedCons(first, rest);
    Associative([Tidy(first)], Tidied(rest), Tidied(Blocks(b)));
  }

  /** Joining keeps the blocks, up to the blank lines behind them. */
  lemma {:induction false} JoinedKeeps(blocks: seq<Text>, b: Text)
    requires forall x :: x in blocks ==> Block(x)
    requires b != [] && Header(b[0])
    ensures Tidied(Blocks(Joined(blocks) + b)) == Tidied(blocks) + Tidied(Blocks(b))
    decreases |blocks|
  {
    if blocks == [] {
      assert Joined(blocks) + b == b && Tidied(blocks) == [];
    } else {
      JoinedKeeps(blocks[1..], b);
      JoinedCons(blocks[0], blocks[1..], b);
      assert blocks == [blocks[0]] + blocks[1..];
    }
  }

  lemma {:induction false} TidyBehind(a: Text, b: Text)
    requires exists l :: l in b && Stripped(l) != ""
    ensures Tidy(a + b) == a + Tidy(b)
    decreases |b|
  {
    var l := b[|b| - 1];
    assert (a + b)[|a + b| - 1] == l && (a + b)[..|a + b| - 1] == a + b[..|b| - 1];
    assert b == b[..|b| - 1] + [l];
    if Stripped(l) == "" {
      TidyBehind(a, b[..|b| - 1]);
    }
  }

  lemma {:induction false} StrippedKeeps(line: string)
    requires line != "" && !White(line[0])
    ensures Stripped(line) != ""
    decreases |line|
  {
    if White(line[|line| - 1]) {
      StrippedKeeps(line[..|line| - 1]);
    }
  }

  /** An entry that is tidied still starts with its header: the line with the time is never blank. */
  lemma TidyEntry(e: Entry)
    ensures Tidy(Lines(e)) != [] && Tidy(Lines(e))[0] == ENTRY_HEADER + e.target
    ensures exists l :: l in Lines(e) && Stripped(l) != ""
  {
    var head: Text := [ENTRY_HEADER + e.target, ""];
    var rest: Text := ["Submitted at: " + e.stamp, ""] + e.details + [""];
    StrippedKeeps(rest[0]);
    assert rest[0] in rest;
    TidyBehind(head, rest);
    assert Lines(e) == head + rest;
    assert rest[0] in Lines(e);
  }

  lemma {:induction false} StrippedTwice(line: string)
    ensures Stripped(Stripped(line)) == Stripped(line)
    decreases |line|
  {
    if line != "" && White(line[|line| - 1]) {
      StrippedTwice(line[..|line| - 1]);
    }
  }

  lemma {:induction false} TidyTwice(text: Text)
    ensures Tidy(Tidy(text)) == Tidy(text)
    decreases |text|
  {
    if text != [] {
      var rest, last := text[..|text| - 1], Stripped(text[|text| - 1]);
      StrippedTwice(text[|text| - 1]);
      if last == "" {
        TidyTwice(rest);
      } else {
        assert (rest + [last])[..|rest|] == rest;
      }
    }
  }

  /** Tidied, a text ends with its last line that is not blank, up to the blanks at the end of that line. */
  lemma {:induction false} TidyIs(text: Text, n: nat)
    requires n <= |text| && forall i :: n <= i < |text| ==> Stripped(text[i]) == ""
    requires n > 0 ==> Stripped(text[n - 1]) != ""
    ensures Tidy(text) == if n == 0 then [] else text[..n - 1] + [Stripped(text[n - 1])]
    decreases |text|
  {
    if |text| > n {
      TidyIs(text[..|text| - 1], n);
    }
  }

  function Lined(blocks: seq<Text>): Text {
    if blocks == [] then [] else blocks[0] + Lined(blocks[1..])
  }

  /** A text is what precedes its first header and then its blocks. */
  lemma {:induction false} BlocksCover(text: Text)
    ensures text == Preamble(text) + Lined(Blocks(text))
    decreases |text|
  {
    if text != [] {
      BlocksCover(text[1..]);
      assert text == [text[0]] + text[1..];
      if Header(text[0]) {
        var block, rest := [text[0]] + Preamble(text[1..]), Blocks(text[1..]);
        assert ([block] + rest)[1..] == rest;
      } else {
        Associative([text[0]], Preamble(text[1..]), Lined(Blocks(text)));
      }
    }
  }

  /** What the new file holds: the last two blocks, then whatever the entry is cut into. */
  lemma CompactHolds(previous: Text, e: Entry)
    ensures Tidied(Blocks(Compact(previous, e)))
              == Tidied(LastOf(Blocks(previous), 2)) + Tidied(Blocks(Tidy(Lines(e))))
  {
    var kept := LastOf(Blocks(previous), 2);
    BlocksAre(previous);
    TidyEntry(e);
    TidyBehind(Joined(kept), Lines(e));
    JoinedKeeps(kept, Tidy(Lines(e)));
  }

  lemma SecondHeaderCuts(text: Text, i: nat)
    requires 1 <= i < |text| && Header(text[0]) && Header(text[i])
    ensures |Blocks(text)| >= 2
  {
    assert text == text[..i] + text[i..];
    BlocksConcat(text[..i], text[i..]);
    assert text[..i][0] == text[0] && text[i..][0] == text[i];
  }

  /** The entry counts as one exactly when no line about the failure starts another. */
  lemma EntryIsOneBlock(e: Entry)
    ensures SingleHeader(e) ==> Blocks(Tidy(Lines(e))) == [Tidy(Lines(e))]
    ensures !SingleHeader(e) ==> |Blocks(Tidy(Lines(e)))| >= 2
  {
    TidyEntry(e);
    if SingleHeader(e) {
      BlockIsOne(Tidy(Lines(e)));
    } else {
      var i :| 1 <= i < |Tidy(Lines(e))| && Header(Tidy(Lines(e))[i]);
      SecondHeaderCuts(Tidy(Lines(e)), i);
    }
  }

  lemma LastOfTidied(blocks: seq<Text>, n: nat)
    ensures Tidied(LastOf(blocks, n)) == LastOf(Tidied(blocks), n)
  {
  }

  lemma EntryStaysWhole(e: Entry)
    ensures Tidied(Blocks(Tidy(Lines(e)))) == [Tidy(Lines(e))] <==> SingleHeader(e)
  {
    EntryIsOneBlock(e);
    TidyTwice(Lines(e));
  }

  lemma LastThree<T>(before: seq<T>, new_: seq<T>, x: T)
    ensures LastOf(before, 2) + new_ == LastOf(before + [x], 3) <==> new_ == [x]
  {
    var kept := LastOf(before, 2);
    assert LastOf(before + [x], 3) == kept + [x];
    if kept + new_ == kept + [x] {
      assert new_ == (kept + new_)[|kept|..] == (kept + [x])[|kept|..] == [x];
    }
  }

  /** The new file holds the last three entries exactly when no line about the failure starts another. */
  lemma KeepsLastThree(previous: Text, e: Entry)
    ensures SingleHeader(e) <==>
              Tidied(Blocks(Compact(previous, e))) == LastOf(Tidied(Blocks(previous)) + [Tidy(Lines(e))], 3)
  {
    CompactHolds(previous, e);
    LastOfTidied(Blocks(previous), 2);
    EntryStaysWhole(e);
    LastThree(Tidied(Blocks(previous)), Tidied(Blocks(Tidy(Lines(e)))), Tidy(Lines(e)));
  }

  function FeedbackAfter(entries: seq<Entry>): Text {
    if entries == [] then [] else Compact(FeedbackAfter(entries[..|entries| - 1]), entries[|entries| - 1])
  }

  function AllLines(entries: seq<Entry>): seq<Text> {
    seq(|entries|, i requires 0 <= i < |entries| => Tidy(Lines(entries[i])))
  }

  lemma AllLinesSnoc(entries: seq<Entry>, e: Entry)
    ensures AllLines(entries + [e]) == AllLines(entries) + [Tidy(Lines(e))]
  {
  }

  lemma OneMore(previous: Text, e: Entry, all: seq<Text>)
    requires SingleHeader(e) && Tidied(Blocks(previous)) == LastOf(all, 3)
    ensures Tidied(Blocks(Compact(previous, e))) == LastOf(all + [Tidy(Lines(e))], 3)
  {
    KeepsLastThree(previous, e);
  }

  lemma {:induction false} SinglesAreKept(entries: seq<Entry>)
    requires forall e :: e in entries ==> SingleHeader(e)
    ensures Tidied(Blocks(FeedbackAfter(entries))) == LastOf(AllLines(entries), 3)
    decreases |entries|
  {
    if entries != [] {
      var rest, last := entries[..|entries| - 1], entries[|entries| - 1];
      SinglesAreKept(rest);
      OneMore(FeedbackAfter(rest), last, AllLines(rest));
      AllLinesSnoc(rest, last);
      assert entries == rest + [last];
    }
  }

  lemma SingleIsAppended(previous: Text, e: Entry)
    requires SingleHeader(e)
    ensures Tidied(Blocks(Compact(previous, e))) == LastOf(Tidied(Blocks(previous)), 2) + [Tidy(Lines(e))]
  {
    CompactHolds(previous, e);
    LastOfTidied(Blocks(previous), 2);
    EntryStaysWhole(e);
  }

  lemma LastBehind<T>(kept: seq<T>, all: seq<T>, x: T, m: nat)
    requires 1 <= m <= 3 && |all| >= m - 1 && kept == LastOf(all, 2)
    ensures |kept + [x]| >= m && LastOf(kept + [x], m) == LastOf(all, m - 1) + [x]
  {
  }

  /** One single entry more, and one block more. */
  lemma SingleMore(previous: Text, all: seq<Text>, e: Entry, m: nat)
    requires SingleHeader(e) && 1 <= m <= 3 && |all| >= m - 1 && |Blocks(previous)| >= m - 1
    requires LastOf(Tidied(Blocks(previous)), m - 1) == LastOf(all, m - 1)
    ensures |Blocks(Compact(previous, e))| >= m
    ensures LastOf(Tidied(Blocks(Compact(previous, e))), m) == LastOf(all + [Tidy(Lines(e))], m)
  {
    var blocks := Tidied(Blocks(previous));
    SingleIsAppended(previous, e);
    LastBehind(LastOf(blocks, 2), blocks, Tidy(Lines(e)), m);
  }

  /** The last entries are the last blocks, as long as none of them is cut, whatever came before. */
  lemma {:induction false} LastSinglesAreKept(entries: seq<Entry>, m: nat)
    requires m <= 3 && m <= |entries|
    requires forall i :: |entries| - m <= i < |entries| ==> SingleHeader(entries[i])
    ensures |Blocks(FeedbackAfter(entries))| >= m
    ensures LastOf(Tidied(Blocks(FeedbackAfter(entries))), m) == LastOf(AllLines(entries), m)
    decreases m
  {
    if m == 0 {
      LastNone(Tidied(Blocks(FeedbackAfter(entries))));
      LastNone(AllLines(entries));
    } else {
      var rest, last := entries[..|entries| - 1], entries[|entries| - 1];
      assert entries == rest + [last];
      forall i | |rest| - (m - 1) <= i < |rest|
        ensures SingleHeader(rest[i])
      {
        assert rest[i] == entries[i];
      }
      LastSinglesAreKept(rest, m - 1);
      SingleMore(FeedbackAfter(rest), AllLines(rest), last, m);
      AllLinesSnoc(rest, last);
    }
  }

  lemma LastNone<T>(s: seq<T>)
    ensures LastOf(s, 0) == []
  {
  }

  /** What a block is, a kept entry is: it has one header. */
  lemma KeptAreSingle(text: Text, entries: seq<Entry>)
    requires Tidied(Blocks(text)) == LastOf(AllLines(entries), 3)
    ensures forall i :: 0 <= i < |entries| && |entries| - 3 <= i ==> SingleHeader(entries[i])
  {
    BlocksAre(text);
    forall i | 0 <= i < |entries| && |entries| - 3 <= i
      ensures SingleHeader(entries[i])
    {
      var k := i - (|entries| - |Blocks(text)|);
      assert Tidied(Blocks(text))[k] == AllLines(entries)[i];
      assert Blocks(text)[k] in Blocks(text);
      TidyKeepsSingle(Blocks(text)[k]);
    }
  }

  lemma ThreeSinglesAreKept(entries: seq<Entry>)
    requires |entries| >= 3
    requires forall i :: |entries| - 3 <= i < |entries| ==> SingleHeader(entries[i])
    ensures Tidied(Blocks(FeedbackAfter(entries))) == LastOf(AllLines(entries), 3)
  {
    var last := |entries| - 1;
    LastSinglesAreKept(entries, 3);
    SingleIsAppended(FeedbackAfter(entries[..last]), entries[last]);
    assert FeedbackAfter(entries) == Compact(FeedbackAfter(entries[..last]), entries[last]);
  }

  /** None of the last three entries, or of all if there are fewer, has a line that starts another entry. */
  predicate LastAreSingle(entries: seq<Entry>) {
    forall i :: 0 <= i < |entries| && |entries| - 3 <= i ==> SingleHeader(entries[i])
  }

  /** After any number of failures the file holds the last three entries exactly when none of these is cut. */
  lemma FeedbackIsLastThree(entries: seq<Entry>)
    ensures Tidied(Blocks(FeedbackAfter(entries))) == LastOf(AllLines(entries), 3) <==> LastAreSingle(entries)
  {
    if LastAreSingle(entries) {
      if |entries| < 3 {
        SinglesAreKept(entries);
      } else {
        ThreeSinglesAreKept(entries);
      }
    } else if Tidied(Blocks(FeedbackAfter(entries))) == LastOf(AllLines(entries), 3) {
      KeptAreSingle(FeedbackAfter(entries), entries);
    }
  }

  // ---------------------------------------------------------------- reading the feedback of one step

  predicate HeaderFor(line: string, step: string) {
    var head := ENTRY_HEADER + step;
    head <= line && Stripped(line[|head|..]) == ""
  }

  function Selected(blocks: seq<Text>, step: string): seq<Text> {
    if blocks == [] then []
    else
      (if blocks[0] != [] && HeaderFor(blocks[0][0], step) then [Tidy(blocks[0])] else [])
      + Selected(blocks[1..], step)
  }

  /** `failure_feedback_for_step` with `latest_only`. */
  function LatestFor(text: Text, step: string): Option<Text> {
    var found := Selected(Blocks(text), step);
    if found == [] then None else Some(found[|found| - 1])
  }

  /** A line that names the step and has nothing but blanks behind the name. */
  ghost predicate Names(line: string, step: string) {
    exists blanks: string :: line == ENTRY_HEADER + step + blanks && AllWhite(blanks)
  }

  predicate AllWhite(s: string) {
    forall i :: 0 <= i < |s| ==> White(s[i])
  }

  /** `str.rstrip`: only blanks go, and all of them. */
  lemma {:induction false} StrippedIs(line: string)
    ensures AllWhite(line[|Stripped(line)|..])
    ensures Stripped(line) != "" ==> !White(line[|Stripped(line)| - 1])
    decreases |line|
  {
    if line != "" && White(line[|line| - 1]) {
      StrippedIs(line[..|line| - 1]);
    }
  }

  lemma HeaderForNames(line: string, step: string)
    ensures HeaderFor(line, step) <==> Names(line, step)
    ensures Names(line, step) ==> Header(line)
  {
    var head := ENTRY_HEADER + step;
    if Names(line, step) {
      var blanks :| line == ENTRY_HEADER + step + blanks && AllWhite(blanks);
      assert line == head + blanks && line[..|head|] == head && line[|head|..] == blanks;
      StrippedIs(blanks);
      assert Stripped(blanks) == "";
    }
    if HeaderFor(line, step) {
      StrippedIs(line[|head|..]);
      assert line == head + line[|head|..];
    }
  }

  /** What the last line of its own that names the step decides is what is read. */
  lemma LatestFirst(text: Text, step: string)
    requires text != []
    ensures LatestFor(text, step) ==
            if LatestFor(text[1..], step).Some? then LatestFor(text[1..], step)
            else if Names(text[0], step) then Some(Tidy([text[0]] + Preamble(text[1..])))
            else None
  {
    HeaderForNames(text[0], step);
    var rest := Blocks(text[1..]);
    if Header(text[0]) {
      var block := [text[0]] + Preamble(text[1..]);
      assert Blocks(text) == [block] + rest && ([block] + rest)[1..] == rest;
    }
  }

  lemma {:induction false} PreambleEnds(text: Text, n: nat)
    requires n <= |text| && (forall k :: 0 <= k < n ==> !Header(text[k])) && (n < |text| ==> Header(text[n]))
    ensures Preamble(text) == text[..n]
    decreases n
  {
    if n > 0 {
      PreambleEnds(text[1..], n - 1);
      assert text[..n] == [text[0]] + text[1..][..n - 1];
    }
  }

  /** None of the lines from `i` on names the step. */
  ghost predicate NoneNames(text: Text, step: string, i: nat) {
    forall k :: i <= k < |text| ==> !Names(text[k], step)
  }

  lemma NoneNamesRest(text: Text, step: string, i: nat)
    requires text != []
    ensures NoneNames(text, step, i + 1) <==> NoneNames(text[1..], step, i)
  {
    var rest := text[1..];
    assert forall k :: 0 <= k < |rest| ==> rest[k] == text[k + 1];
    if NoneNames(rest, step, i) {
      forall k | i + 1 <= k < |text|
        ensures !Names(text[k], step)
      {
        assert text[k] == rest[k - 1];
      }
    }
  }

  /** Nothing is read for a step that no line names, whatever entries for other steps there are. */
  lemma {:induction false} NothingIsRead(text: Text, step: string)
    ensures LatestFor(text, step) == None <==> NoneNames(text, step, 0)
    decreases |text|
  {
    if text != [] {
      NothingIsRead(text[1..], step);
      LatestFirst(text, step);
      NoneNamesRest(text, step, 0);
    }
  }

  /** The lines of one entry: from its header up to the next one, of whatever step. */
  predicate Extends(text: Text, i: nat, j: nat) {
    && i < j <= |text|
    && (forall k :: i < k < j ==> !Header(text[k]))
    && (j < |text| ==> Header(text[j]))
  }

  lemma ExtendsRest(text: Text, i: nat, j: nat)
    requires Extends(text, i, j) && i > 0
    ensures Extends(text[1..], i - 1, j - 1) && text[1..][i - 1..j - 1] == text[i..j]
  {
  }

  lemma LatestIsFirst(text: Text, step: string, j: nat)
    requires Extends(text, 0, j) && Names(text[0], step) && NoneNames(text, step, 1)
    ensures LatestFor(text, step) == Some(Tidy(text[..j]))
  {
    var rest := text[1..];
    LatestFirst(text, step);
    NoneNamesRest(text, step, 0);
    NothingIsRead(rest, step);
    PreambleEnds(rest, j - 1);
    assert text[..j] == [text[0]] + rest[..j - 1];
  }

  /** What is read for a step starts at the last line that names it and ends before the next header. */
  lemma {:induction false} LatestIs(text: Text, step: string, i: nat, j: nat)
    requires Extends(text, i, j) && Names(text[i], step) && NoneNames(text, step, i + 1)
    ensures LatestFor(text, step) == Some(Tidy(text[i..j]))
    decreases i
  {
    if i == 0 {
      LatestIsFirst(text, step, j);
    } else {
      LatestFirst(text, step);
      NoneNamesRest(text, step, i);
      ExtendsRest(text, i, j);
      LatestIs(text[1..], step, i - 1, j - 1);
    }
  }

  lemma {:induction false} SelectedSnoc(blocks: seq<Text>, b: Text, step: string)
    requires b != [] && HeaderFor(b[0], step)
    ensures Selected(blocks + [b], step) == Selected(blocks, step) + [Tidy(b)]
    decreases |blocks|
  {
    if blocks == [] {
      assert blocks + [b] == [b] && [b][1..] == [];
    } else {
      assert (blocks + [b])[1..] == blocks[1..] + [b];
      SelectedSnoc(blocks[1..], b, step);
    }
  }

  lemma {:induction false} SelectedIsBlock(blocks: seq<Text>, step: string, x: Text) returns (b: Text)
    requires x in Selected(blocks, step)
    ensures b in blocks && x == Tidy(b)
    decreases |blocks|
  {
    assert blocks == [blocks[0]] + blocks[1..];
    if x in Selected(blocks[1..], step) {
      b := SelectedIsBlock(blocks[1..], step, x);
    } else {
      b := blocks[0];
    }
  }

  lemma {:induction false} TidyKeepsSingle(b: Text)
    requires forall i :: 1 <= i < |b| ==> !Header(b[i])
    ensures forall i :: 1 <= i < |Tidy(b)| ==> !Header(Tidy(b)[i])
    decreases |b|
  {
    if b != [] {
      var last := Stripped(b[|b| - 1]);
      TidyKeepsSingle(b[..|b| - 1]);
      if |b| > 1 && Header(last) {
        assert ENTRY_HEADER <= b[|b| - 1];
      }
    }
  }

  /** Whatever is read is one block. */
  lemma LatestIsSingle(text: Text, step: string, found: Text)
    requires LatestFor(text, step) == Some(found)
    ensures forall i :: 1 <= i < |found| ==> !Header(found[i])
  {
    BlocksAre(text);
    var selected := Selected(Blocks(text), step);
    assert found == selected[|selected| - 1];
    var b := SelectedIsBlock(Blocks(text), step, found);
    TidyKeepsSingle(b);
  }

  /**
   * The step that is retried reads the entry that was just written, whole and alone, exactly when no line about
   * the failure starts another.
   */
  lemma NewestIsRead(previous: Text, e: Entry)
    ensures LatestFor(Compact(previous, e), e.target) == Some(Tidy(Lines(e))) <==> SingleHeader(e)
  {
    var kept, entry := LastOf(Blocks(previous), 2), Tidy(Lines(e));
    if SingleHeader(e) {
      TidyEntry(e);
      TidyBehind(Joined(kept), Lines(e));
      BlocksConcat(Joined(kept), entry);
      EntryIsOneBlock(e);
      SelectedSnoc(Blocks(Joined(kept)), entry, e.target);
      TidyTwice(Lines(e));
    } else if LatestFor(Compact(previous, e), e.target) == Some(entry) {
      LatestIsSingle(Compact(previous, e), e.target, entry);
    }
  }

  /** An entry about a failure whose text quotes the header of another entry, with a line behind it. */
  ghost predicate Quoting(e: Entry, quoted: string, more: string) {
    e.details == [ENTRY_HEADER + quoted, more] && Stripped(more) != ""
  }

  /** It is cut at the quoted header, whatever was in the file, and the retried step does not read it whole. */
  lemma QuotedHeaderCuts(previous: Text, e: Entry, quoted: string, more: string)
    requires Quoting(e, quoted, more)
    ensures !SingleHeader(e)
    ensures LatestFor(Compact(previous, e), e.target) != Some(Tidy(Lines(e)))
    ensures Tidied(Blocks(FeedbackAfter([e]))) != LastOf(AllLines([e]), 3)
  {
    var front := [ENTRY_HEADER + e.target, "", "Submitted at: " + e.stamp, "", ENTRY_HEADER + quoted];
    assert Lines(e) == front + [more, ""];
    assert Lines(e)[..6] == front + [more] && Stripped("") == "";
    assert Tidy(Lines(e)) == Tidy(front + [more]) == front + [Stripped(more)];
    assert Header(Tidy(Lines(e))[4]);
    NewestIsRead(previous, e);
    FeedbackIsLastThree([e]);
  }

  // ---------------------------------------------------------------- the files of a run

  class RunFiles {
    var log: string
    var feedback: Text
    ghost var logged: seq<string>
    ghost var failures: seq<Entry>

    ghost predicate Valid()
      reads this
    {
      log == LogAfter(logged) && feedback == FeedbackAfter(failures)
    }

    constructor ()
      ensures Valid() && logged == [] && failures == []
    {
      log, feedback, logged, failures := "", [], [], [];
    }

    method Log(line: string)
      requires Valid()
      modifies `log, `logged
      ensures Valid() && logged == old(logged) + [line]
    {
      var content := Translated(log) + line;
      ghost var whole := content;
      if |content| > MAX_RUN_LOG_CHARS {
        content := ROTATED + content[|content| - MAX_RUN_LOG_CHARS..];
      }
      assert content == Rotated(whole);
      LogOneMore(logged, line);
      log := content;
      logged := logged + [line];
    }

    method AppendFailureFeedback(e: Entry)
      requires Valid()
      modifies `feedback, `failures
      ensures Valid() && failures == old(failures) + [e]
    {
      var blocks := Blocks(feedback);
      var kept := if |blocks| <= 2 then blocks else blocks[|blocks| - 2..];
      feedback := Tidy(Joined(kept) + Lines(e));
      failures := failures + [e];
      assert failures[..|failures| - 1] == old(failures);
    }
  }
}
