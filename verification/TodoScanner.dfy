/**
 * From the agent's todo text to a task manifest (app/auto_workflow/orchestrator.py): the
 * scans for task ids, sections and dependencies, and the manifest built from them.
 */
module TodoScanner {
  import opened Prelude
  import opened TaskCompiler

  // ---------------------------------------------------------------- task ids

  /** `\bTASK-\d{3}\b` at position `i`. */
  predicate MatchAt(u: Unicode, t: string, i: nat) {
    && IdAt(u, t, i)
    && (i == 0 || !u.IsWord(t[i - 1]))
    && (i + 8 == |t| || !u.IsWord(t[i + 8]))
  }

  /** `finditer` from position `i` on: leftmost matches, none overlapping the one before. */
  function MatchesFrom(u: Unicode, t: string, i: nat): seq<string>
    decreases |t| - i
  {
    if i >= |t| then []
    else if MatchAt(u, t, i) then [t[i..i + 8]] + MatchesFrom(u, t, i + 8)
    else MatchesFrom(u, t, i + 1)
  }

  function Matches(u: Unicode, t: string): seq<string> {
    MatchesFrom(u, t, 0)
  }

  /** Scanning without overlap misses no match. */
  lemma {:induction false} MatchesComplete(u: Unicode, t: string, i: nat, k: nat)
    requires u.Valid() && i <= k && MatchAt(u, t, k)
    ensures t[k..k + 8] in MatchesFrom(u, t, i)
    decreases |t| - i
  {
    if MatchAt(u, t, i) {
      if k != i {
        assert i + 8 <= k by {
          assert t[k] == 'T';
        }
        MatchesComplete(u, t, i + 8, k);
      }
    } else {
      MatchesComplete(u, t, i + 1, k);
    }
  }

  lemma {:induction false} MatchesSound(u: Unicode, t: string, i: nat, id: string)
    requires id in MatchesFrom(u, t, i)
    ensures exists k: nat :: i <= k && MatchAt(u, t, k) && t[k..k + 8] == id
    ensures ValidId(u, id)
    decreases |t| - i
  {
    if MatchAt(u, t, i) {
      if id != t[i..i + 8] {
        MatchesSound(u, t, i + 8, id);
      }
    } else {
      MatchesSound(u, t, i + 1, id);
    }
  }

  /** First occurrences only. */
  function Dedupe(s: seq<string>): seq<string> {
    if s == [] then []
    else
      var rest := Dedupe(s[..|s| - 1]);
      if s[|s| - 1] in s[..|s| - 1] then rest else rest + [s[|s| - 1]]
  }

  /** `x` occurs before the first `y`. */
  predicate FirstBefore(s: seq<string>, x: string, y: string) {
    exists p :: 0 <= p < |s| && s[p] == x && y !in s[..p + 1]
  }

  lemma FirstBeforeExtends(s: seq<string>, last: string, x: string, y: string)
    requires FirstBefore(s, x, y) || (x in s && y !in s)
    ensures FirstBefore(s + [last], x, y)
  {
    var p :| 0 <= p < |s| && s[p] == x && (FirstBefore(s, x, y) ==> y !in s[..p + 1]);
    assert (s + [last])[p] == x && (s + [last])[..p + 1] == s[..p + 1];
    assert forall z :: z in s[..p + 1] ==> z in s;
  }

  /** The ids in the order in which they first occur: each once, and all of them. */
  lemma {:induction false} DedupeKeepsFirst(s: seq<string>)
    ensures Distinct(Dedupe(s)) && forall x :: x in Dedupe(s) <==> x in s
    ensures forall i, j :: 0 <= i < j < |Dedupe(s)| ==> FirstBefore(s, Dedupe(s)[i], Dedupe(s)[j])
  {
    if s != [] {
      var n := |s| - 1;
      var rest, d := s[..n], Dedupe(s);
      DedupeKeepsFirst(rest);
      assert s == rest + [s[n]];
      forall i, j | 0 <= i < j < |d|
        ensures FirstBefore(s, d[i], d[j])
      {
        assert d[i] in Dedupe(rest);
        FirstBeforeExtends(rest, s[n], d[i], d[j]);
      }
    }
  }

  method OrderedTaskIds(u: Unicode, todo: string) returns (ordered: seq<string>)
    ensures ordered == Dedupe(Matches(u, todo))
  {
    var seen: set<string> := {};
    ordered := [];
    ghost var found: seq<string> := [];
    var i := 0;
    while i < |todo|
      invariant Matches(u, todo) == found + MatchesFrom(u, todo, i)
      invariant ordered == Dedupe(found) && seen == ToSet(found)
      decreases |todo| - i
    {
      if MatchAt(u, todo, i) {
        var id := todo[i..i + 8];
        assert (found + [id])[..|found|] == found;
        assert found + ([id] + MatchesFrom(u, todo, i + 8)) == (found + [id]) + MatchesFrom(u, todo, i + 8);
        ToSetSnoc(found, id);
        if id !in seen {
          seen, ordered := seen + {id}, ordered + [id];
        }
        assert ToSet(found) + {id} == seen;
        found, i := found + [id], i + 8;
      } else {
        i := i + 1;
      }
    }
    assert found + [] == found;
  }

  // ---------------------------------------------------------------- sections

  function SkipSpaces(u: Unicode, t: string, i: nat): (j: nat)
    ensures i <= j && forall k :: i <= k < j && k < |t| ==> u.IsSpace(t[k])
    ensures j < |t| ==> !u.IsSpace(t[j])
    ensures j <= |t| || j == i
    decreases |t| - i
  {
    if i < |t| && u.IsSpace(t[i]) then SkipSpaces(u, t, i + 1) else i
  }

  predicate LineStart(t: string, i: nat) {
    i == 0 || (i <= |t| && t[i - 1] == '\n')
  }

  /** `^###\s+` at position `i`, with a task id and a word boundary behind it: where the id begins. */
  function Heading(u: Unicode, t: string, i: nat): (j: Option<nat>)
    ensures j.Some? ==> i + 4 <= j.value && IdAt(u, t, j.value) && t[i] == t[i + 1] == t[i + 2] == '#'
                        && forall k :: i + 3 <= k < j.value ==> u.IsSpace(t[k])
    ensures j.Some? ==> j.value + 8 == |t| || !u.IsWord(t[j.value + 8])
  {
    if i + 3 <= |t| && LineStart(t, i) && t[i] == '#' && t[i + 1] == '#' && t[i + 2] == '#' then
      var j := SkipSpaces(u, t, i + 3);
      if j > i + 3 && IdAt(u, t, j) && (j + 8 == |t| || !u.IsWord(t[j + 8])) then Some(j) else None
    else None
  }

  predicate HeadingOf(u: Unicode, t: string, i: nat, id: string) {
    var j := Heading(u, t, i);
    j.Some? && t[j.value..j.value + 8] == id
  }

  /** Where a section may end: before the next task heading, before a `## ` heading, at the end. */
  predicate Stop(u: Unicode, t: string, e: nat) {
    e >= |t|
    || Heading(u, t, e).Some?
    || (e + 2 < |t| && LineStart(t, e) && t[e] == '#' && t[e + 1] == '#' && u.IsSpace(t[e + 2]))
  }

  function FirstStop(u: Unicode, t: string, e: nat): (r: nat)
    requires e <= |t|
    ensures e <= r <= |t| && Stop(u, t, r)
    ensures forall k :: e <= k < r ==> !Stop(u, t, k)
    decreases |t| - e
  {
    if Stop(u, t, e) then e else FirstStop(u, t, e + 1)
  }

  function FirstHeading(u: Unicode, t: string, id: string, i: nat): (r: Option<nat>)
    ensures r.Some? ==> i <= r.value < |t| && HeadingOf(u, t, r.value, id)
    decreases |t| - i
  {
    if i >= |t| then None
    else if HeadingOf(u, t, i, id) then Some(i)
    else FirstHeading(u, t, id, i + 1)
  }

  /** `str.strip`: what is left has no blank at its ends. */
  function Strip(u: Unicode, s: string): (r: string)
    ensures |r| <= |s| && (r == "" <==> Blank(u, s))
    ensures r != "" ==> !u.IsSpace(r[0]) && !u.IsSpace(r[|r| - 1])
    decreases |s|
  {
    if s == "" then ""
    else if u.IsSpace(s[0]) then Strip(u, s[1..])
    else StripRight(u, s)
  }

  function StripRight(u: Unicode, s: string): (r: string)
    ensures |r| <= |s| && r == s[..|r|] && forall i :: |r| <= i < |s| ==> u.IsSpace(s[i])
    ensures r != "" ==> !u.IsSpace(r[|r| - 1])
    decreases |s|
  {
    if s != "" && u.IsSpace(s[|s| - 1]) then StripRight(u, s[..|s| - 1]) else s
  }

  /** A section before it is stripped: where it starts, where its id is, where it ends. */
  datatype Span = Span(start: nat, id: nat, end: nat)

  ghost predicate SpanOf(u: Unicode, t: string, id: string, s: Span) {
    && s.start + 4 <= s.id && s.id + 8 <= s.end <= |t|
    && t[s.start] == t[s.start + 1] == t[s.start + 2] == '#'
    && (forall k :: s.start + 3 <= k < s.id ==> u.IsSpace(t[k]))
    && IdAt(u, t, s.id) && t[s.id..s.id + 8] == id
    && (s.id + 8 == |t| || !u.IsWord(t[s.id + 8]))
    && (s.end == |t| || LineStart(t, s.end))
  }

  function FindSection(u: Unicode, t: string, id: string): (s: Option<Span>)
    ensures s.Some? ==> SpanOf(u, t, id, s.value)
  {
    match FirstHeading(u, t, id, 0)
    case None => None
    case Some(i) =>
      var j := Heading(u, t, i).value;
      var e := FirstStop(u, t, j + 8);
      StopsAtLineStart(u, t, e);
      Some(Span(i, j, e))
  }

  /** `_task_section`: from the task's heading to the first stop, stripped. */
  function Section(u: Unicode, t: string, id: string): string {
    match FindSection(u, t, id)
    case None => ""
    case Some(s) => Strip(u, t[s.start..s.end])
  }

  lemma StopsAtLineStart(u: Unicode, t: string, e: nat)
    requires Stop(u, t, e) && e <= |t|
    ensures e == |t| || LineStart(t, e)
  {
  }

  /** A stripped slice that ends at a line start, or at the end of the text, ends where no word goes on. */
  lemma StrippedSlice(u: Unicode, t: string, a: nat, h: nat, e: nat) returns (b: nat)
    requires u.Valid() && a < h <= e <= |t| && !u.IsSpace(t[a]) && !u.IsSpace(t[h - 1])
    requires e == |t| || LineStart(t, e)
    ensures h <= b <= e && Strip(u, t[a..e]) == t[a..b]
    ensures b == |t| || !u.IsWord(t[b])
  {
    var raw := t[a..e];
    var r := StripRight(u, raw);
    b := a + |r|;
    assert r == raw[..|r|] == t[a..b];
    assert raw[h - 1 - a] == t[h - 1] && raw[e - 1 - a] == t[e - 1];
    if b < e {
      assert u.IsSpace(raw[|r|]);
    }
  }

  lemma SpanHasNoBlankEnds(u: Unicode, t: string, id: string, s: Span)
    requires u.Valid() && SpanOf(u, t, id, s)
    ensures !u.IsSpace(t[s.start]) && !u.IsSpace(t[s.id + 7])
    ensures SpanOf(u, t, id, s.(end := |t|))
  {
  }

  lemma SliceOfSpan(u: Unicode, t: string, id: string, s: Span) returns (b: nat)
    requires u.Valid() && SpanOf(u, t, id, s)
    ensures s.id + 8 <= b <= s.end && Strip(u, t[s.start..s.end]) == t[s.start..b]
    ensures b == |t| || !u.IsWord(t[b])
  {
    SpanHasNoBlankEnds(u, t, id, s);
    b := StrippedSlice(u, t, s.start, s.id + 8, s.end);
  }

  /** What a section is in the text: it starts at its heading and ends where no word goes on. */
  lemma SectionIsSlice(u: Unicode, t: string, id: string) returns (s: Span)
    requires u.Valid() && Section(u, t, id) != ""
    ensures SpanOf(u, t, id, s.(end := |t|)) && s.id + 8 <= s.end <= |t|
    ensures Section(u, t, id) == t[s.start..s.end] && (s.end == |t| || !u.IsWord(t[s.end]))
  {
    s := FindSection(u, t, id).value;
    SpanHasNoBlankEnds(u, t, id, s);
    var b := SliceOfSpan(u, t, id, s);
    assert Section(u, t, id) == Strip(u, t[s.start..s.end]);
    s := s.(end := b);
  }

  lemma MatchInSlice(u: Unicode, t: string, a: nat, b: nat, k: nat)
    requires a < b <= |t| && t[a] == '#' && (b == |t| || !u.IsWord(t[b]))
    requires MatchAt(u, t[a..b], k)
    ensures MatchAt(u, t, a + k) && t[a..b][k..k + 8] == t[a + k..a + k + 8]
  {
  }

  /** A match inside a section is a match of the whole text. */
  lemma SectionMatches(u: Unicode, t: string, id: string, k: nat)
    requires u.Valid() && MatchAt(u, Section(u, t, id), k)
    ensures Section(u, t, id)[k..k + 8] in Matches(u, t)
  {
    var s := SectionIsSlice(u, t, id);
    MatchOfSlice(u, t, s.start, s.end, k);
  }

  lemma MatchOfSlice(u: Unicode, t: string, a: nat, b: nat, k: nat)
    requires u.Valid() && a < b <= |t| && t[a] == '#' && (b == |t| || !u.IsWord(t[b]))
    requires MatchAt(u, t[a..b], k)
    ensures t[a..b][k..k + 8] in Matches(u, t)
  {
    MatchInSlice(u, t, a, b, k);
    MatchesComplete(u, t, 0, a + k);
  }

  // ---------------------------------------------------------------- dependencies

  /** The ids a section mentions, but for the first one. */
  function DependencyIds(u: Unicode, section: string): set<string> {
    var found := Matches(u, section);
    if found == [] then {} else ToSet(found) - {found[0]}
  }

  /** Every dependency read from a section is a task of the whole text, and not the section's own. */
  lemma DependenciesAreTasks(u: Unicode, t: string, id: string, dep: string)
    requires u.Valid() && dep in DependencyIds(u, Section(u, t, id))
    ensures dep in Dedupe(Matches(u, t)) && dep != id
  {
    var section := Section(u, t, id);
    MatchesSound(u, section, 0, dep);
    var k: nat :| MatchAt(u, section, k) && section[k..k + 8] == dep;
    SectionMatches(u, t, id, k);
    DedupeKeepsFirst(Matches(u, t));
    FirstIsOwn(u, t, id);
  }

  /** The text opens with `###`, blanks, and at `j` a task id that ends there. */
  ghost predicate OpensWith(u: Unicode, s: string, j: nat) {
    && 4 <= j && j + 8 <= |s| && IdAt(u, s, j) && (j + 8 == |s| || !u.IsWord(s[j + 8]))
    && s[0] == s[1] == s[2] == '#' && forall k :: 3 <= k < j ==> u.IsSpace(s[k])
  }

  lemma SpanOpens(u: Unicode, t: string, id: string, s: Span, b: nat)
    requires SpanOf(u, t, id, s.(end := |t|)) && s.id + 8 <= b <= |t|
    ensures OpensWith(u, t[s.start..b], s.id - s.start)
    ensures t[s.start..b][s.id - s.start..s.id - s.start + 8] == id
  {
    var section := t[s.start..b];
    assert section[s.id - s.start..s.id - s.start + 8] == t[s.id..s.id + 8];
  }

  lemma HeadingComesFirst(u: Unicode, s: string, j: nat)
    requires u.Valid() && OpensWith(u, s, j)
    ensures Matches(u, s) != [] && Matches(u, s)[0] == s[j..j + 8]
  {
    assert MatchAt(u, s, j);
    forall k | 0 <= k < j
      ensures !MatchAt(u, s, k)
    {
      assert u.IsWord('T');
    }
    SkipNonMatches(u, s, 0, j);
  }

  /** The first id a section mentions is its own. */
  lemma FirstIsOwn(u: Unicode, t: string, id: string)
    requires u.Valid() && Section(u, t, id) != ""
    ensures Matches(u, Section(u, t, id)) != [] && Matches(u, Section(u, t, id))[0] == id
  {
    var s := SectionIsSlice(u, t, id);
    FirstOfSlice(u, t, id, s, s.end);
  }

  lemma FirstOfSlice(u: Unicode, t: string, id: string, s: Span, b: nat)
    requires u.Valid() && SpanOf(u, t, id, s.(end := |t|)) && s.id + 8 <= b <= |t|
    ensures Matches(u, t[s.start..b]) != [] && Matches(u, t[s.start..b])[0] == id
  {
    SpanOpens(u, t, id, s, b);
    HeadingComesFirst(u, t[s.start..b], s.id - s.start);
  }

  lemma {:induction false} SkipNonMatches(u: Unicode, t: string, i: nat, j: nat)
    requires i <= j && MatchAt(u, t, j) && forall k :: i <= k < j ==> !MatchAt(u, t, k)
    ensures MatchesFrom(u, t, i) == [t[j..j + 8]] + MatchesFrom(u, t, j + 8)
    decreases j - i
  {
    if i < j {
      SkipNonMatches(u, t, i + 1, j);
    }
  }

  // ---------------------------------------------------------------- what the scans find, in the text itself

  /** The id stands at position `k`, with no word going on before or behind it. */
  ghost predicate OccursAt(u: Unicode, t: string, k: nat, id: string) {
    && k + 8 <= |t| && t[k..k + 8] == id && t[k..k + 5] == "TASK-"
    && u.IsDigit(t[k + 5]) && u.IsDigit(t[k + 6]) && u.IsDigit(t[k + 7])
    && (k == 0 || !u.IsWord(t[k - 1])) && (k + 8 == |t| || !u.IsWord(t[k + 8]))
  }

  lemma OccursIsMatch(u: Unicode, t: string, k: nat, id: string)
    ensures OccursAt(u, t, k, id) <==> MatchAt(u, t, k) && t[k..k + 8] == id
  {
    if k + 8 <= |t| {
      var head := t[k..k + 5];
      assert head == [t[k], t[k + 1], t[k + 2], t[k + 3], t[k + 4]];
      assert "TASK-" == ['T', 'A', 'S', 'K', '-'];
    }
  }

  /** The ids of a text are exactly those that occur in it. */
  lemma TaskIdsOccur(u: Unicode, t: string, id: string)
    requires u.Valid()
    ensures id in Dedupe(Matches(u, t)) <==> exists k: nat :: OccursAt(u, t, k, id)
  {
    DedupeKeepsFirst(Matches(u, t));
    if id in Matches(u, t) {
      MatchesSound(u, t, 0, id);
      var k: nat :| MatchAt(u, t, k) && t[k..k + 8] == id;
      OccursIsMatch(u, t, k, id);
    }
    if k: nat :| OccursAt(u, t, k, id) {
      OccursIsMatch(u, t, k, id);
      MatchesComplete(u, t, 0, k);
    }
  }

  /** The scan lists its matches by position: what occurs up to the place of an entry is listed up to that entry. */
  lemma {:induction false} PlaceOfMatch(u: Unicode, t: string, i: nat, p: nat) returns (k: nat)
    requires u.Valid() && p < |MatchesFrom(u, t, i)|
    ensures i <= k && MatchAt(u, t, k) && t[k..k + 8] == MatchesFrom(u, t, i)[p]
    ensures forall m :: i <= m <= k && MatchAt(u, t, m) ==> t[m..m + 8] in MatchesFrom(u, t, i)[..p + 1]
    decreases |t| - i
  {
    var found := MatchesFrom(u, t, i);
    if MatchAt(u, t, i) {
      var rest := MatchesFrom(u, t, i + 8);
      assert found == [t[i..i + 8]] + rest;
      if p == 0 {
        k := i;
        assert found[..1] == [t[i..i + 8]];
      } else {
        k := PlaceOfMatch(u, t, i + 8, p - 1);
        assert found[..p + 1] == [t[i..i + 8]] + rest[..p];
        forall m | i < m < i + 8
          ensures !MatchAt(u, t, m)
        {
          assert t[i] == 'T';
        }
      }
    } else {
      k := PlaceOfMatch(u, t, i + 1, p);
    }
  }

  /** The ids come in the order in which they first occur. */
  lemma TaskIdsInOrder(u: Unicode, t: string, i: nat, j: nat) returns (k: nat)
    requires u.Valid() && i < j < |Dedupe(Matches(u, t))|
    ensures OccursAt(u, t, k, Dedupe(Matches(u, t))[i])
    ensures forall m :: 0 <= m <= k ==> !OccursAt(u, t, m, Dedupe(Matches(u, t))[j])
  {
    var s := Matches(u, t);
    var x, y := Dedupe(s)[i], Dedupe(s)[j];
    DedupeKeepsFirst(s);
    var p :| 0 <= p < |s| && s[p] == x && y !in s[..p + 1];
    k := PlaceOfMatch(u, t, 0, p);
    OccursIsMatch(u, t, k, x);
    forall m | 0 <= m <= k
      ensures !OccursAt(u, t, m, y)
    {
      OccursIsMatch(u, t, m, y);
    }
  }

  /** A line that opens with `###`, blanks, and at `j` a task id that ends there. */
  ghost predicate HeadingLine(u: Unicode, t: string, k: nat, j: nat, id: string) {
    && (k == 0 || (k <= |t| && t[k - 1] == '\n'))
    && k + 4 <= j && j + 8 <= |t| && t[k] == '#' && t[k + 1] == '#' && t[k + 2] == '#'
    && (forall m :: k + 3 <= m < j ==> u.IsSpace(t[m]))
    && t[j..j + 8] == id && t[j..j + 5] == "TASK-"
    && u.IsDigit(t[j + 5]) && u.IsDigit(t[j + 6]) && u.IsDigit(t[j + 7])
    && (j + 8 == |t| || !u.IsWord(t[j + 8]))
  }

  /** A line that opens with `##` and a blank. */
  ghost predicate SectionLine(u: Unicode, t: string, k: nat) {
    k + 2 < |t| && (k == 0 || t[k - 1] == '\n') && t[k] == '#' && t[k + 1] == '#' && u.IsSpace(t[k + 2])
  }

  /** A line at which a section ends: the next task's, or that of the next part of the text. */
  ghost predicate EndLine(u: Unicode, t: string, k: nat) {
    SectionLine(u, t, k) || exists j, id :: HeadingLine(u, t, k, j, id)
  }

  lemma {:induction false} SpacesSkipped(u: Unicode, t: string, i: nat, j: nat)
    requires i <= j < |t| && !u.IsSpace(t[j]) && forall m :: i <= m < j ==> u.IsSpace(t[m])
    ensures SkipSpaces(u, t, i) == j
    decreases j - i
  {
    if i < j {
      SpacesSkipped(u, t, i + 1, j);
    }
  }

  lemma HeadingIsLine(u: Unicode, t: string, k: nat, j: nat)
    requires u.Valid() && j + 8 <= |t|
    ensures Heading(u, t, k) == Some(j) <==> HeadingLine(u, t, k, j, t[j..j + 8])
  {
    assert t[j..j + 5] == [t[j], t[j + 1], t[j + 2], t[j + 3], t[j + 4]];
    assert "TASK-" == ['T', 'A', 'S', 'K', '-'];
    if HeadingLine(u, t, k, j, t[j..j + 8]) {
      assert !u.IsSpace('T');
      SpacesSkipped(u, t, k + 3, j);
    }
  }

  lemma StopIsEndLine(u: Unicode, t: string, k: nat)
    requires u.Valid() && k < |t|
    ensures Stop(u, t, k) <==> EndLine(u, t, k)
  {
    if Heading(u, t, k).Some? {
      var j := Heading(u, t, k).value;
      HeadingIsLine(u, t, k, j);
      assert HeadingLine(u, t, k, j, t[j..j + 8]);
    }
    if j, id :| HeadingLine(u, t, k, j, id) {
      HeadingIsLine(u, t, k, j);
    }
  }

  /**
   * Where the section of a task lies: from its first heading at `start`, with the id at `own`, up to `end`, which is
   * the first end line behind the id, or the end of the text.
   */
  ghost predicate SectionAt(u: Unicode, t: string, id: string, start: nat, own: nat, end: nat) {
    && HeadingLine(u, t, start, own, id) && (forall k, j :: 0 <= k < start ==> !HeadingLine(u, t, k, j, id))
    && own + 8 <= end <= |t|
    && (forall k :: own + 8 <= k < end ==> !EndLine(u, t, k))
    && (end == |t| || EndLine(u, t, end))
  }

  lemma {:induction false} FirstHeadingIs(u: Unicode, t: string, id: string, i: nat)
    ensures match FirstHeading(u, t, id, i)
            case None => forall k :: i <= k < |t| ==> !HeadingOf(u, t, k, id)
            case Some(start) => HeadingOf(u, t, start, id) && forall k :: i <= k < start ==> !HeadingOf(u, t, k, id)
    decreases |t| - i
  {
    if i < |t| && !HeadingOf(u, t, i, id) {
      FirstHeadingIs(u, t, id, i + 1);
    }
  }

  lemma HeadingOfIs(u: Unicode, t: string, id: string, k: nat)
    requires u.Valid()
    ensures HeadingOf(u, t, k, id) <==> exists j :: HeadingLine(u, t, k, j, id)
  {
    if Heading(u, t, k).Some? {
      HeadingIsLine(u, t, k, Heading(u, t, k).value);
    }
    if j :| HeadingLine(u, t, k, j, id) {
      HeadingIsLine(u, t, k, j);
    }
  }

  lemma NoSection(u: Unicode, t: string, id: string)
    requires u.Valid() && FindSection(u, t, id).None?
    ensures forall k, j :: !HeadingLine(u, t, k, j, id)
  {
    FirstHeadingIs(u, t, id, 0);
    forall k, j
      ensures !HeadingLine(u, t, k, j, id)
    {
      HeadingOfIs(u, t, id, k);
    }
  }

  lemma StopsAreEndLines(u: Unicode, t: string, from: nat, end: nat)
    requires u.Valid() && end <= |t| && Stop(u, t, end) && forall k :: from <= k < end ==> !Stop(u, t, k)
    ensures (forall k :: from <= k < end ==> !EndLine(u, t, k)) && (end == |t| || EndLine(u, t, end))
  {
    forall k | from <= k < end
      ensures !EndLine(u, t, k)
    {
      StopIsEndLine(u, t, k);
    }
    if end < |t| {
      StopIsEndLine(u, t, end);
    }
  }

  lemma NoneBefore(u: Unicode, t: string, id: string, start: nat)
    requires u.Valid() && FirstHeading(u, t, id, 0) == Some(start)
    ensures forall k, j :: 0 <= k < start ==> !HeadingLine(u, t, k, j, id)
  {
    FirstHeadingIs(u, t, id, 0);
    forall k, j | 0 <= k < start
      ensures !HeadingLine(u, t, k, j, id)
    {
      HeadingOfIs(u, t, id, k);
    }
  }

  lemma SectionFound(u: Unicode, t: string, id: string, s: Span)
    requires u.Valid() && FindSection(u, t, id) == Some(s)
    ensures SectionAt(u, t, id, s.start, s.id, s.end)
  {
    NoneBefore(u, t, id, s.start);
    HeadingIsLine(u, t, s.start, s.id);
    StopsAreEndLines(u, t, s.id + 8, s.end);
  }

  /** There is only one such place. */
  lemma SectionAtIsUnique(u: Unicode, t: string, id: string, a: nat, j: nat, e: nat, a': nat, j': nat, e': nat)
    requires u.Valid() && SectionAt(u, t, id, a, j, e) && SectionAt(u, t, id, a', j', e')
    ensures a == a' && j == j' && e == e'
  {
    assert a == a';
    HeadingIsLine(u, t, a, j);
    HeadingIsLine(u, t, a, j');
  }

  /** A section is its stretch of the text without the blanks behind it; it is empty without a heading. */
  lemma SectionIs(u: Unicode, t: string, id: string) returns (s: Span, b: nat)
    requires u.Valid()
    ensures Section(u, t, id) == "" <==> forall k, j :: !HeadingLine(u, t, k, j, id)
    ensures Section(u, t, id) != "" ==>
              && SectionAt(u, t, id, s.start, s.id, s.end) && s.id + 8 <= b <= s.end
              && Section(u, t, id) == t[s.start..b]
              && forall k :: b <= k < s.end ==> u.IsSpace(t[k])
  {
    s, b := Span(0, 0, 0), 0;
    if FindSection(u, t, id).None? {
      NoSection(u, t, id);
    } else {
      s := FindSection(u, t, id).value;
      SectionFound(u, t, id, s);
      SpanHasNoBlankEnds(u, t, id, s);
      b := SliceOfSpan(u, t, id, s);
      BlankBehind(u, t, s.start, s.end, b);
      assert HeadingLine(u, t, s.start, s.id, id) && |t[s.start..b]| > 0;
    }
  }

  lemma BlankBehind(u: Unicode, t: string, a: nat, e: nat, b: nat)
    requires a < b <= e <= |t| && !u.IsSpace(t[a]) && Strip(u, t[a..e]) == t[a..b]
    ensures forall k :: b <= k < e ==> u.IsSpace(t[k])
  {
    var raw := t[a..e];
    assert raw[0] == t[a] && Strip(u, raw) == StripRight(u, raw);
    forall k | b <= k < e
      ensures u.IsSpace(t[k])
    {
      assert raw[k - a] == t[k];
    }
  }

  /** A task depends on another if that one's id occurs in its section. */
  ghost predicate DependsOn(u: Unicode, t: string, id: string, d: string) {
    d != id && exists start: nat, own: nat, end: nat, k: nat ::
      SectionAt(u, t, id, start, own, end) && start <= k && k + 8 <= end && OccursAt(u, t, k, d)
  }

  lemma OccursInSlice(u: Unicode, t: string, a: nat, b: nat, k: nat, d: string)
    requires u.Valid() && a < k && k + 8 <= b <= |t| && OccursAt(u, t, k, d)
    ensures OccursAt(u, t[a..b], k - a, d)
  {
    var slice, i := t[a..b], k - a;
    assert forall m :: 0 <= m < |slice| ==> slice[m] == t[a + m];
    assert slice[i..i + 8] == t[k..k + 8];
    assert slice[i..i + 5] == t[k..k + 5];
  }

  /** The dependencies read from a section are exactly the ids that occur between its heading and its end. */
  lemma DependenciesAre(u: Unicode, t: string, id: string, d: string)
    requires u.Valid()
    ensures d in DependencyIds(u, Section(u, t, id)) <==> DependsOn(u, t, id, d)
  {
    var s, b := SectionIs(u, t, id);
    if Section(u, t, id) == "" {
      assert Matches(u, "") == [];
    } else {
      FirstIsOwn(u, t, id);
      if d in DependencyIds(u, Section(u, t, id)) {
        DependenciesAreTasks(u, t, id, d);
        DependencyOccurs(u, t, id, d, s, b);
      }
      if DependsOn(u, t, id, d) {
        OccursMeansDependency(u, t, id, d, s, b);
      }
    }
  }

  lemma DependencyOccurs(u: Unicode, t: string, id: string, d: string, s: Span, b: nat)
    requires u.Valid() && SectionAt(u, t, id, s.start, s.id, s.end) && s.id + 8 <= b <= s.end
    requires d != id && d in Matches(u, t[s.start..b]) && forall k :: b <= k < s.end ==> u.IsSpace(t[k])
    ensures DependsOn(u, t, id, d)
  {
    EndsNoWord(u, t, s.end);
    assert b == |t| || !u.IsWord(t[b]);
    var k := MatchedInSlice(u, t, s.start, b, d);
    assert SectionAt(u, t, id, s.start, s.id, s.end) && k + 8 <= s.end;
  }

  lemma MatchedInSlice(u: Unicode, t: string, a: nat, b: nat, d: string) returns (k: nat)
    requires u.Valid() && a < b <= |t| && t[a] == '#' && (b == |t| || !u.IsWord(t[b]))
    requires d in Matches(u, t[a..b])
    ensures a <= k && k + 8 <= b && OccursAt(u, t, k, d)
  {
    MatchesSound(u, t[a..b], 0, d);
    var m: nat :| MatchAt(u, t[a..b], m) && t[a..b][m..m + 8] == d;
    MatchInSlice(u, t, a, b, m);
    k := a + m;
    OccursIsMatch(u, t, k, d);
  }

  lemma EndsNoWord(u: Unicode, t: string, end: nat)
    requires u.Valid() && (end == |t| || EndLine(u, t, end))
    ensures end >= |t| || !u.IsWord(t[end])
  {
  }

  lemma OccursMeansDependency(u: Unicode, t: string, id: string, d: string, s: Span, b: nat)
    requires u.Valid() && DependsOn(u, t, id, d) && SectionAt(u, t, id, s.start, s.id, s.end)
    requires s.id + 8 <= b <= s.end && (forall k :: b <= k < s.end ==> u.IsSpace(t[k]))
    ensures d in Matches(u, t[s.start..b])
  {
    var start: nat, own: nat, end: nat, k: nat :|
      SectionAt(u, t, id, start, own, end) && start <= k && k + 8 <= end && OccursAt(u, t, k, d);
    SectionAtIsUnique(u, t, id, s.start, s.id, s.end, start, own, end);
    OccursInside(u, t, d, s.start, s.end, b, k);
  }

  lemma OccursInside(u: Unicode, t: string, d: string, a: nat, e: nat, b: nat, k: nat)
    requires u.Valid() && a < b <= e <= |t| && t[a] == '#' && (forall m :: b <= m < e ==> u.IsSpace(t[m]))
    requires a <= k && k + 8 <= e && OccursAt(u, t, k, d)
    ensures d in Matches(u, t[a..b])
  {
    assert t[k..k + 5][0] == 'T';
    assert !u.IsSpace(t[k + 7]);
    OccursInSlice(u, t, a, b, k, d);
    OccursIsMatch(u, t[a..b], k - a, d);
    MatchesComplete(u, t[a..b], 0, k - a);
  }

  // ---------------------------------------------------------------- the manifest

  /** What the remaining expressions capture for one task: free text, or nothing. */
  datatype Reading = Reading(
    heading: Option<string>,
    tableRow: Option<string>,
    owner: Option<string>,
    criteria: seq<string>)

  const DEFAULT_CRITERION := "Task-specific acceptance criteria are described in todo.md."

  /** The source directories that a build may write to. */
  const SOURCE_ROOTS: seq<string> := ["app", "src", "lib", "static", "data", "docs"]

  function Title(u: Unicode, id: string, r: Reading): (title: string)
    requires !Blank(u, id)
    ensures !Blank(u, title)
  {
    var captured := if r.heading.Some? then r.heading else r.tableRow;
    if captured.None? || Strip(u, captured.value) == "" then id
    else
      StripTwice(u, captured.value);
      Strip(u, captured.value)
  }

  lemma StripTwice(u: Unicode, s: string)
    requires Strip(u, s) != ""
    ensures !Blank(u, Strip(u, s))
  {
  }

  function OwnerOf(r: Reading): (o: Owner)
    ensures !o.Unsupported?
  {
    if r.owner == Some("planning") then Planning
    else if r.owner == Some("generate_tests") then GenerateTests
    else if r.owner == Some("run_external_validation") then RunExternalValidation
    else Build
  }

  function Existing(roots: seq<string>, directories: set<string>): seq<string> {
    if roots == [] then []
    else (if roots[0] in directories then [roots[0] + "/"] else []) + Existing(roots[1..], directories)
  }

  function WritePaths(owner: Owner, directories: set<string>): seq<string> {
    match owner
    case GenerateTests => ["tests/"]
    case Planning => []
    case RunExternalValidation => []
    case _ =>
      var roots := Existing(SOURCE_ROOTS, directories);
      if roots == [] then ["./"] else roots
  }

  /** A directory name, with its slash: two segments, the name and nothing. */
  lemma {:induction false} DirectorySegments(name: string)
    requires forall i :: 0 <= i < |name| ==> name[i] != '/' && name[i] != '\\'
    ensures Parts(name + "/", '/') == [name, ""] && Slashed(name + "/") == name + "/"
  {
    var path := name + "/";
    if name == [] {
      assert Parts("/", '/') == [""] + Parts("/"[1..], '/');
    } else {
      DirectorySegments(name[1..]);
      assert path[1..] == name[1..] + "/";
      assert [name[0]] + name[1..] == name;
    }
    assert Slashed(path) == path;
  }

  predicate PlainName(name: string) {
    && (forall i :: 0 <= i < |name| ==> name[i] != '/' && name[i] != '\\')
    && (name == "." || (name != "" && name[0] != '.'))
  }

  lemma DirectoryIsWritable(name: string)
    requires PlainName(name)
    ensures ValidWritePath(name + "/")
  {
    DirectorySegments(name);
    assert name != ".." && "" != "..";
    forall part | part in FORBIDDEN_WRITE_PARTS
      ensures part[0] == '.' && |part| > 1
    {
    }
  }

  lemma {:induction false} ExistingAreWritable(roots: seq<string>, directories: set<string>)
    requires forall i :: 0 <= i < |roots| ==> PlainName(roots[i])
    ensures forall p :: p in Existing(roots, directories) ==> ValidWritePath(p)
  {
    if roots != [] {
      DirectoryIsWritable(roots[0]);
      ExistingAreWritable(roots[1..], directories);
    }
  }

  lemma RootsArePlain()
    ensures forall i :: 0 <= i < |SOURCE_ROOTS| ==> PlainName(SOURCE_ROOTS[i])
  {
  }

  lemma WritePathsValid(owner: Owner, directories: set<string>)
    ensures forall p :: p in WritePaths(owner, directories) ==> ValidWritePath(p)
  {
    RootsArePlain();
    ExistingAreWritable(SOURCE_ROOTS, directories);
    DirectoryIsWritable("tests");
    DirectoryIsWritable(".");
    assert "tests" + "/" == "tests/" && "." + "/" == "./";
  }

  lemma IdIsNotBlank(u: Unicode, id: string)
    requires u.Valid() && ValidId(u, id)
    ensures !Blank(u, id)
  {
  }

  function TaskOf(u: Unicode, id: string, r: Reading, deps: seq<string>, directories: set<string>): Task
    requires !Blank(u, id)
  {
    Task(id, Title(u, id, r), OwnerOf(r), deps, WritePaths(OwnerOf(r), directories),
         if r.criteria == [] then [DEFAULT_CRITERION] else r.criteria)
  }

  const FALLBACK_ID := "TASK-001"

  function TaskIds(u: Unicode, todo: string): seq<string> {
    Dedupe(Matches(u, todo))
  }

  lemma TaskOfIsValid(u: Unicode, todo: string, id: string, r: Reading, deps: seq<string>, directories: set<string>)
    requires u.Valid() && id in TaskIds(u, todo)
    requires ToSet(deps) == DependencyIds(u, Section(u, todo, id))
    ensures !Blank(u, id) && ValidTask(u, TaskOf(u, id, r, deps, directories), TaskIds(u, todo))
  {
    DedupeKeepsFirst(Matches(u, todo));
    MatchesSound(u, todo, 0, id);
    IdIsNotBlank(u, id);
    WritePathsValid(OwnerOf(r), directories);
    forall d | d in deps
      ensures d in TaskIds(u, todo)
    {
      assert d in ToSet(deps);
      DependenciesAreTasks(u, todo, id, d);
    }
  }

  lemma FallbackIsValid(u: Unicode, directories: set<string>)
    requires u.Valid()
    ensures ValidManifest(u, [Task(FALLBACK_ID, "Implement the requested change", Build, [],
                                   WritePaths(Build, directories),
                                   ["The requested project change is implemented and verified."])])
  {
    WritePathsValid(Build, directories);
    assert u.IsDigit(FALLBACK_ID[5]) && u.IsDigit(FALLBACK_ID[6]) && u.IsDigit(FALLBACK_ID[7]);
    assert !u.IsSpace("Implement the requested change"[0]);
  }

  /** What ids and dependencies come to in the text. */
  lemma ManifestMeans(u: Unicode, todo: string, tasks: seq<Task>)
    requires u.Valid() && Ids(tasks) == TaskIds(u, todo)
    requires forall i :: 0 <= i < |tasks| ==>
               ToSet(tasks[i].dependsOn) == DependencyIds(u, Section(u, todo, tasks[i].id))
    ensures forall id :: id in Ids(tasks) <==> exists k: nat :: OccursAt(u, todo, k, id)
    ensures forall i, d :: 0 <= i < |tasks| ==>
              (d in tasks[i].dependsOn <==> DependsOn(u, todo, tasks[i].id, d))
  {
    forall id
      ensures id in Ids(tasks) <==> exists k: nat :: OccursAt(u, todo, k, id)
    {
      TaskIdsOccur(u, todo, id);
    }
    forall i, d | 0 <= i < |tasks|
      ensures d in tasks[i].dependsOn <==> DependsOn(u, todo, tasks[i].id, d)
    {
      assert d in tasks[i].dependsOn <==> d in ToSet(tasks[i].dependsOn);
      DependenciesAre(u, todo, tasks[i].id, d);
    }
  }

  /** The fields of a task that are read from its section. */
  lemma TaskFields(u: Unicode, id: string, r: Reading, deps: seq<string>, directories: set<string>)
    requires !Blank(u, id)
    ensures var t := TaskOf(u, id, r, deps, directories);
            && t.id == id && t.dependsOn == deps
            && (t.owner == Planning <==> r.owner == Some("planning"))
            && (t.owner == GenerateTests <==> r.owner == Some("generate_tests"))
            && (t.owner == RunExternalValidation <==> r.owner == Some("run_external_validation"))
            && !t.owner.Unsupported?
            && (r.criteria != [] ==> t.acceptance == r.criteria)
            && (r.criteria == [] ==> t.acceptance == [DEFAULT_CRITERION])
            && (match (if r.heading.Some? then r.heading else r.tableRow)
                case None => t.title == id
                case Some(captured) => t.title == if Blank(u, captured) then id else Strip(u, captured))
            && (t.owner == GenerateTests ==> t.writePaths == ["tests/"])
            && (t.owner == Planning || t.owner == RunExternalValidation ==> t.writePaths == [])
  {
    assert "planning"[0] != "generate_tests"[0] && "planning"[0] != "run_external_validation"[0];
    assert "generate_tests"[0] != "run_external_validation"[0];
  }

  /** A build may write to each source directory that there is, and anywhere if there is none. */
  lemma BuildWritesTo(directories: set<string>)
    ensures var paths, roots := WritePaths(Build, directories), {"app", "src", "lib", "static", "data", "docs"};
            && (roots !! directories ==> paths == ["./"])
            && (!(roots !! directories) ==>
                  forall p :: p in paths <==> exists n :: n in roots * directories && p == n + "/")
  {
    ExistingAre(SOURCE_ROOTS, directories);
    forall n
      ensures n in SOURCE_ROOTS <==> n in {"app", "src", "lib", "static", "data", "docs"}
    {
    }
    assert Existing(SOURCE_ROOTS, directories) == [] <==>
             {"app", "src", "lib", "static", "data", "docs"} !! directories;
  }

  lemma {:induction false} ExistingAre(roots: seq<string>, directories: set<string>)
    ensures forall p :: p in Existing(roots, directories)
                        <==> exists n :: n in roots && n in directories && p == n + "/"
    ensures Existing(roots, directories) == [] <==> forall n :: n in roots ==> n !in directories
  {
    if roots != [] {
      ExistingAre(roots[1..], directories);
      assert roots == [roots[0]] + roots[1..];
    }
  }

  /**
   * `task_manifest_from_todo`: one task per id of the text, in order of first occurrence,
   * or the fallback task.  Whatever the text, the manifest is valid exactly if there are no
   * more than twenty ids.
   */
  method TaskManifestFromTodo(u: Unicode, todo: string, read: (string, string) -> Reading, directories: set<string>)
    returns (tasks: seq<Task>)
    requires u.Valid()
    ensures Ids(tasks) == if TaskIds(u, todo) == [] then [FALLBACK_ID] else TaskIds(u, todo)
    ensures TaskIds(u, todo) != [] ==>
              forall i :: 0 <= i < |tasks| ==>
                var id, section := tasks[i].id, Section(u, todo, tasks[i].id);
                && ToSet(tasks[i].dependsOn) == DependencyIds(u, section) && Sorted(tasks[i].dependsOn)
                && !Blank(u, id)
                && tasks[i] == TaskOf(u, id, read(id, section), tasks[i].dependsOn, directories)
    ensures TaskIds(u, todo) != [] ==>
              && (forall id :: id in Ids(tasks) <==> exists k: nat :: OccursAt(u, todo, k, id))
              && (forall i, d :: 0 <= i < |tasks| ==>
                    (d in tasks[i].dependsOn <==> DependsOn(u, todo, tasks[i].id, d)))
    ensures ValidManifest(u, tasks) <==> |TaskIds(u, todo)| <= 20
  {
    var ids := OrderedTaskIds(u, todo);
    DedupeKeepsFirst(Matches(u, todo));
    tasks := [];
    for i := 0 to |ids|
      invariant |tasks| == i && forall k :: 0 <= k < i ==> tasks[k].id == ids[k]
      invariant forall k :: 0 <= k < i ==> ValidTask(u, tasks[k], ids)
      invariant forall k :: 0 <= k < i ==>
                  var id, section := ids[k], Section(u, todo, ids[k]);
                  && ToSet(tasks[k].dependsOn) == DependencyIds(u, section) && Sorted(tasks[k].dependsOn)
                  && !Blank(u, id)
                  && tasks[k] == TaskOf(u, id, read(id, section), tasks[k].dependsOn, directories)
    {
      var section := Section(u, todo, ids[i]);
      var deps := SortedTexts(DependencyIds(u, section));
      var r := read(ids[i], section);
      TaskOfIsValid(u, todo, ids[i], r, deps, directories);
      tasks := tasks + [TaskOf(u, ids[i], r, deps, directories)];
    }
    assert Ids(tasks) == ids;
    ManifestMeans(u, todo, tasks);
    if tasks == [] {
      tasks := [Task(FALLBACK_ID, "Implement the requested change", Build, [], WritePaths(Build, directories),
                     ["The requested project change is implemented and verified."])];
      FallbackIsValid(u, directories);
      assert Ids(tasks) == [FALLBACK_ID];
    }
  }
}
