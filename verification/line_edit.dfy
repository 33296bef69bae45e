/**
 * The line-editing core shared by both replace_parameter implementations:
 * find the first line a matcher accepts and put a new line in its place.
 * The matcher is a parameter so that each script supplies its own notion
 * of "the line for this parameter".
 */
module LineEdit {
  import opened Wrappers
  import opened Strings

  type Matcher = string -> bool

  /** The line both scripts write in place of the matching one: `param = value`. */
  function Assignment(param: string, value: string): string {
    param + " = " + value
  }

  /** The index of the first line `matches` accepts. */
  function FirstWhere(lines: seq<string>, matches: Matcher): (r: Option<nat>)
    ensures r.Some? ==> r.value < |lines| && matches(lines[r.value])
    ensures r.Some? ==> forall j :: 0 <= j < r.value ==> !matches(lines[j])
    ensures r.None? <==> forall j :: 0 <= j < |lines| ==> !matches(lines[j])
  {
    if |lines| == 0 then None
    else if matches(lines[0]) then Some(0)
    else match FirstWhere(lines[1..], matches)
      case None => None
      case Some(j) => Some(j + 1)
  }

  /** The first line `matches` accepts is replaced by `line`; every other line is kept. */
  function ReplaceFirst(lines: seq<string>, matches: Matcher, line: string): (r: seq<string>)
    ensures r == match FirstWhere(lines, matches)
                 case None => lines
                 case Some(i) => lines[i := line]
    ensures |r| == |lines|
  {
    if |lines| == 0 then []
    else if matches(lines[0]) then
      EditHead(lines, line);
      [line] + lines[1..]
    else
      FirstWhereTail(lines, matches);
      match FirstWhere(lines[1..], matches)
      case None =>
        assert [lines[0]] + lines[1..] == lines;
        [lines[0]] + ReplaceFirst(lines[1..], matches, line)
      case Some(i) =>
        EditTail(lines, i, line);
        [lines[0]] + ReplaceFirst(lines[1..], matches, line)
  }

  /** A line the matcher rejects is kept by the edit. */
  lemma ReplaceFirstKeepsRejected(lines: seq<string>, matches: Matcher, line: string, j: nat)
    requires j < |lines| && !matches(lines[j])
    ensures ReplaceFirst(lines, matches, line)[j] == lines[j]
  {
  }

  lemma EditHead(lines: seq<string>, line: string)
    requires |lines| > 0
    ensures [line] + lines[1..] == lines[0 := line]
  {
  }

  lemma EditTail(lines: seq<string>, i: nat, line: string)
    requires i + 1 < |lines|
    ensures [lines[0]] + lines[1..][i := line] == lines[i + 1 := line]
  {
  }

  /** Past a rejected first line, the first match is the tail's first match, one position on. */
  lemma FirstWhereTail(lines: seq<string>, matches: Matcher)
    requires |lines| > 0 && !matches(lines[0])
    ensures FirstWhere(lines, matches).Some? <==> FirstWhere(lines[1..], matches).Some?
    ensures FirstWhere(lines, matches).Some? ==> FirstWhere(lines, matches).value == FirstWhere(lines[1..], matches).value + 1
  {
  }

  /** A line that is accepted and preceded only by rejected lines is the first match. */
  lemma FirstWhereAt(lines: seq<string>, matches: Matcher, i: nat)
    requires i < |lines| && matches(lines[i])
    requires forall j :: 0 <= j < i ==> !matches(lines[j])
    ensures FirstWhere(lines, matches) == Some(i)
  {
  }

  /** Of two lines, an accepted first one is the first match. */
  lemma FirstOfTwo(l0: string, l1: string, matches: Matcher)
    requires matches(l0)
    ensures FirstWhere([l0, l1], matches) == Some(0)
  {
  }

  /** Of two lines, when the second is the first match, only the second is replaced. */
  lemma ReplaceSecondOfTwo(l0: string, l1: string, matches: Matcher, line: string)
    requires FirstWhere([l0, l1], matches) == Some(1)
    ensures ReplaceFirst([l0, l1], matches, line) == [l0, line]
  {
    ReplaceFirstAt([l0, l1], matches, line, 1);
    assert [l0, l1][1 := line] == [l0, line];
  }

  /**
   * Replacing again changes nothing, provided the new line is itself
   * accepted: it then stays the first match and is replaced by itself.
   */
  lemma ReplaceFirstIdempotent(lines: seq<string>, matches: Matcher, line: string)
    requires FirstWhere(lines, matches).Some? ==> matches(line)
    ensures ReplaceFirst(ReplaceFirst(lines, matches, line), matches, line) == ReplaceFirst(lines, matches, line)
  {
    var r := ReplaceFirst(lines, matches, line);
    match FirstWhere(lines, matches)
    case None =>
      assert r == lines;
    case Some(i) =>
      forall j | 0 <= j < i
        ensures !matches(r[j])
      {
        assert r[j] == lines[j];
      }
      FirstWhereAt(r, matches, i);
      ReplaceFirstInPlace(r, matches, line, i);
  }

  /** The edit in one line: the first match, and only it, becomes `line`. */
  lemma ReplaceFirstAt(lines: seq<string>, matches: Matcher, line: string, i: nat)
    requires FirstWhere(lines, matches) == Some(i)
    ensures ReplaceFirst(lines, matches, line) == lines[i := line]
  {
    var r := ReplaceFirst(lines, matches, line);
    forall j | 0 <= j < |lines|
      ensures r[j] == lines[i := line][j]
    {
    }
  }

  /** A non-empty replacement keeps the last line non-empty. */
  lemma ReplaceFirstLastLine(lines: seq<string>, matches: Matcher, line: string)
    requires |line| > 0 && |lines| > 0 && lines[|lines| - 1] != []
    ensures var r := ReplaceFirst(lines, matches, line); |r| > 0 && r[|r| - 1] != []
  {
    var r := ReplaceFirst(lines, matches, line);
    assert r[|lines| - 1] == line || r[|lines| - 1] == lines[|lines| - 1];
  }

  /** Replacing the first match by the line it already is gives the lines back. */
  lemma ReplaceFirstInPlace(lines: seq<string>, matches: Matcher, line: string, i: nat)
    requires FirstWhere(lines, matches) == Some(i)
    requires lines[i] == line
    ensures ReplaceFirst(lines, matches, line) == lines
  {
    var r := ReplaceFirst(lines, matches, line);
    forall j | 0 <= j < |lines|
      ensures r[j] == lines[j]
    {
    }
  }

  /** Lines that no matcher accepts pass through untouched. */
  lemma ReplaceFirstUnmatched(lines: seq<string>, matches: Matcher, line: string)
    requires FirstWhere(lines, matches).None?
    ensures ReplaceFirst(lines, matches, line) == lines
  {
  }

  /** With no line matched, writing the lines back gives the text, completed by a final delimiter. */
  lemma ReplaceFirstUnmatchedText(text: string, delim: char, matches: Matcher, line: string)
    requires FirstWhere(GetlineSplit(text, delim), matches).None?
    ensures Terminated(ReplaceFirst(GetlineSplit(text, delim), matches, line), delim) == Completed(text, delim)
  {
    ReplaceFirstUnmatched(GetlineSplit(text, delim), matches, line);
    TerminatedGetlineSplit(text, delim);
  }

  /**
   * Written back one line per delimiter-terminated piece and read again
   * with getline, the edited lines come back, as long as the new line holds
   * no delimiter.
   */
  lemma ReplaceFirstReadBack(text: string, delim: char, matches: Matcher, line: string)
    requires FirstWhere(GetlineSplit(text, delim), matches).Some? ==> delim !in line
    ensures var r := ReplaceFirst(GetlineSplit(text, delim), matches, line);
      GetlineSplit(Terminated(r, delim), delim) == r
  {
    var lines := GetlineSplit(text, delim);
    var r := ReplaceFirst(lines, matches, line);
    forall j | 0 <= j < |r|
      ensures delim !in r[j]
    {
      if FirstWhere(lines, matches) != Some(j) {
        assert r[j] == lines[j];
      }
    }
    GetlineSplitTerminated(r, delim);
  }

  /**
   * An edit for one matcher leaves the first match of another where it was,
   * when neither the edited line nor its replacement is accepted by the other.
   */
  lemma FirstWhereUnaffected(lines: seq<string>, matches: Matcher, line: string, other: Matcher)
    requires FirstWhere(lines, matches).Some? ==> !other(line) && !other(lines[FirstWhere(lines, matches).value])
    ensures FirstWhere(ReplaceFirst(lines, matches, line), other) == FirstWhere(lines, other)
  {
    var r := ReplaceFirst(lines, matches, line);
    forall j | 0 <= j < |lines|
      ensures other(r[j]) == other(lines[j])
    {
    }
    var before, after := FirstWhere(lines, other), FirstWhere(r, other);
    if before.Some? {
      FirstWhereAt(r, other, before.value);
    } else {
      assert after.None?;
    }
  }

  /**
   * Three line edits in a row whose matchers do not take each other's
   * lines: the three first matches are distinct lines, and each is replaced
   * by its own new line.
   */
  lemma ReplaceFirstThree(lines: seq<string>, m1: Matcher, l1: string, m2: Matcher, l2: string, m3: Matcher, l3: string)
    requires FirstWhere(lines, m1).Some? && FirstWhere(lines, m2).Some? && FirstWhere(lines, m3).Some?
    requires !m2(l1) && !m3(l1) && !m3(l2)
    requires var f1, f2 := FirstWhere(lines, m1).value, FirstWhere(lines, m2).value;
      !m2(lines[f1]) && !m3(lines[f1]) && !m3(lines[f2])
    ensures var r1 := ReplaceFirst(lines, m1, l1);
      FirstWhere(r1, m2) == FirstWhere(lines, m2) && FirstWhere(ReplaceFirst(r1, m2, l2), m3) == FirstWhere(lines, m3)
    ensures var f1, f2, f3 := FirstWhere(lines, m1).value, FirstWhere(lines, m2).value, FirstWhere(lines, m3).value;
      && f1 != f2 && f1 != f3 && f2 != f3
      && ReplaceFirst(ReplaceFirst(ReplaceFirst(lines, m1, l1), m2, l2), m3, l3) == lines[f1 := l1][f2 := l2][f3 := l3]
  {
    var f1, f2, f3 := FirstWhere(lines, m1).value, FirstWhere(lines, m2).value, FirstWhere(lines, m3).value;
    var r1 := ReplaceFirst(lines, m1, l1);
    ReplaceFirstAt(lines, m1, l1, f1);
    FirstWhereUnaffected(lines, m1, l1, m2);
    FirstWhereUnaffected(lines, m1, l1, m3);
    var r2 := ReplaceFirst(r1, m2, l2);
    ReplaceFirstAt(r1, m2, l2, f2);
    FirstWhereUnaffected(r1, m2, l2, m3);
    ReplaceFirstAt(r2, m3, l3, f3);
  }
}
