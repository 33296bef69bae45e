/**
 * replace_parameter of automation.py: the template is split with
 * str.splitlines, the first line whose stripped text starts with the
 * parameter is replaced by `param = value`, and the lines are joined with
 * '\n'; when no line matches, the template is returned as it was.
 */
module ConfigPy {
  import opened Wrappers
  import opened Strings
  import opened LineEdit

  /** The line boundaries str.splitlines recognises ("\r\n" counts as one). */
  predicate IsLineBoundary(c: char) {
    || c == '\n' || c == '\r' || c == '\U{000B}' || c == '\U{000C}'
    || c == '\U{001C}' || c == '\U{001D}' || c == '\U{001E}'
    || c == '\U{0085}' || c == '\U{2028}' || c == '\U{2029}'
  }

  predicate SingleLine(s: string) {
    forall i :: 0 <= i < |s| ==> !IsLineBoundary(s[i])
  }

  /** The index of the first line boundary in `s`. */
  function FirstBoundary(s: string): (r: Option<nat>)
    ensures r.Some? ==> r.value < |s| && IsLineBoundary(s[r.value]) && SingleLine(s[..r.value])
    ensures r.None? <==> SingleLine(s)
  {
    if |s| == 0 then None
    else if IsLineBoundary(s[0]) then Some(0)
    else match FirstBoundary(s[1..])
      case None => None
      case Some(k) => assert s[..k + 1] == [s[0]] + s[1..][..k]; Some(k + 1)
  }

  /** The length of the line break starting at `k`: two for "\r\n", one otherwise. */
  function BreakLength(s: string, k: nat): (n: nat)
    requires k < |s|
    ensures 1 <= n <= 2 && k + n <= |s|
  {
    if s[k] == '\r' && k + 1 < |s| && s[k + 1] == '\n' then 2 else 1
  }

  /** str.splitlines(): no lines for the empty string, and a final break does not start another line. */
  function SplitLines(s: string): (lines: seq<string>)
    ensures forall i :: 0 <= i < |lines| ==> SingleLine(lines[i])
    ensures |s| == 0 <==> |lines| == 0
    decreases |s|
  {
    if |s| == 0 then []
    else match FirstBoundary(s)
      case None => [s]
      case Some(k) => [s[..k]] + SplitLines(s[k + BreakLength(s, k)..])
  }

  /** White space as str.isspace() classifies it, which str.strip() removes. */
  predicate IsSpace(c: char) {
    || c == ' ' || c == '\t' || c == '\n' || c == '\r' || c == '\U{000B}' || c == '\U{000C}'
    || c == '\U{001C}' || c == '\U{001D}' || c == '\U{001E}' || c == '\U{001F}'
    || c == '\U{0085}' || c == '\U{00A0}' || c == '\U{1680}'
    || ('\U{2000}' <= c <= '\U{200A}')
    || c == '\U{2028}' || c == '\U{2029}' || c == '\U{202F}' || c == '\U{205F}' || c == '\U{3000}'
  }

  function StripLeft(s: string): (r: string)
    ensures |r| <= |s| && r == s[|s| - |r|..]
    ensures forall i :: 0 <= i < |s| - |r| ==> IsSpace(s[i])
    ensures |r| > 0 ==> !IsSpace(r[0])
  {
    if |s| > 0 && IsSpace(s[0]) then StripLeft(s[1..]) else s
  }

  function StripRight(s: string): (r: string)
    ensures |r| <= |s| && r == s[..|r|]
    ensures forall i :: |r| <= i < |s| ==> IsSpace(s[i])
    ensures |r| > 0 ==> !IsSpace(r[|r| - 1])
  {
    if |s| > 0 && IsSpace(s[|s| - 1]) then StripRight(s[..|s| - 1]) else s
  }

  /** str.strip() with no argument. */
  function Strip(s: string): (r: string)
    ensures |r| > 0 ==> !IsSpace(r[0]) && !IsSpace(r[|r| - 1])
    ensures exists a :: SpacePaddedAt(s, r, a)
  {
    var inner := StripRight(s);
    var r := StripLeft(inner);
    assert SpacePaddedAt(s, r, |inner| - |r|);
    r
  }

  /** `s` is `r` with `a` white-space characters before it and only white space after it. */
  predicate SpacePaddedAt(s: string, r: string, a: nat) {
    && a + |r| <= |s| && s[a..a + |r|] == r
    && (forall i :: 0 <= i < a ==> IsSpace(s[i]))
    && (forall i :: a + |r| <= i < |s| ==> IsSpace(s[i]))
  }

  /**
   * Indentation does not hide a parameter: a line that is white space, then
   * `param`, then anything, is a line for `param`.
   */
  lemma IndentedLinePrefixed(indent: string, param: string, rest: string)
    requires forall i :: 0 <= i < |indent| ==> IsSpace(indent[i])
    requires |param| > 0 && !IsSpace(param[0]) && !IsSpace(param[|param| - 1])
    ensures Prefixed(indent + param + rest, param)
  {
    var line, k := indent + param + rest, |indent|;
    assert forall i :: 0 <= i < k ==> line[i] == indent[i];
    assert line[k..k + |param|] == param;
    PrefixedAt(line, k, param);
  }

  /** A line whose first `k` characters are white space and whose next ones spell `param` is a line for `param`. */
  lemma PrefixedAt(line: string, k: nat, param: string)
    requires k + |param| <= |line| && line[k..k + |param|] == param
    requires forall i :: 0 <= i < k ==> IsSpace(line[i])
    requires |param| > 0 && !IsSpace(param[0]) && !IsSpace(param[|param| - 1])
    ensures Prefixed(line, param)
  {
    var t := Strip(line);
    var b: nat :| SpacePaddedAt(line, t, b);
    assert line[k] == param[0] && line[k + |param| - 1] == param[|param| - 1];
    PaddedCovers(line, t, b, k);
    PaddedStart(line, t, b, k);
    PaddedCovers(line, t, b, k + |param| - 1);
    assert t[..|param|] == line[k..k + |param|];
  }

  /** A non-space character is not part of the padding. */
  lemma PaddedCovers(s: string, r: string, a: nat, j: nat)
    requires SpacePaddedAt(s, r, a)
    requires j < |s| && !IsSpace(s[j])
    ensures a <= j < a + |r|
  {
  }

  /** The stripped text starts at the first non-space character. */
  lemma PaddedStart(s: string, r: string, a: nat, k: nat)
    requires SpacePaddedAt(s, r, a) && |r| > 0 && !IsSpace(r[0])
    requires k < |s| && !IsSpace(s[k]) && forall i :: 0 <= i < k ==> IsSpace(s[i])
    ensures a == k
  {
    assert s[a] == r[0];
  }

  lemma StripOfStripped(s: string)
    requires |s| > 0 && !IsSpace(s[0]) && !IsSpace(s[|s| - 1])
    ensures Strip(s) == s
  {
  }

  /** The prefix matcher: a line is the one for `param` iff its stripped text starts with `param`. */
  function PrefixedBy(param: string): Matcher {
    line => Prefixed(line, param)
  }

  /** The stripped line starts with `param`. */
  predicate Prefixed(line: string, param: string) {
    StartsWith(Strip(line), param)
  }

  /** The edit for any matcher: the lines rejoined with '\n' on a match, the text untouched otherwise. */
  function EditLines(content: string, matches: Matcher, line: string): (r: string)
    ensures FirstWhere(SplitLines(content), matches).None? ==> r == content
  {
    var lines := SplitLines(content);
    match FirstWhere(lines, matches)
    case None => content
    case Some(i) => Join(lines[i := line], "\n")
  }

  /** Without a line that starts with `param` once stripped, the template comes back as it was. */
  function ReplaceParameter(content: string, param: string, value: string): (r: string)
    ensures FirstWhere(SplitLines(content), PrefixedBy(param)).None? ==> r == content
  {
    EditLines(content, PrefixedBy(param), Assignment(param, value))
  }

  /**
   * A template that ends with an empty line keeps a line break at the end:
   * splitlines yields a final empty line and the join writes a '\n' before
   * it. For example "a = 1\n\n" edited for `a` is "a = 2\n".
   */
  lemma TrailingEmptyLineKeepsBreak(line: string, param: string, value: string)
    requires SingleLine(line) && Prefixed(line, param)
    ensures ReplaceParameter(line + "\n" + "\n", param, value) == Assignment(param, value) + "\n"
  {
    var written := Assignment(param, value);
    SplitTrailingEmpty(line);
    FirstOfTwo(line, [], PrefixedBy(param));
    assert [line, []][0 := written] == [written, []];
    JoinEmptyLast(written);
  }

  /** A line followed by an empty one splits into the two. */
  lemma SplitTrailingEmpty(line: string)
    requires SingleLine(line)
    ensures SplitLines(line + "\n" + "\n") == [line, []]
  {
    assert [] + "\n" + [] == "\n";
    SplitLinesCons(line, "\n");
    SplitLinesCons([], []);
  }

  /** Joining a line and an empty one leaves a '\n' at the end. */
  lemma JoinEmptyLast(line: string)
    ensures Join([line, []], "\n") == line + "\n"
  {
    assert [line, []][1..] == [[]];
  }

  /** Joining single lines with '\n' and splitting again gives the lines back, unless the last one is empty. */
  lemma {:induction false} SplitLinesJoin(pieces: seq<string>)
    requires forall i :: 0 <= i < |pieces| ==> SingleLine(pieces[i])
    requires |pieces| > 0 ==> pieces[|pieces| - 1] != []
    ensures SplitLines(Join(pieces, "\n")) == pieces
  {
    if |pieces| == 1 {
      SplitLinesSingle(pieces[0]);
    } else if |pieces| > 1 {
      SplitLinesJoin(pieces[1..]);
      SplitLinesJoinStep(pieces);
    }
  }

  /** A non-empty single line is its own only line. */
  lemma SplitLinesSingle(p: string)
    requires SingleLine(p) && p != []
    ensures SplitLines(p) == [p]
  {
    assert FirstBoundary(p).None?;
  }

  /** One piece of SplitLinesJoin: the first piece splits off, and the rest come back after it. */
  lemma SplitLinesJoinStep(pieces: seq<string>)
    requires |pieces| > 1 && SingleLine(pieces[0])
    requires SplitLines(Join(pieces[1..], "\n")) == pieces[1..]
    ensures SplitLines(Join(pieces, "\n")) == pieces
  {
    var rest := Join(pieces[1..], "\n");
    assert Join(pieces, "\n") == pieces[0] + "\n" + rest;
    SplitLinesCons(pieces[0], rest);
    assert [pieces[0]] + pieces[1..] == pieces;
  }

  /** A single line followed by '\n' splits off as the first line. */
  lemma SplitLinesCons(p: string, rest: string)
    requires SingleLine(p)
    ensures SplitLines(p + "\n" + rest) == [p] + SplitLines(rest)
  {
    var s := p + "\n" + rest;
    assert s[..|p|] == p && s[|p|] == '\n';
    assert FirstBoundary(s) == Some(|p|);
    assert BreakLength(s, |p|) == 1;
    assert s[|p| + 1..] == rest;
  }

  /** A non-empty join ends with the last piece's last character. */
  lemma {:induction false} JoinEndsWithLastPiece(pieces: seq<string>, sep: string)
    requires |pieces| > 0 && pieces[|pieces| - 1] != []
    ensures var s := Join(pieces, sep); var last := pieces[|pieces| - 1];
      |s| > 0 && s[|s| - 1] == last[|last| - 1]
  {
    if |pieces| > 1 {
      JoinEndsWithLastPiece(pieces[1..], sep);
    }
  }

  /**
   * On a match, splitting the result gives the template's lines with only
   * the first matching line replaced: the line count is preserved when the
   * template's last line is not empty and the new line is a single line.
   */
  lemma {:induction false} EditLinesReadBack(content: string, matches: Matcher, line: string)
    requires SingleLine(line) && |line| > 0
    requires var lines := SplitLines(content); |lines| > 0 && lines[|lines| - 1] != []
    requires FirstWhere(SplitLines(content), matches).Some?
    ensures SplitLines(EditLines(content, matches, line)) == ReplaceFirst(SplitLines(content), matches, line)
  {
    var lines := SplitLines(content);
    var i := FirstWhere(lines, matches).value;
    JoinEdited(lines, i, line);
    ReplaceFirstAt(lines, matches, line, i);
  }

  /** Replacing one single line by another keeps every line single and the last one non-empty. */
  lemma EditedLines(lines: seq<string>, i: nat, line: string)
    requires i < |lines|
    requires forall j :: 0 <= j < |lines| ==> SingleLine(lines[j])
    requires lines[|lines| - 1] != []
    requires SingleLine(line) && |line| > 0
    ensures var edited := lines[i := line];
      (forall j :: 0 <= j < |edited| ==> SingleLine(edited[j])) && edited[|edited| - 1] != []
  {
  }

  lemma JoinEdited(lines: seq<string>, i: nat, line: string)
    requires i < |lines|
    requires forall j :: 0 <= j < |lines| ==> SingleLine(lines[j])
    requires lines[|lines| - 1] != []
    requires SingleLine(line) && |line| > 0
    ensures SplitLines(Join(lines[i := line], "\n")) == lines[i := line]
  {
    EditedLines(lines, i, line);
    SplitLinesJoin(lines[i := line]);
  }

  /** On a match the result ends with the last line's last character, never with a line break. */
  lemma {:induction false} EditLinesEnding(content: string, matches: Matcher, line: string)
    requires |line| > 0 && !IsLineBoundary(line[|line| - 1])
    requires var lines := SplitLines(content); |lines| > 0 && lines[|lines| - 1] != []
    requires FirstWhere(SplitLines(content), matches).Some?
    ensures var r := EditLines(content, matches, line);
      |r| > 0 && !IsLineBoundary(r[|r| - 1])
  {
    var lines := SplitLines(content);
    var i := FirstWhere(lines, matches).value;
    EditedLastLine(lines, i, line);
    JoinEndsWithLastPiece(lines[i := line], "\n");
  }

  /** Replacing one line keeps the last line non-empty and free of a final line break. */
  lemma EditedLastLine(lines: seq<string>, i: nat, line: string)
    requires i < |lines|
    requires forall j :: 0 <= j < |lines| ==> SingleLine(lines[j])
    requires lines[|lines| - 1] != []
    requires |line| > 0 && !IsLineBoundary(line[|line| - 1])
    ensures var edited := lines[i := line]; var last := edited[|edited| - 1];
      last != [] && !IsLineBoundary(last[|last| - 1])
  {
    var last := lines[i := line][|lines| - 1];
    if i != |lines| - 1 {
      assert last == lines[|lines| - 1];
      assert SingleLine(lines[|lines| - 1]);
    }
  }

  /** The assignment written by replace_parameter holds no line break when the parameter and value hold none. */
  lemma AssignmentSingleLine(param: string, value: string)
    requires SingleLine(param) && SingleLine(value)
    ensures SingleLine(Assignment(param, value))
    ensures var a := Assignment(param, value); |a| > 0 && !IsLineBoundary(a[|a| - 1])
  {
    var a := Assignment(param, value);
    assert SingleLine(" = ");
    assert a[|a| - 1] == if |value| > 0 then value[|value| - 1] else ' ';
  }

  /**
   * replace_parameter on a match: the lines read back are the template's
   * lines with only the first prefixed line replaced, so the line count is
   * kept, and the result does not end in a line break, so a template that
   * ended with '\n' loses it.
   */
  lemma ReplaceParameterMatched(content: string, param: string, value: string)
    requires SingleLine(param) && SingleLine(value)
    requires var lines := SplitLines(content); |lines| > 0 && lines[|lines| - 1] != []
    requires FirstWhere(SplitLines(content), PrefixedBy(param)).Some?
    ensures SplitLines(ReplaceParameter(content, param, value))
            == ReplaceFirst(SplitLines(content), PrefixedBy(param), Assignment(param, value))
    ensures var r := ReplaceParameter(content, param, value);
      |r| > 0 && !IsLineBoundary(r[|r| - 1])
  {
    AssignmentSingleLine(param, value);
    EditLinesReadBack(content, PrefixedBy(param), Assignment(param, value));
    EditLinesEnding(content, PrefixedBy(param), Assignment(param, value));
  }

  /** Without a prefixed line the template is returned exactly as read, final newline included. */
  lemma ReplaceParameterUnmatched(content: string, param: string, value: string)
    requires FirstWhere(SplitLines(content), PrefixedBy(param)).None?
    ensures ReplaceParameter(content, param, value) == content
  {
  }

  /**
   * Matching is by prefix: a line keyed by a longer name that starts with the
   * parameter (particle_type2 against particle_type) is taken as the match,
   * so the earlier line is rewritten and the parameter's own line is kept.
   */
  lemma LongerKeyMatches(param: string, suffix: string, v0: string, v1: string)
    requires |param| > 0 && !IsSpace(param[0])
    requires |v0| > 0 && !IsSpace(v0[|v0| - 1])
    ensures FirstWhere([Assignment(param + suffix, v0), Assignment(param, v1)], PrefixedBy(param)) == Some(0)
  {
    LongerAssignmentPrefixed(param, suffix, v0);
    FirstOfTwo(Assignment(param + suffix, v0), Assignment(param, v1), PrefixedBy(param));
  }

  /** The assignment of a longer name that starts with the parameter is prefixed by the parameter. */
  lemma LongerAssignmentPrefixed(param: string, suffix: string, value: string)
    requires |param| > 0 && !IsSpace(param[0])
    requires |value| > 0 && !IsSpace(value[|value| - 1])
    ensures PrefixedBy(param)(Assignment(param + suffix, value))
  {
    var line := Assignment(param + suffix, value);
    AssignmentEnds(param, suffix, value);
    PrefixedWhenUnpadded(line, param);
  }

  /** An assignment starts with its name's first characters and ends with its value's last one. */
  lemma AssignmentEnds(param: string, suffix: string, value: string)
    requires |param| > 0 && |value| > 0
    ensures var line := Assignment(param + suffix, value);
      && line[0] == param[0] && line[|line| - 1] == value[|value| - 1]
      && StartsWith(line, param)
  {
    var line := Assignment(param + suffix, value);
    assert line[..|param|] == param;
  }

  /** A line without surrounding white space is prefixed by whatever it starts with. */
  lemma PrefixedWhenUnpadded(line: string, param: string)
    requires |line| > 0 && !IsSpace(line[0]) && !IsSpace(line[|line| - 1])
    requires StartsWith(line, param)
    ensures PrefixedBy(param)(line)
  {
    StripOfStripped(line);
  }

  /** An assignment stripped still starts with its parameter's first character. */
  lemma AssignmentStripsTo(param: string, value: string)
    requires |param| > 0 && !IsSpace(param[0])
    ensures var s := Strip(Assignment(param, value)); |s| > 0 && s[0] == param[0]
  {
    var a := Assignment(param, value);
    var t := StripRight(a);
    assert a[0] == param[0];
    assert |t| > 0;
    assert t[0] == a[0];
    assert StripLeft(t) == t;
  }

  /** No line is prefixed by two parameters that differ in their first character. */
  lemma PrefixesExclusive(line: string, p: string, q: string)
    requires |p| > 0 && |q| > 0 && p[0] != q[0]
    ensures !(PrefixedBy(p)(line) && PrefixedBy(q)(line))
  {
    var s := Strip(line);
    if StartsWith(s, p) {
      assert s[0] == s[..|p|][0] == p[0];
    }
  }

  /** An assignment is not taken for a parameter that differs from its own in the first character. */
  lemma AssignmentNotPrefixed(param: string, value: string, other: string)
    requires |param| > 0 && !IsSpace(param[0])
    requires |other| > 0 && param[0] != other[0]
    ensures !PrefixedBy(other)(Assignment(param, value))
  {
    AssignmentStripsTo(param, value);
    var s := Strip(Assignment(param, value));
    assert |other| <= |s| ==> s[..|other|][0] == param[0];
  }

  /**
   * Replacing the line of one parameter leaves the first line of another,
   * with a different first character, where it was.
   */
  lemma OtherPrefixUnaffected(lines: seq<string>, param: string, value: string, other: string)
    requires |param| > 0 && !IsSpace(param[0])
    requires |other| > 0 && param[0] != other[0]
    ensures FirstWhere(ReplaceFirst(lines, PrefixedBy(param), Assignment(param, value)), PrefixedBy(other))
            == FirstWhere(lines, PrefixedBy(other))
  {
    AssignmentNotPrefixed(param, value, other);
    var found := FirstWhere(lines, PrefixedBy(param));
    if found.Some? {
      PrefixesExclusive(lines[found.value], param, other);
    }
    FirstWhereUnaffected(lines, PrefixedBy(param), Assignment(param, value), PrefixedBy(other));
  }

  /** A line replace_parameter can write without changing the line structure. */
  predicate Writable(line: string) {
    SingleLine(line) && |line| > 0 && !IsLineBoundary(line[|line| - 1])
  }

  /** One edit on a match, for any matcher: the lines read back, the last line and the final character. */
  lemma EditLinesMatched(content: string, matches: Matcher, line: string)
    requires Writable(line)
    requires var lines := SplitLines(content); |lines| > 0 && lines[|lines| - 1] != []
    requires FirstWhere(SplitLines(content), matches).Some?
    ensures var out := SplitLines(EditLines(content, matches, line));
      && out == ReplaceFirst(SplitLines(content), matches, line)
      && |out| > 0 && out[|out| - 1] != []
    ensures var r := EditLines(content, matches, line); |r| > 0 && !IsLineBoundary(r[|r| - 1])
  {
    ReplaceFirstLastLine(SplitLines(content), matches, line);
    EditLinesReadBack(content, matches, line);
    EditLinesEnding(content, matches, line);
  }

  /**
   * Three edits in a row whose matchers do not take each other's lines:
   * read back, the three first matches hold the new lines and every other
   * line is kept.
   */
  lemma EditLinesThree(content: string, m1: Matcher, l1: string, m2: Matcher, l2: string, m3: Matcher, l3: string)
    requires Writable(l1) && Writable(l2) && Writable(l3)
    requires var lines := SplitLines(content); |lines| > 0 && lines[|lines| - 1] != []
    requires var lines := SplitLines(content);
      FirstWhere(lines, m1).Some? && FirstWhere(lines, m2).Some? && FirstWhere(lines, m3).Some?
    requires !m2(l1) && !m3(l1) && !m3(l2)
    requires var lines := SplitLines(content);
      var f1, f2 := FirstWhere(lines, m1).value, FirstWhere(lines, m2).value;
      !m2(lines[f1]) && !m3(lines[f1]) && !m3(lines[f2])
    ensures var lines := SplitLines(content);
      var f1, f2, f3 := FirstWhere(lines, m1).value, FirstWhere(lines, m2).value, FirstWhere(lines, m3).value;
      && f1 != f2 && f1 != f3 && f2 != f3
      && SplitLines(EditLines(EditLines(EditLines(content, m1, l1), m2, l2), m3, l3)) == lines[f1 := l1][f2 := l2][f3 := l3]
    ensures var r := EditLines(EditLines(EditLines(content, m1, l1), m2, l2), m3, l3);
      |r| > 0 && !IsLineBoundary(r[|r| - 1])
  {
    var lines := SplitLines(content);
    var r1 := EditLines(content, m1, l1);
    var r2 := EditLines(r1, m2, l2);
    EditLinesMatched(content, m1, l1);
    ReplaceFirstThree(lines, m1, l1, m2, l2, m3, l3);
    EditLinesMatched(r1, m2, l2);
    EditLinesMatched(r2, m3, l3);
  }

  /**
   * Three replace_parameter calls for parameters with different first
   * characters, each keying some line of the template: read back, the first
   * line prefixed by each parameter holds its assignment, every other line
   * is kept, and the result ends without a line break.
   */
  lemma ReplaceThree(content: string, p1: string, v1: string, p2: string, v2: string, p3: string, v3: string)
    requires |p1| > 0 && |p2| > 0 && |p3| > 0
    requires !IsSpace(p1[0]) && !IsSpace(p2[0])
    requires p1[0] != p2[0] && p1[0] != p3[0] && p2[0] != p3[0]
    requires SingleLine(p1) && SingleLine(p2) && SingleLine(p3)
    requires SingleLine(v1) && SingleLine(v2) && SingleLine(v3)
    requires var lines := SplitLines(content); |lines| > 0 && lines[|lines| - 1] != []
    requires var lines := SplitLines(content);
      && FirstWhere(lines, PrefixedBy(p1)).Some?
      && FirstWhere(lines, PrefixedBy(p2)).Some?
      && FirstWhere(lines, PrefixedBy(p3)).Some?
    ensures var lines := SplitLines(content);
      var f1, f2, f3 := FirstWhere(lines, PrefixedBy(p1)).value, FirstWhere(lines, PrefixedBy(p2)).value,
                        FirstWhere(lines, PrefixedBy(p3)).value;
      && f1 != f2 && f1 != f3 && f2 != f3
      && SplitLines(ReplaceParameter(ReplaceParameter(ReplaceParameter(content, p1, v1), p2, v2), p3, v3))
         == lines[f1 := Assignment(p1, v1)][f2 := Assignment(p2, v2)][f3 := Assignment(p3, v3)]
    ensures var r := ReplaceParameter(ReplaceParameter(ReplaceParameter(content, p1, v1), p2, v2), p3, v3);
      |r| > 0 && !IsLineBoundary(r[|r| - 1])
  {
    var lines := SplitLines(content);
    AssignmentSingleLine(p1, v1);
    AssignmentSingleLine(p2, v2);
    AssignmentSingleLine(p3, v3);
    AssignmentNotPrefixed(p1, v1, p2);
    AssignmentNotPrefixed(p1, v1, p3);
    AssignmentNotPrefixed(p2, v2, p3);
    var m1, m2, m3 := PrefixedBy(p1), PrefixedBy(p2), PrefixedBy(p3);
    var f1, f2 := FirstWhere(lines, m1).value, FirstWhere(lines, m2).value;
    PrefixesExclusive(lines[f1], p1, p2);
    PrefixesExclusive(lines[f1], p1, p3);
    PrefixesExclusive(lines[f2], p2, p3);
    EditLinesThree(content, PrefixedBy(p1), Assignment(p1, v1), PrefixedBy(p2), Assignment(p2, v2),
                   PrefixedBy(p3), Assignment(p3, v3));
  }
}

