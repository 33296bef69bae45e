/**
 * replace_parameter of automation.cpp: the template is read line by line
 * with std::getline, the first line whose key (the text before its first
 * '=', trimmed of spaces and tabs) equals the parameter is rewritten as
 * `param = value`, and every line is written back followed by '\n'.
 */
module ConfigCpp {
  import opened Wrappers
  import opened Strings
  import opened LineEdit

  const Newline := '\n'

  /** The key of a config line, or None for a line without '='. */
  function LineKey(line: string): (key: Option<string>)
    ensures key.None? <==> '=' !in line
    ensures key.Some? ==> '=' !in key.value && forall c :: c in key.value ==> c in line
    ensures key.Some? && |key.value| > 0 ==> !IsBlank(key.value[0]) && !IsBlank(key.value[|key.value| - 1])
  {
    match IndexOf(line, '=')
    case None => None
    case Some(e) => Some(Trim(line[..e]))
  }

  /** The key of a line with '=' is the text before the first '=', trimmed of spaces and tabs. */
  lemma LineKeySpec(line: string)
    ensures LineKey(line).Some? ==>
      exists e :: 0 <= e < |line| && line[e] == '=' && '=' !in line[..e] && LineKey(line).value == Trim(line[..e])
  {
  }

  /**
   * Blanks around the key do not matter: a line whose text before the first
   * '=' is `param` padded with spaces and tabs is keyed by `param`.
   */
  lemma PaddedKey(before: string, param: string, after: string, rest: string)
    requires forall i :: 0 <= i < |before| ==> IsBlank(before[i])
    requires forall i :: 0 <= i < |after| ==> IsBlank(after[i])
    requires '=' !in param
    requires |param| > 0 && !IsBlank(param[0]) && !IsBlank(param[|param| - 1])
    ensures LineKey(before + param + after + "=" + rest) == Some(param)
  {
    var padded := before + param + after;
    var line := padded + "=" + rest;
    var k := |padded|;
    assert line[..k] == padded;
    assert '=' !in padded by {
      forall i | 0 <= i < |padded|
        ensures padded[i] != '='
      {
        if i < |before| {
          assert padded[i] == before[i];
        } else if i < |before| + |param| {
          assert padded[i] == param[i - |before|];
        } else {
          assert padded[i] == after[i - |before| - |param|];
        }
      }
    }
    assert line[k] == '=';
    assert IndexOf(line, '=') == Some(k);
    assert BlankPaddedAt(padded, param, |before|) by {
      assert padded[|before|..|before| + |param|] == param;
      forall i | |before| + |param| <= i < |padded|
        ensures IsBlank(padded[i])
      {
        assert padded[i] == after[i - |before| - |param|];
      }
    }
    TrimUnique(padded, param, |before|);
  }

  /** The exact-key matcher: a line is the one for `param` iff its trimmed key equals `param`. */
  function KeyedBy(param: string): Matcher {
    line => LineKey(line) == Some(param)
  }

  /** The result is empty only for an empty template, and otherwise ends with a newline. */
  function ReplaceParameter(content: string, param: string, value: string): (r: string)
    ensures |content| == 0 <==> r == []
    ensures r != [] ==> r[|r| - 1] == Newline
  {
    Terminated(ReplaceFirst(GetlineSplit(content, Newline), KeyedBy(param), Assignment(param, value)), Newline)
  }

  /**
   * Read back line by line, the result is the template's lines with at most
   * the first line keyed `param` replaced, when the value fits on one line.
   */
  lemma ReplaceParameterLines(content: string, param: string, value: string)
    requires Newline !in value
    ensures var lines := GetlineSplit(content, Newline);
      GetlineSplit(ReplaceParameter(content, param, value), Newline)
        == ReplaceFirst(lines, KeyedBy(param), Assignment(param, value))
  {
    MatchedParamSingleLine(content, param, value);
    ReplaceFirstReadBack(content, Newline, KeyedBy(param), Assignment(param, value));
  }

  /** A parameter that keys some line of the template holds no newline, so neither does its assignment. */
  lemma MatchedParamSingleLine(content: string, param: string, value: string)
    requires Newline !in value
    ensures FirstWhere(GetlineSplit(content, Newline), KeyedBy(param)).Some? ==> Newline !in Assignment(param, value)
  {
    var lines := GetlineSplit(content, Newline);
    var found := FirstWhere(lines, KeyedBy(param));
    if found.Some? {
      assert LineKey(lines[found.value]) == Some(param);
      assert Newline !in param;
    }
  }

  /** Without a line keyed `param`, the text comes back unchanged, with a final newline added if it lacked one. */
  lemma ReplaceParameterUnmatched(content: string, param: string, value: string)
    requires FirstWhere(GetlineSplit(content, Newline), KeyedBy(param)).None?
    ensures ReplaceParameter(content, param, value) == Completed(content, Newline)
  {
    ReplaceFirstUnmatchedText(content, Newline, KeyedBy(param), Assignment(param, value));
  }

  /** The assignment line written for a parameter is itself keyed by that parameter. */
  lemma AssignmentKeyed(param: string, value: string)
    requires '=' !in param
    requires |param| > 0 ==> !IsBlank(param[0]) && !IsBlank(param[|param| - 1])
    ensures LineKey(Assignment(param, value)) == Some(param)
  {
    var line := Assignment(param, value);
    assert line[..|param| + 1] == param + " ";
    assert line[|param| + 1] == '=';
    assert IndexOf(line, '=') == Some(|param| + 1);
    assert TrimRight(param + " ") == param;
    TrimOfTrimmed(param);
  }

  /** Applying replace_parameter twice with the same arguments is applying it once, when the value fits on one line. */
  lemma ReplaceParameterIdempotent(content: string, param: string, value: string)
    requires Newline !in value
    ensures var once := ReplaceParameter(content, param, value);
      ReplaceParameter(once, param, value) == once
  {
    var lines := GetlineSplit(content, Newline);
    var found := FirstWhere(lines, KeyedBy(param));
    if found.Some? {
      assert LineKey(lines[found.value]) == Some(param);
      AssignmentKeyed(param, value);
    }
    ReplaceFirstIdempotent(lines, KeyedBy(param), Assignment(param, value));
    ReplaceParameterLines(content, param, value);
  }

  /**
   * Keys match exactly: a line keyed by a longer name that merely starts
   * with the parameter (particle_type2 against particle_type) is copied,
   * and the later line keyed by the parameter itself is the one rewritten.
   */
  lemma LongerKeyDoesNotMatch(param: string, suffix: string, v0: string, v1: string, value: string)
    requires '=' !in param
    requires |param| > 0 && !IsBlank(param[0]) && !IsBlank(param[|param| - 1])
    requires |suffix| > 0 && '=' !in suffix && !IsBlank(suffix[|suffix| - 1])
    ensures var lines := [Assignment(param + suffix, v0), Assignment(param, v1)];
      ReplaceFirst(lines, KeyedBy(param), Assignment(param, value))
        == [Assignment(param + suffix, v0), Assignment(param, value)]
  {
    SecondLineKeyed(param, suffix, v0, v1);
    ReplaceSecondOfTwo(Assignment(param + suffix, v0), Assignment(param, v1), KeyedBy(param), Assignment(param, value));
  }

  /** The longer key's line is passed over and the parameter's own line is the first match. */
  lemma SecondLineKeyed(param: string, suffix: string, v0: string, v1: string)
    requires '=' !in param
    requires |param| > 0 && !IsBlank(param[0]) && !IsBlank(param[|param| - 1])
    requires |suffix| > 0 && '=' !in suffix && !IsBlank(suffix[|suffix| - 1])
    ensures FirstWhere([Assignment(param + suffix, v0), Assignment(param, v1)], KeyedBy(param)) == Some(1)
  {
    var l0 := Assignment(param + suffix, v0);
    var l1 := Assignment(param, v1);
    LongerKeyNotParam(param, suffix, v0);
    AssignmentKeyed(param, v1);
    var lines := [l0, l1];
    assert lines[0] == l0 && lines[1] == l1;
    assert !KeyedBy(param)(lines[0]) && KeyedBy(param)(lines[1]);
    FirstWhereAt(lines, KeyedBy(param), 1);
  }

  /** A line keyed by the parameter followed by more characters is not keyed by the parameter. */
  lemma LongerKeyNotParam(param: string, suffix: string, value: string)
    requires '=' !in param
    requires |param| > 0 && !IsBlank(param[0])
    requires |suffix| > 0 && '=' !in suffix && !IsBlank(suffix[|suffix| - 1])
    ensures LineKey(Assignment(param + suffix, value)) != Some(param)
  {
    var longer := param + suffix;
    assert longer[0] == param[0] && longer[|longer| - 1] == suffix[|suffix| - 1];
    assert '=' !in longer;
    AssignmentKeyed(longer, value);
    assert |longer| != |param|;
  }

  /** One call of replace_parameter: the parameter and its new value. */
  datatype Edit = Edit(param: string, value: string)

  /** replace_parameter applied edit by edit, the way the main config of a run is built. */
  function ReplaceEach(content: string, edits: seq<Edit>): string
    decreases |edits|
  {
    if |edits| == 0 then content
    else ReplaceEach(ReplaceParameter(content, edits[0].param, edits[0].value), edits[1..])
  }

  /** The same edits on the lines. */
  /** One step of ReplaceEach: the first edit, then the rest. */
  lemma ReplaceEachCons(content: string, edits: seq<Edit>)
    requires |edits| > 0
    ensures ReplaceEach(content, edits) == ReplaceEach(ReplaceParameter(content, edits[0].param, edits[0].value), edits[1..])
  {
  }

  function ReplaceEachLine(lines: seq<string>, edits: seq<Edit>): (r: seq<string>)
    ensures |r| == |lines|
    decreases |edits|
  {
    if |edits| == 0 then lines
    else ReplaceEachLine(ReplaceFirst(lines, KeyedBy(edits[0].param), Assignment(edits[0].param, edits[0].value)), edits[1..])
  }

  predicate DistinctParams(edits: seq<Edit>) {
    forall a, b :: 0 <= a < b < |edits| ==> edits[a].param != edits[b].param
  }

  predicate SingleLineValues(edits: seq<Edit>) {
    forall n :: 0 <= n < |edits| ==> Newline !in edits[n].value
  }

  /** Read back line by line, a run of edits is the run of line edits. */
  lemma {:induction false} ReplaceEachLines(content: string, edits: seq<Edit>)
    requires |edits| > 0 && SingleLineValues(edits)
    ensures GetlineSplit(ReplaceEach(content, edits), Newline) == ReplaceEachLine(GetlineSplit(content, Newline), edits)
    decreases |edits|
  {
    if |edits| > 1 {
      var next := ReplaceParameter(content, edits[0].param, edits[0].value);
      assert SingleLineValues(edits[1..]) by {
        forall n | 0 <= n < |edits| - 1
          ensures Newline !in edits[1..][n].value
        {
          assert edits[1..][n] == edits[n + 1];
        }
      }
      ReplaceEachLines(next, edits[1..]);
    }
    ReplaceEachLinesStep(content, edits);
  }

  /** One step of ReplaceEachLines: the first edit read back, then the rest. */
  lemma ReplaceEachLinesStep(content: string, edits: seq<Edit>)
    requires |edits| > 0 && Newline !in edits[0].value
    requires var next := ReplaceParameter(content, edits[0].param, edits[0].value);
      |edits| > 1 ==>
        GetlineSplit(ReplaceEach(next, edits[1..]), Newline) == ReplaceEachLine(GetlineSplit(next, Newline), edits[1..])
    ensures GetlineSplit(ReplaceEach(content, edits), Newline) == ReplaceEachLine(GetlineSplit(content, Newline), edits)
  {
    ReplaceParameterLines(content, edits[0].param, edits[0].value);
  }

  /** Editing one key leaves the first line of a different key where it was. */
  lemma OtherKeyUnaffected(lines: seq<string>, param: string, value: string, other: string)
    requires param != other
    ensures FirstWhere(ReplaceFirst(lines, KeyedBy(param), Assignment(param, value)), KeyedBy(other))
            == FirstWhere(lines, KeyedBy(other))
  {
    var found := FirstWhere(lines, KeyedBy(param));
    if found.Some? {
      assert LineKey(lines[found.value]) == Some(param);
      AssignmentKeyed(param, value);
    }
    FirstWhereUnaffected(lines, KeyedBy(param), Assignment(param, value), KeyedBy(other));
  }

  /** The assignment that replaced a line is keyed by its own parameter. */
  lemma ReplacedLineKeyed(lines: seq<string>, param: string, value: string)
    requires FirstWhere(lines, KeyedBy(param)).Some?
    ensures var j := FirstWhere(lines, KeyedBy(param)).value;
      LineKey(ReplaceFirst(lines, KeyedBy(param), Assignment(param, value))[j]) == Some(param)
  {
    var j := FirstWhere(lines, KeyedBy(param)).value;
    assert LineKey(lines[j]) == Some(param);
    AssignmentKeyed(param, value);
  }

  /** Line j is not the first line keyed by any edit's parameter. */
  predicate NotEdited(lines: seq<string>, edits: seq<Edit>, j: nat) {
    forall n :: 0 <= n < |edits| ==> FirstWhere(lines, KeyedBy(edits[n].param)) != Some(j)
  }

  /** In `r`, the first line of `lines` keyed by each edit's parameter holds that edit's assignment. */
  predicate Assigned(lines: seq<string>, edits: seq<Edit>, r: seq<string>) {
    |r| == |lines| &&
    forall n :: 0 <= n < |edits| && FirstWhere(lines, KeyedBy(edits[n].param)).Some? ==>
      r[FirstWhere(lines, KeyedBy(edits[n].param)).value] == Assignment(edits[n].param, edits[n].value)
  }

  /**
   * In `r`, every line of `lines` other than the edits' first keyed lines is
   * as it was, including later lines keyed by an edited parameter.
   */
  predicate Untouched(lines: seq<string>, edits: seq<Edit>, r: seq<string>) {
    |r| == |lines| &&
    forall j :: 0 <= j < |lines| && NotEdited(lines, edits, j) ==> r[j] == lines[j]
  }

  /**
   * What a run of edits with distinct parameters does to the lines: the
   * first line keyed by each parameter holds that parameter's assignment,
   * and every other line is unchanged.
   */
  lemma {:induction false} ReplaceEachLineSpec(lines: seq<string>, edits: seq<Edit>)
    requires DistinctParams(edits)
    ensures Assigned(lines, edits, ReplaceEachLine(lines, edits))
    ensures Untouched(lines, edits, ReplaceEachLine(lines, edits))
    decreases |edits|
  {
    if |edits| > 0 {
      var e := edits[0];
      var next := ReplaceFirst(lines, KeyedBy(e.param), Assignment(e.param, e.value));
      assert DistinctParams(edits[1..]) by {
        forall a, b | 0 <= a < b < |edits| - 1
          ensures edits[1..][a].param != edits[1..][b].param
        {
          assert edits[1..][a] == edits[a + 1] && edits[1..][b] == edits[b + 1];
        }
      }
      ReplaceEachLineSpec(next, edits[1..]);
      AssignedStep(lines, edits);
      UntouchedStep(lines, edits);
    }
  }

  /** The rest of the edits read from the lines after the first edit, as ReplaceEachLine applies them. */
  function AfterFirst(lines: seq<string>, edits: seq<Edit>): (r: seq<string>)
    requires |edits| > 0
    ensures |r| == |lines|
  {
    ReplaceFirst(lines, KeyedBy(edits[0].param), Assignment(edits[0].param, edits[0].value))
  }

  lemma AssignedStep(lines: seq<string>, edits: seq<Edit>)
    requires |edits| > 0 && DistinctParams(edits)
    requires var next := AfterFirst(lines, edits);
      Assigned(next, edits[1..], ReplaceEachLine(next, edits[1..])) && Untouched(next, edits[1..], ReplaceEachLine(next, edits[1..]))
    ensures Assigned(lines, edits, ReplaceEachLine(lines, edits))
  {
    var r := ReplaceEachLine(lines, edits);
    assert r == ReplaceEachLine(AfterFirst(lines, edits), edits[1..]);
    forall n | 0 <= n < |edits| && FirstWhere(lines, KeyedBy(edits[n].param)).Some?
      ensures r[FirstWhere(lines, KeyedBy(edits[n].param)).value] == Assignment(edits[n].param, edits[n].value)
    {
      if n == 0 {
        FirstEditKept(lines, edits);
      } else {
        LaterEditKept(lines, edits, n);
      }
    }
  }

  /** The first edit's assignment survives the later edits, which are for other keys. */
  lemma FirstEditKept(lines: seq<string>, edits: seq<Edit>)
    requires |edits| > 0 && DistinctParams(edits)
    requires FirstWhere(lines, KeyedBy(edits[0].param)).Some?
    requires var next := AfterFirst(lines, edits); Untouched(next, edits[1..], ReplaceEachLine(next, edits[1..]))
    ensures var j := FirstWhere(lines, KeyedBy(edits[0].param)).value;
      ReplaceEachLine(AfterFirst(lines, edits), edits[1..])[j] == Assignment(edits[0].param, edits[0].value)
  {
    var e, rest := edits[0], edits[1..];
    var next := AfterFirst(lines, edits);
    var j := FirstWhere(lines, KeyedBy(e.param)).value;
    ReplacedLineKeyed(lines, e.param, e.value);
    assert NotEdited(next, rest, j) by {
      forall m | 0 <= m < |rest|
        ensures FirstWhere(next, KeyedBy(rest[m].param)) != Some(j)
      {
        assert rest[m] == edits[m + 1];
        assert LineKey(next[j]) != Some(rest[m].param);
      }
    }
  }

  /** A later edit's first keyed line is where it was before the first edit, so its assignment lands there. */
  lemma LaterEditKept(lines: seq<string>, edits: seq<Edit>, n: nat)
    requires 0 < n < |edits| && DistinctParams(edits)
    requires FirstWhere(lines, KeyedBy(edits[n].param)).Some?
    requires var next := AfterFirst(lines, edits); Assigned(next, edits[1..], ReplaceEachLine(next, edits[1..]))
    ensures ReplaceEachLine(AfterFirst(lines, edits), edits[1..])[FirstWhere(lines, KeyedBy(edits[n].param)).value]
            == Assignment(edits[n].param, edits[n].value)
  {
    var e := edits[0];
    assert edits[1..][n - 1] == edits[n];
    OtherKeyUnaffected(lines, e.param, e.value, edits[n].param);
  }

  /** A line no edit takes first is kept by the first edit, and no later edit takes it first either. */
  lemma NotEditedAfterFirst(lines: seq<string>, edits: seq<Edit>, j: nat)
    requires |edits| > 0 && DistinctParams(edits)
    requires j < |lines| && NotEdited(lines, edits, j)
    ensures AfterFirst(lines, edits)[j] == lines[j]
    ensures NotEdited(AfterFirst(lines, edits), edits[1..], j)
  {
    var e, rest := edits[0], edits[1..];
    var next := AfterFirst(lines, edits);
    assert FirstWhere(lines, KeyedBy(e.param)) != Some(j);
    forall m | 0 <= m < |rest|
      ensures FirstWhere(next, KeyedBy(rest[m].param)) != Some(j)
    {
      assert rest[m] == edits[m + 1];
      OtherKeyUnaffected(lines, e.param, e.value, rest[m].param);
    }
  }

  lemma UntouchedStep(lines: seq<string>, edits: seq<Edit>)
    requires |edits| > 0 && DistinctParams(edits)
    requires var next := AfterFirst(lines, edits); Untouched(next, edits[1..], ReplaceEachLine(next, edits[1..]))
    ensures Untouched(lines, edits, ReplaceEachLine(lines, edits))
  {
    var next := AfterFirst(lines, edits);
    var r := ReplaceEachLine(lines, edits);
    assert r == ReplaceEachLine(next, edits[1..]);
    forall j | 0 <= j < |lines| && NotEdited(lines, edits, j)
      ensures r[j] == lines[j]
    {
      NotEditedAfterFirst(lines, edits, j);
    }
  }
}
