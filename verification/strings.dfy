/**
 * Character-sequence helpers with the semantics of the C++ standard library
 * calls used by the scripts: std::string::find, find_last_of, std::replace,
 * the blank trim of automation.cpp and std::getline splitting.
 */
module Strings {
  import opened Wrappers

  /** True iff `pat` occurs in `s` starting at position `k`. */
  predicate OccursAt(s: string, pat: string, k: nat) {
    k + |pat| <= |s| && s[k..k + |pat|] == pat
  }

  /** True iff `pat` occurs anywhere in `s`. */
  predicate Contains(s: string, pat: string) {
    exists k: nat | k <= |s| :: OccursAt(s, pat, k)
  }

  /** True iff `s` starts with `pre`. */
  predicate StartsWith(s: string, pre: string) {
    |pre| <= |s| && s[..|pre|] == pre
  }

  /** std::string::find: the first position at which `pat` occurs, scanning from `from`. */
  function FindFrom(s: string, pat: string, from: nat): (r: Option<nat>)
    requires from <= |s|
    ensures r.Some? ==> from <= r.value && OccursAt(s, pat, r.value)
    ensures r.Some? ==> forall k: nat :: from <= k < r.value ==> !OccursAt(s, pat, k)
    ensures r.None? ==> forall k: nat :: from <= k ==> !OccursAt(s, pat, k)
    decreases |s| - from
  {
    if OccursAt(s, pat, from) then Some(from)
    else if from == |s| then None
    else FindFrom(s, pat, from + 1)
  }

  /** std::string::find from the start of `s`. */
  function Find(s: string, pat: string): (r: Option<nat>)
    ensures r.Some? ==> OccursAt(s, pat, r.value)
    ensures r.Some? ==> forall k: nat :: k < r.value ==> !OccursAt(s, pat, k)
    ensures r.None? <==> !Contains(s, pat)
  {
    FindFrom(s, pat, 0)
  }

  /** std::string::find(char): the first position holding `c`. */
  function IndexOf(s: string, c: char): (r: Option<nat>)
    ensures r.Some? ==> r.value < |s| && s[r.value] == c && c !in s[..r.value]
    ensures r.None? <==> c !in s
  {
    if |s| == 0 then None
    else if s[0] == c then Some(0)
    else match IndexOf(s[1..], c)
      case None => None
      case Some(k) => assert s[..k + 1] == [s[0]] + s[1..][..k]; Some(k + 1)
  }

  /** std::string::find_last_of(char): the last position holding `c`. */
  function LastIndexOf(s: string, c: char): (r: Option<nat>)
    ensures r.Some? ==> r.value < |s| && s[r.value] == c && c !in s[r.value + 1..]
    ensures r.None? <==> c !in s
  {
    if |s| == 0 then None
    else if s[|s| - 1] == c then Some(|s| - 1)
    else match LastIndexOf(s[..|s| - 1], c)
      case None => None
      case Some(k) => assert s[k + 1..] == s[..|s| - 1][k + 1..] + [s[|s| - 1]]; Some(k)
  }

  /** std::replace over a string: every `a` becomes `b`. */
  function ReplaceChar(s: string, a: char, b: char): (r: string)
    ensures |r| == |s|
    ensures forall i :: 0 <= i < |s| ==> r[i] == (if s[i] == a then b else s[i])
  {
    if |s| == 0 then [] else [if s[0] == a then b else s[0]] + ReplaceChar(s[1..], a, b)
  }

  lemma ReplaceCharAppend(s: string, t: string, a: char, b: char)
    ensures ReplaceChar(s + t, a, b) == ReplaceChar(s, a, b) + ReplaceChar(t, a, b)
  {
  }

  /** The blanks trimmed by automation.cpp: space and tab. */
  predicate IsBlank(c: char) {
    c == ' ' || c == '\t'
  }

  function TrimLeft(s: string): (r: string)
    ensures |r| <= |s| && r == s[|s| - |r|..]
    ensures forall i :: 0 <= i < |s| - |r| ==> IsBlank(s[i])
    ensures |r| > 0 ==> !IsBlank(r[0])
  {
    if |s| > 0 && IsBlank(s[0]) then TrimLeft(s[1..]) else s
  }

  function TrimRight(s: string): (r: string)
    ensures |r| <= |s| && r == s[..|r|]
    ensures forall i :: |r| <= i < |s| ==> IsBlank(s[i])
    ensures |r| > 0 ==> !IsBlank(r[|r| - 1])
  {
    if |s| > 0 && IsBlank(s[|s| - 1]) then TrimRight(s[..|s| - 1]) else s
  }

  /**
   * Removes leading and trailing blanks. An all-blank key becomes empty,
   * which is also what the erase/find_last_not_of pair in the source yields,
   * because npos + 1 wraps around to 0.
   */
  function Trim(s: string): (r: string)
    ensures |r| > 0 ==> !IsBlank(r[0]) && !IsBlank(r[|r| - 1])
    ensures exists a :: BlankPaddedAt(s, r, a)
  {
    var inner := TrimRight(s);
    var r := TrimLeft(inner);
    assert BlankPaddedAt(s, r, |inner| - |r|);
    r
  }

  /** `s` is `r` with `a` blanks before it and only blanks after it. */
  predicate BlankPaddedAt(s: string, r: string, a: nat) {
    && a + |r| <= |s| && s[a..a + |r|] == r
    && (forall i :: 0 <= i < a ==> IsBlank(s[i]))
    && (forall i :: a + |r| <= i < |s| ==> IsBlank(s[i]))
  }

  /**
   * Trim removes blanks at the two ends and nothing else: a text that is
   * `r` padded with blanks, where `r` starts and ends with a non-blank,
   * trims to exactly `r`.
   */
  lemma TrimUnique(s: string, r: string, a: nat)
    requires BlankPaddedAt(s, r, a)
    requires |r| > 0 && !IsBlank(r[0]) && !IsBlank(r[|r| - 1])
    ensures Trim(s) == r
  {
    var t := Trim(s);
    var b: nat :| BlankPaddedAt(s, t, b);
    assert b + |t| <= |s| && s[b..b + |t|] == t;
    assert s[a] == r[0] && s[a + |r| - 1] == r[|r| - 1];
    assert |t| > 0;
    assert s[b] == t[0] && s[b + |t| - 1] == t[|t| - 1];
    assert b == a;
    assert b + |t| == a + |r|;
  }

  /** A string already free of leading and trailing blanks is its own trim. */
  lemma TrimOfTrimmed(s: string)
    requires |s| > 0 ==> !IsBlank(s[0]) && !IsBlank(s[|s| - 1])
    ensures Trim(s) == s
  {
  }

  /**
   * Splitting the way repeated `std::getline(stream, piece, delim)` does:
   * no pieces for the empty string, and a trailing delimiter does not
   * produce a trailing empty piece.
   */
  function GetlineSplit(s: string, delim: char): (pieces: seq<string>)
    ensures forall i :: 0 <= i < |pieces| ==> delim !in pieces[i]
    ensures |s| == 0 <==> |pieces| == 0
    decreases |s|
  {
    if |s| == 0 then []
    else match IndexOf(s, delim)
      case None => [s]
      case Some(k) => [s[..k]] + GetlineSplit(s[k + 1..], delim)
  }

  /** Every piece followed by the delimiter, the way automation.cpp rebuilds its text. */
  function Terminated(pieces: seq<string>, delim: char): (s: string)
    ensures |pieces| > 0 ==> |s| > 0 && s[|s| - 1] == delim
  {
    if |pieces| == 0 then [] else pieces[0] + [delim] + Terminated(pieces[1..], delim)
  }

  /** The text with a final delimiter added when it is non-empty and lacks one. */
  function Completed(s: string, delim: char): string {
    if |s| == 0 || s[|s| - 1] == delim then s else s + [delim]
  }

  lemma CompletedAfterDelim(p: string, rest: string, delim: char)
    ensures Completed(p + [delim] + rest, delim) == p + [delim] + Completed(rest, delim)
  {
    var s := p + [delim] + rest;
    if |rest| == 0 {
      assert s == p + [delim];
    } else {
      assert s[|s| - 1] == rest[|rest| - 1];
      assert s + [delim] == p + [delim] + (rest + [delim]);
    }
  }

  /** Terminating each getline piece gives back the text, with a final delimiter added if it lacked one. */
  lemma {:induction false} TerminatedGetlineSplit(s: string, delim: char)
    ensures Terminated(GetlineSplit(s, delim), delim) == Completed(s, delim)
    decreases |s|
  {
    if |s| > 0 {
      match IndexOf(s, delim)
      case None =>
        TerminatedUndelimited(s, delim);
      case Some(k) =>
        TerminatedGetlineSplit(s[k + 1..], delim);
        TerminatedGetlineSplitStep(s, delim, k);
    }
  }

  /** A non-empty text without the delimiter is one piece, terminated by one added delimiter. */
  lemma TerminatedUndelimited(s: string, delim: char)
    requires |s| > 0 && delim !in s
    ensures Terminated(GetlineSplit(s, delim), delim) == Completed(s, delim)
  {
    assert s[|s| - 1] in s;
    TerminatedCons(s, [], delim);
  }

  /** The position std::string::find reports splits the text around one delimiter. */
  lemma SplitAtIndex(s: string, delim: char, k: nat)
    requires IndexOf(s, delim) == Some(k)
    ensures s == s[..k] + [delim] + s[k + 1..] && delim !in s[..k]
  {
  }

  /** One piece of TerminatedGetlineSplit: the text up to the first delimiter, then the rest. */
  lemma TerminatedGetlineSplitStep(s: string, delim: char, k: nat)
    requires IndexOf(s, delim) == Some(k)
    requires Terminated(GetlineSplit(s[k + 1..], delim), delim) == Completed(s[k + 1..], delim)
    ensures Terminated(GetlineSplit(s, delim), delim) == Completed(s, delim)
  {
    var p, rest := s[..k], s[k + 1..];
    SplitAtIndex(s, delim, k);
    GetlineSplitCons(p, rest, delim);
    TerminatedCons(p, GetlineSplit(rest, delim), delim);
    CompletedAfterDelim(p, rest, delim);
  }

  lemma TerminatedCons(p: string, tail: seq<string>, delim: char)
    ensures Terminated([p] + tail, delim) == p + [delim] + Terminated(tail, delim)
  {
    assert ([p] + tail)[1..] == tail;
  }

  /** Splitting delimiter-terminated pieces that contain no delimiter gives the pieces back. */
  lemma {:induction false} GetlineSplitTerminated(pieces: seq<string>, delim: char)
    requires forall i :: 0 <= i < |pieces| ==> delim !in pieces[i]
    ensures GetlineSplit(Terminated(pieces, delim), delim) == pieces
  {
    if |pieces| > 0 {
      var rest := Terminated(pieces[1..], delim);
      assert Terminated(pieces, delim) == pieces[0] + [delim] + rest;
      GetlineSplitCons(pieces[0], rest, delim);
      GetlineSplitTerminated(pieces[1..], delim);
      assert [pieces[0]] + pieces[1..] == pieces;
    }
  }

  /** A first piece free of the delimiter splits off cleanly. */
  lemma GetlineSplitCons(p: string, rest: string, delim: char)
    requires delim !in p
    ensures GetlineSplit(p + [delim] + rest, delim) == [p] + GetlineSplit(rest, delim)
  {
    var s := p + [delim] + rest;
    assert s[..|p|] == p && s[|p|] == delim;
    assert IndexOf(s, delim) == Some(|p|);
    assert s[|p| + 1..] == rest;
  }

  /** A single piece free of the delimiter, followed by nothing or by the delimiter, comes back first. */
  lemma GetlineSplitSingle(p: string, tail: string, delim: char)
    requires delim !in p
    requires p != [] || tail != []
    requires tail == [] || tail[0] == delim
    ensures var r := GetlineSplit(p + tail, delim);
      |r| >= 1 && r[0] == p
  {
    if tail == [] {
      assert p + tail == p;
    } else {
      assert p + tail == p + [delim] + tail[1..];
      GetlineSplitCons(p, tail[1..], delim);
    }
  }

  /**
   * Splitting pieces joined by the delimiter, followed by a tail that is
   * empty or starts with the delimiter, gives the pieces back first.
   */
  lemma {:induction false} GetlineSplitJoined(pieces: seq<string>, tail: string, delim: char)
    requires |pieces| > 0
    requires forall i :: 0 <= i < |pieces| ==> delim !in pieces[i]
    requires pieces[|pieces| - 1] != [] || tail != []
    requires tail == [] || tail[0] == delim
    ensures var r := GetlineSplit(Join(pieces, [delim]) + tail, delim);
      |r| >= |pieces| && r[..|pieces|] == pieces
  {
    if |pieces| == 1 {
      GetlineSplitSingle(pieces[0], tail, delim);
    } else {
      GetlineSplitJoined(pieces[1..], tail, delim);
      GetlineSplitJoinedStep(pieces, tail, delim);
    }
  }

  /** One piece of GetlineSplitJoined: the first piece splits off, and the rest come back after it. */
  lemma GetlineSplitJoinedStep(pieces: seq<string>, tail: string, delim: char)
    requires |pieces| > 1 && delim !in pieces[0]
    requires var r := GetlineSplit(Join(pieces[1..], [delim]) + tail, delim);
      |r| >= |pieces| - 1 && r[..|pieces| - 1] == pieces[1..]
    ensures var r := GetlineSplit(Join(pieces, [delim]) + tail, delim);
      |r| >= |pieces| && r[..|pieces|] == pieces
  {
    var rest := Join(pieces[1..], [delim]) + tail;
    assert Join(pieces, [delim]) + tail == pieces[0] + [delim] + rest;
    GetlineSplitCons(pieces[0], rest, delim);
    var r := GetlineSplit(rest, delim);
    assert ([pieces[0]] + r)[..|pieces|] == [pieces[0]] + r[..|pieces| - 1];
    assert [pieces[0]] + pieces[1..] == pieces;
  }

  /** Joins `pieces` with `sep` between consecutive pieces. */
  function Join(pieces: seq<string>, sep: string): (s: string)
    ensures |pieces| == 1 ==> s == pieces[0]
  {
    if |pieces| == 0 then []
    else if |pieces| == 1 then pieces[0]
    else pieces[0] + sep + Join(pieces[1..], sep)
  }

  predicate IsDigit(c: char) {
    '0' <= c <= '9'
  }

  predicate AllDigits(s: string) {
    forall i :: 0 <= i < |s| ==> IsDigit(s[i])
  }

  function DigitChar(d: nat): (c: char)
    requires d < 10
    ensures IsDigit(c)
  {
    ('0' as int + d) as char
  }

  function DigitValue(c: char): (d: nat)
    requires IsDigit(c)
    ensures d < 10 && DigitChar(d) == c
    ensures forall e: nat :: e < 10 && DigitChar(e) == c ==> e == d
  {
    (c as int - '0' as int) as nat
  }

  /** Decimal text of a natural number, without leading zeros (what `operator<<` and `str` print). */
  function NatToString(n: nat): (s: string)
    ensures |s| > 0 && AllDigits(s)
  {
    if n < 10 then [DigitChar(n)] else NatToString(n / 10) + [DigitChar(n % 10)]
  }

  /** The value of a non-empty digit string. */
  function DigitsValue(s: string): nat
    requires AllDigits(s)
  {
    if |s| == 0 then 0 else 10 * DigitsValue(s[..|s| - 1]) + DigitValue(s[|s| - 1])
  }

  lemma {:induction false} DigitsValueNatToString(n: nat)
    ensures DigitsValue(NatToString(n)) == n
  {
    if n >= 10 {
      var s := NatToString(n / 10) + [DigitChar(n % 10)];
      assert s[..|s| - 1] == NatToString(n / 10);
      DigitsValueNatToString(n / 10);
    }
  }

  /** Different numbers print differently. */
  lemma NatToStringInjective(m: nat, n: nat)
    requires NatToString(m) == NatToString(n)
    ensures m == n
  {
    DigitsValueNatToString(m);
    DigitsValueNatToString(n);
  }
}
