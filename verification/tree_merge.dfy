/**
 * The bookkeeping of treeMerge (OutputReader3.C): which directory entries
 * contribute a PixelCharge tree, and the metadata list built in lockstep
 * with the list of trees. The directory listing is given as a sequence in
 * iteration order; opening files and TTree::MergeTrees become the
 * candidate's optional event list and Concat.
 */
module TreeMerge {
  import opened Wrappers
  import opened Strings
  import opened PixelCharge
  import opened FilenameParser
  import opened Flatten

  /**
   * One directory entry: its file name, whether it is a regular file, the
   * extension std::filesystem reports for it (see Extension and
   * FromDirectoryEntry), and its PixelCharge tree if the file has one.
   */
  datatype Candidate = Candidate(fileName: string, isRegularFile: bool, extension: string,
                                 pixelCharge: Option<seq<Event>>)

  /** parseFilename threw for an accepted file; the exception aborts the whole merge. */
  datatype MergeError = BadFilename(fileName: string, reason: ParseError)

  /** The merged tree and the metadata list, index k describing the k-th merged tree. */
  datatype Merged = Merged(events: seq<Event>, parameters: seq<InitialParameters>)

  const RootExtension := ".root"

  /**
   * std::filesystem::path::extension of a file name: the text from the last
   * '.' on, except that "." and "..", and a name whose only '.' is its first
   * character, have none.
   */
  function Extension(fileName: string): (ext: string)
    ensures ext == [] || (|ext| < |fileName| && ext == fileName[|fileName| - |ext|..] && ext[0] == '.'
                          && '.' !in ext[1..])
    ensures '.' !in fileName ==> ext == []
  {
    if fileName == "." || fileName == ".." then []
    else match LastIndexOf(fileName, '.')
      case None => []
      case Some(k) =>
        assert fileName[k..][1..] == fileName[k + 1..];
        if k == 0 then [] else fileName[k..]
  }

  /** Any name ending in ".root" with something in front has the extension ".root"; ".root" itself has none. */
  lemma RootExtensionOf(stem: string)
    ensures Extension(stem + RootExtension) == if stem == [] then [] else RootExtension
  {
    var s := stem + RootExtension;
    assert s[|stem|] == '.' && s[|stem| + 1..] == "root";
    assert LastIndexOf(s, '.') == Some(|stem|);
    assert s[|stem|..] == RootExtension;
  }

  /** A directory entry as the loop sees it: the extension is the one path::extension computes. */
  function FromDirectoryEntry(fileName: string, isRegularFile: bool, pixelCharge: Option<seq<Event>>): (c: Candidate)
    ensures c.fileName == fileName && c.extension == Extension(fileName)
  {
    Candidate(fileName, isRegularFile, Extension(fileName), pixelCharge)
  }

  /** The three skip conditions of the directory loop, in source order. */
  predicate Accepted(c: Candidate) {
    c.isRegularFile && c.extension == RootExtension && c.pixelCharge.Some?
  }

  /** The entries that reach parseFilename, in directory order. */
  function AcceptedFiles(cs: seq<Candidate>): (acc: seq<Candidate>)
    ensures |acc| <= |cs|
    ensures forall k :: 0 <= k < |acc| ==> Accepted(acc[k])
    ensures forall c :: c in acc <==> c in cs && Accepted(c)
  {
    if |cs| == 0 then []
    else if Accepted(cs[0]) then [cs[0]] + AcceptedFiles(cs[1..])
    else AcceptedFiles(cs[1..])
  }

  /** A single entry is kept exactly when it passes the three checks. */
  lemma AcceptedFilesSingle(c: Candidate)
    ensures AcceptedFiles([c]) == if Accepted(c) then [c] else []
  {
    assert [c][1..] == [];
  }

  lemma {:induction false} AcceptedFilesAppend(a: seq<Candidate>, b: seq<Candidate>)
    ensures AcceptedFiles(a + b) == AcceptedFiles(a) + AcceptedFiles(b)
  {
    if |a| == 0 {
      assert a + b == b;
    } else {
      assert (a + b)[1..] == a[1..] + b;
      AcceptedFilesAppend(a[1..], b);
    }
  }

  function Trees(acc: seq<Candidate>): (trees: seq<seq<Event>>)
    requires forall k :: 0 <= k < |acc| ==> acc[k].pixelCharge.Some?
    ensures |trees| == |acc|
    ensures forall k :: 0 <= k < |acc| ==> trees[k] == acc[k].pixelCharge.value
  {
    seq(|acc|, k requires 0 <= k < |acc| => acc[k].pixelCharge.value)
  }

  /** A file-name parser: parseFilename, or any function of the same shape. */
  type NameParser = string -> Result<InitialParameters, ParseError>

  /** The metadata entry of an accepted file: its parsed name, numberOfEntries set to its entry count. */
  predicate DescribesFile(p: InitialParameters, c: Candidate, parse: NameParser)
    requires c.pixelCharge.Some?
  {
    && parse(c.fileName).Success?
    && p == parse(c.fileName).value.(numberOfEntries := |c.pixelCharge.value|)
  }

  /**
   * The directory loop of treeMerge up to TTree::MergeTrees: skipped
   * entries contribute nothing; an accepted file appends its tree to the
   * merged events and one metadata entry to the list; the first accepted
   * file whose name does not parse aborts the merge. The name parser is a
   * parameter so that the bookkeeping can be reasoned about apart from it;
   * treeMerge itself uses ParseFilename (see TreeMergeBookkeeping).
   */
  function MergeCandidates(cs: seq<Candidate>, parse: NameParser): (r: Result<Merged, MergeError>)
    ensures r.Success? ==> |r.value.parameters| == |AcceptedFiles(cs)|
  {
    if |cs| == 0 then Success(Merged([], []))
    else if !Accepted(cs[0]) then MergeCandidates(cs[1..], parse)
    else
      var c := cs[0];
      match parse(c.fileName)
      case Failure(e) => Failure(BadFilename(c.fileName, e))
      case Success(p) =>
        var rest := MergeCandidates(cs[1..], parse);
        if rest.Failure? then Failure(rest.error)
        else
          var entry := p.(numberOfEntries := |c.pixelCharge.value|);
          Success(Merged(c.pixelCharge.value + rest.value.events, [entry] + rest.value.parameters))
  }

  /** treeMerge's bookkeeping with its own file-name parser. */
  function TreeMergeBookkeeping(cs: seq<Candidate>): Result<Merged, MergeError> {
    MergeCandidates(cs, ParseFilename)
  }

  /** Every name that reaches the parser parses. */
  predicate AllNamesParse(acc: seq<Candidate>, parse: NameParser) {
    forall k :: 0 <= k < |acc| ==> parse(acc[k].fileName).Success?
  }

  /** The merge aborts exactly when some accepted file's name does not parse. */
  lemma {:induction false} MergeSucceedsIff(cs: seq<Candidate>, parse: NameParser)
    ensures MergeCandidates(cs, parse).Success? <==> AllNamesParse(AcceptedFiles(cs), parse)
  {
    if |cs| > 0 {
      MergeSucceedsIff(cs[1..], parse);
      var tail := AcceptedFiles(cs[1..]);
      if Accepted(cs[0]) {
        var c := cs[0];
        var acc := [c] + tail;
        assert AcceptedFiles(cs) == acc;
        if parse(c.fileName).Failure? {
          assert MergeCandidates(cs, parse).Failure?;
          assert acc[0] == c;
        } else {
          assert MergeCandidates(cs, parse).Success? == MergeCandidates(cs[1..], parse).Success?;
          if AllNamesParse(tail, parse) {
            forall j | 0 <= j < |acc|
              ensures parse(acc[j].fileName).Success?
            {
              if j > 0 {
                assert acc[j] == tail[j - 1];
              }
            }
          } else {
            var k :| 0 <= k < |tail| && parse(tail[k].fileName).Failure?;
            assert acc[k + 1] == tail[k];
          }
        }
      } else {
        assert AcceptedFiles(cs) == tail;
        assert MergeCandidates(cs, parse) == MergeCandidates(cs[1..], parse);
      }
    }
  }

  /** A successful merge holds the accepted files' trees, concatenated in directory order. */
  lemma {:induction false} MergeEvents(cs: seq<Candidate>, parse: NameParser)
    requires MergeCandidates(cs, parse).Success?
    ensures MergeCandidates(cs, parse).value.events == Concat(Trees(AcceptedFiles(cs)))
  {
    if |cs| > 0 {
      MergeEvents(cs[1..], parse);
      if Accepted(cs[0]) {
        var c := cs[0];
        var tail := AcceptedFiles(cs[1..]);
        var acc := [c] + tail;
        assert forall j :: 0 < j < |acc| ==> acc[j] == tail[j - 1];
        assert Trees(acc)[1..] == Trees(tail);
      }
    }
  }

  /**
   * A successful merge has, for each accepted file and at that file's index,
   * one metadata entry: the parsed name, numberOfEntries set to the file's
   * entry count.
   */
  lemma {:induction false} MergeParameters(cs: seq<Candidate>, parse: NameParser)
    requires MergeCandidates(cs, parse).Success?
    ensures var m := MergeCandidates(cs, parse).value; var acc := AcceptedFiles(cs);
      forall k :: 0 <= k < |acc| ==> DescribesFile(m.parameters[k], acc[k], parse)
  {
    if |cs| > 0 {
      MergeParameters(cs[1..], parse);
      if Accepted(cs[0]) {
        var c := cs[0];
        var tail := AcceptedFiles(cs[1..]);
        var acc := [c] + tail;
        var m := MergeCandidates(cs, parse).value;
        var rest := MergeCandidates(cs[1..], parse).value;
        assert m.parameters == [parse(c.fileName).value.(numberOfEntries := |c.pixelCharge.value|)] + rest.parameters;
        forall k | 0 < k < |acc|
          ensures DescribesFile(m.parameters[k], acc[k], parse)
        {
          assert m.parameters[k] == rest.parameters[k - 1];
          assert acc[k] == tail[k - 1];
        }
      }
    }
  }

  /** A failed merge reports the first accepted file, in directory order, whose name does not parse. */
  lemma {:induction false} MergeFailureIsFirstBadName(cs: seq<Candidate>, parse: NameParser)
    requires MergeCandidates(cs, parse).Failure?
    ensures var acc := AcceptedFiles(cs); var e := MergeCandidates(cs, parse).error;
      exists k :: 0 <= k < |acc| && parse(acc[k].fileName).Failure?
        && e == BadFilename(acc[k].fileName, parse(acc[k].fileName).error)
        && AllNamesParse(acc[..k], parse)
  {
    var c := cs[0];
    var tail := AcceptedFiles(cs[1..]);
    if !Accepted(c) {
      assert AcceptedFiles(cs) == tail;
      assert MergeCandidates(cs, parse) == MergeCandidates(cs[1..], parse);
      MergeFailureIsFirstBadName(cs[1..], parse);
    } else {
      var acc := [c] + tail;
      assert acc[0] == c;
      if parse(c.fileName).Success? {
        MergeFailureIsFirstBadName(cs[1..], parse);
        var k :| 0 <= k < |tail| && parse(tail[k].fileName).Failure?
          && MergeCandidates(cs[1..], parse).error == BadFilename(tail[k].fileName, parse(tail[k].fileName).error)
          && AllNamesParse(tail[..k], parse);
        assert acc[k + 1] == tail[k];
        var pre := acc[..k + 1];
        assert pre == [c] + tail[..k];
        forall j | 0 <= j < |pre|
          ensures parse(pre[j].fileName).Success?
        {
          if j > 0 {
            assert pre[j] == tail[..k][j - 1];
          }
        }
      } else {
        assert acc[..0] == [];
      }
    }
  }

  /** The merge looks only at the accepted entries: dropping the skipped ones changes nothing. */
  lemma {:induction false} MergeOnlyAccepted(cs: seq<Candidate>, parse: NameParser)
    ensures MergeCandidates(cs, parse) == MergeCandidates(AcceptedFiles(cs), parse)
  {
    if |cs| > 0 {
      MergeOnlyAccepted(cs[1..], parse);
      var tail := AcceptedFiles(cs[1..]);
      if Accepted(cs[0]) {
        var acc := [cs[0]] + tail;
        assert AcceptedFiles(cs) == acc;
        assert acc[1..] == tail;
        AcceptedFilesIdempotent(cs[1..]);
      } else {
        assert AcceptedFiles(cs) == tail;
      }
    }
  }

  lemma {:induction false} AcceptedFilesIdempotent(cs: seq<Candidate>)
    ensures AcceptedFiles(AcceptedFiles(cs)) == AcceptedFiles(cs)
  {
    if |cs| > 0 {
      AcceptedFilesIdempotent(cs[1..]);
      var tail := AcceptedFiles(cs[1..]);
      if Accepted(cs[0]) {
        assert ([cs[0]] + tail)[1..] == tail;
      }
    }
  }

  /**
   * A directory entry that is not a regular file, has another extension or
   * lacks a PixelCharge tree contributes neither events nor metadata, and
   * cannot make the merge fail, wherever it appears in the listing.
   */
  lemma SkippedEntryChangesNothing(before: seq<Candidate>, skipped: Candidate, after: seq<Candidate>, parse: NameParser)
    requires !Accepted(skipped)
    ensures MergeCandidates(before + [skipped] + after, parse) == MergeCandidates(before + after, parse)
  {
    AcceptedFilesAppend(before + [skipped], after);
    AcceptedFilesAppend(before, [skipped]);
    AcceptedFilesAppend(before, after);
    assert AcceptedFiles([skipped]) == [];
    assert AcceptedFiles(before) + [] == AcceptedFiles(before);
    MergeOnlyAccepted(before + [skipped] + after, parse);
    MergeOnlyAccepted(before + after, parse);
  }

  lemma {:induction false} SumOfLengths(trees: seq<seq<Event>>, spans: seq<nat>)
    requires |trees| == |spans|
    requires forall k :: 0 <= k < |trees| ==> spans[k] == |trees[k]|
    ensures Sum(spans) == |Concat(trees)|
  {
    if |trees| > 0 {
      SumOfLengths(trees[1..], spans[1..]);
    }
  }

  lemma {:induction false} SumMonotone(a: seq<nat>, b: seq<nat>)
    requires |a| == |b|
    requires forall k :: 0 <= k < |a| ==> a[k] <= b[k]
    ensures Sum(a) <= Sum(b)
  {
    if |a| > 0 {
      SumMonotone(a[1..], b[1..]);
    }
  }

  /** After a successful merge, numberOfEntries of metadata entry k is the length of merged tree k. */
  lemma MergedEntryCounts(cs: seq<Candidate>, parse: NameParser)
    requires MergeCandidates(cs, parse).Success?
    ensures var m := MergeCandidates(cs, parse).value; var trees := Trees(AcceptedFiles(cs));
      && |trees| == |m.parameters|
      && (forall k :: 0 <= k < |trees| ==> m.parameters[k].numberOfEntries == |trees[k]|)
      && Sum(ExactSpans(m.parameters)) == |m.events|
  {
    var m := MergeCandidates(cs, parse).value;
    var acc := AcceptedFiles(cs);
    MergeParameters(cs, parse);
    MergeEvents(cs, parse);
    var trees := Trees(acc);
    forall k | 0 <= k < |trees|
      ensures m.parameters[k].numberOfEntries == |trees[k]|
    {
      assert DescribesFile(m.parameters[k], acc[k], parse);
    }
    SumOfLengths(trees, ExactSpans(m.parameters));
  }

  /**
   * Merging then flattening with the corrected ownership stamps every event
   * of accepted file k, and only those, with file k's metadata, numbering
   * the events of each file from 0.
   */
  lemma MergeThenFlattenCorrected(cs: seq<Candidate>, parse: NameParser)
    requires MergeCandidates(cs, parse).Success?
    ensures var m := MergeCandidates(cs, parse).value;
      FlattenCorrected(m.events, m.parameters) == Success(StampRuns(Trees(AcceptedFiles(cs)), m.parameters))
  {
    var m := MergeCandidates(cs, parse).value;
    var trees := Trees(AcceptedFiles(cs));
    MergedEntryCounts(cs, parse);
    MergeEvents(cs, parse);
    ByRunsOfTrees(trees, m.parameters, ExactSpans(m.parameters));
  }

  /**
   * As written, the same holds as long as every accepted file's tree has at
   * least one entry (EmptyRunTakesNextEvent shows what an empty one does).
   */
  lemma MergeThenFlattenAsWritten(cs: seq<Candidate>, parse: NameParser)
    requires MergeCandidates(cs, parse).Success?
    requires forall k :: 0 <= k < |AcceptedFiles(cs)| ==> AcceptedFiles(cs)[k].pixelCharge.value != []
    ensures var m := MergeCandidates(cs, parse).value;
      FlattenAsWritten(m.events, m.parameters) == Success(StampRuns(Trees(AcceptedFiles(cs)), m.parameters))
  {
    var m := MergeCandidates(cs, parse).value;
    var trees := Trees(AcceptedFiles(cs));
    MergedEntryCounts(cs, parse);
    MergeEvents(cs, parse);
    ByRunsOfTrees(trees, m.parameters, Spans(m.parameters));
  }

  /** The metadata list treeMerge builds always covers the merged tree: the as-written flattening never overflows. */
  lemma MergeThenFlattenNeverOverflows(cs: seq<Candidate>, parse: NameParser)
    requires MergeCandidates(cs, parse).Success?
    ensures var m := MergeCandidates(cs, parse).value;
      FlattenAsWritten(m.events, m.parameters).Success?
  {
    var m := MergeCandidates(cs, parse).value;
    MergedEntryCounts(cs, parse);
    SumMonotone(ExactSpans(m.parameters), Spans(m.parameters));
  }

  /** treeMerge end to end: the merged tree, then its flattened rows. */
  datatype MergeOutput = MergeOutput(merged: Merged, flattened: seq<Row>)

  datatype TreeMergeError = MergeFailed(mergeError: MergeError) | FlattenFailed(flattenError: FlattenError)

  function TreeMergeOutput(cs: seq<Candidate>): (r: Result<MergeOutput, TreeMergeError>)
    ensures r.Success? <==> AllNamesParse(AcceptedFiles(cs), ParseFilename)
    ensures r.Failure? ==> r.error.MergeFailed?
  {
    MergeSucceedsIff(cs, ParseFilename);
    match TreeMergeBookkeeping(cs)
    case Failure(e) => Failure(MergeFailed(e))
    case Success(m) =>
      MergeThenFlattenNeverOverflows(cs, ParseFilename);
      match FlattenAsWritten(m.events, m.parameters)
      case Failure(e) => Failure(FlattenFailed(e))
      case Success(rows) => Success(MergeOutput(m, rows))
  }

  /**
   * treeMerge fails only through parseFilename, exactly when an accepted
   * file's name does not parse; when every accepted tree is non-empty, the
   * flattened rows are each file's events stamped with that file's metadata.
   */
  lemma TreeMergeOutputSpec(cs: seq<Candidate>)
    ensures TreeMergeOutput(cs).Success? <==> AllNamesParse(AcceptedFiles(cs), ParseFilename)
    ensures TreeMergeOutput(cs).Failure? ==> TreeMergeOutput(cs).error.MergeFailed?
    ensures TreeMergeOutput(cs).Success?
            && (forall k :: 0 <= k < |AcceptedFiles(cs)| ==> AcceptedFiles(cs)[k].pixelCharge.value != [])
            ==> var out := TreeMergeOutput(cs).value;
              out.flattened == StampRuns(Trees(AcceptedFiles(cs)), out.merged.parameters)
  {
    MergeSucceedsIff(cs, ParseFilename);
    if TreeMergeBookkeeping(cs).Success? {
      MergeThenFlattenNeverOverflows(cs, ParseFilename);
      if forall k :: 0 <= k < |AcceptedFiles(cs)| ==> AcceptedFiles(cs)[k].pixelCharge.value != [] {
        MergeThenFlattenAsWritten(cs, ParseFilename);
      }
    }
  }
}
