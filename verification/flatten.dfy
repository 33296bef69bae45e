/**
 * flattenPixelChargeTree (OutputReader3.C): one output row per record of the
 * merged tree, stamped with the initial parameters of the run owning the
 * record's event. Ownership is not recorded in the tree; the source recovers
 * it with a (run_idx, run_counter) cursor over the numberOfEntries of the
 * metadata list.
 *
 * ByRuns is the ownership specification, written run by run and independent
 * of the cursor; FlattenPixelChargeTree is the cursor loop, proved to compute it.
 */
module Flatten {
  import opened Wrappers
  import opened PixelCharge
  import opened FilenameParser

  /** One row of the pixelcharge_flattened tree. */
  datatype Row = Row(
    eventIdx: int,
    pixelX: int,
    pixelY: int,
    charge: int,
    globalTime: real,
    localTime: real,
    particleType: string,
    particleEnergy: NumberText,
    xRotation: NumberText,
    yRotation: NumberText,
    zRotation: NumberText)

  /** Reading initial_parameters[run_idx] past the end of the list. */
  datatype FlattenError = RunBoundaryOverflow

  function RowOf(r: Record, eventIdx: int, p: InitialParameters): Row {
    Row(eventIdx, r.pixelX, r.pixelY, r.charge, r.globalTime, r.localTime,
        p.particleType, p.particleEnergy, p.xRotation, p.yRotation, p.zRotation)
  }

  /** The rows one event contributes: one per record, in record order. */
  function EventRows(event: Event, eventIdx: int, p: InitialParameters): (rows: seq<Row>)
    ensures |rows| == |event|
    ensures forall j :: 0 <= j < |event| ==> rows[j] == RowOf(event[j], eventIdx, p)
  {
    seq(|event|, j requires 0 <= j < |event| => RowOf(event[j], eventIdx, p))
  }

  /** The rows of consecutive events of one run, the first numbered `first`. */
  function RunRows(events: seq<Event>, p: InitialParameters, first: int): seq<Row> {
    if |events| == 0 then [] else EventRows(events[0], first, p) + RunRows(events[1..], p, first + 1)
  }

  lemma {:induction false} RunRowsLength(events: seq<Event>, p: InitialParameters, first: int)
    ensures |RunRows(events, p, first)| == TotalRecords(events)
  {
    if |events| > 0 {
      RunRowsLength(events[1..], p, first + 1);
    }
  }

  /** Rows prepended to a successful result; an error stays an error. */
  function Prepend(rows: seq<Row>, r: Result<seq<Row>, FlattenError>): Result<seq<Row>, FlattenError> {
    match r
    case Success(rest) => Success(rows + rest)
    case Failure(e) => Failure(e)
  }

  lemma PrependPrepend(a: seq<Row>, b: seq<Row>, r: Result<seq<Row>, FlattenError>)
    ensures Prepend(a, Prepend(b, r)) == Prepend(a + b, r)
  {
    if r.Success? {
      assert a + (b + r.value) == (a + b) + r.value;
    }
  }

  lemma PrependNothing(r: Result<seq<Row>, FlattenError>)
    ensures Prepend([], r) == r
  {
    if r.Success? {
      assert [] + r.value == r.value;
    }
  }

  /** Events run k consumes in the source: the counter is bumped before the comparison, so at least one. */
  function Span(numberOfEntries: int): (s: nat)
    ensures s >= 1 && s >= numberOfEntries
    ensures numberOfEntries >= 1 ==> s == numberOfEntries
    ensures numberOfEntries < 1 ==> s == 1
  {
    if numberOfEntries < 1 then 1 else numberOfEntries
  }

  /** Events run k really contributed to the merged tree. */
  function ExactSpan(numberOfEntries: int): (s: nat)
    ensures numberOfEntries >= 0 ==> s == numberOfEntries
    ensures numberOfEntries < 0 ==> s == 0
  {
    if numberOfEntries < 0 then 0 else numberOfEntries
  }

  function Spans(params: seq<InitialParameters>): (spans: seq<nat>)
    ensures |spans| == |params|
    ensures forall k :: 0 <= k < |params| ==> spans[k] == Span(params[k].numberOfEntries)
  {
    seq(|params|, k requires 0 <= k < |params| => Span(params[k].numberOfEntries))
  }

  function ExactSpans(params: seq<InitialParameters>): (spans: seq<nat>)
    ensures |spans| == |params|
    ensures forall k :: 0 <= k < |params| ==> spans[k] == ExactSpan(params[k].numberOfEntries)
  {
    seq(|params|, k requires 0 <= k < |params| => ExactSpan(params[k].numberOfEntries))
  }

  function Sum(s: seq<nat>): nat {
    if |s| == 0 then 0 else s[0] + Sum(s[1..])
  }

  /**
   * Ownership specification: run k owns the next spans[k] events, numbered
   * from 0 within the run (the first run has already used `offset` of them);
   * every record of an owned event becomes one row stamped with params[k].
   * Events left over once the runs are used up are a RunBoundaryOverflow.
   */
  function ByRuns(events: seq<Event>, params: seq<InitialParameters>, spans: seq<nat>, offset: nat)
    : (r: Result<seq<Row>, FlattenError>)
    requires |spans| == |params|
    requires |params| > 0 ==> offset <= spans[0]
    ensures (|params| > 0 || offset == 0) ==> (r.Success? <==> |events| + offset <= Sum(spans))
    ensures r.Success? ==> |r.value| == TotalRecords(events)
    decreases |params|
  {
    if |events| == 0 then Success([])
    else if |params| == 0 then Failure(RunBoundaryOverflow)
    else
      var room := spans[0] - offset;
      if |events| <= room then
        RunRowsLength(events, params[0], offset);
        assert spans[0] <= Sum(spans);
        Success(RunRows(events, params[0], offset))
      else
        RunRowsLength(events[..room], params[0], offset);
        TotalRecordsAppend(events[..room], events[room..]);
        assert events[..room] + events[room..] == events;
        Prepend(RunRows(events[..room], params[0], offset), ByRuns(events[room..], params[1..], spans[1..], 0))
  }

  /** flattenPixelChargeTree's result, as the source computes it. */
  function FlattenAsWritten(events: seq<Event>, params: seq<InitialParameters>): (r: Result<seq<Row>, FlattenError>)
    ensures r.Success? <==> |events| <= Capacity(params)
    ensures r.Success? ==> |r.value| == TotalRecords(events)
  {
    ByRuns(events, params, Spans(params), 0)
  }

  /** The intended result: a run owns exactly the numberOfEntries events its file contributed. */
  function FlattenCorrected(events: seq<Event>, params: seq<InitialParameters>): (r: Result<seq<Row>, FlattenError>)
    ensures r.Success? <==> |events| <= Sum(ExactSpans(params))
    ensures r.Success? ==> |r.value| == TotalRecords(events)
  {
    ByRuns(events, params, ExactSpans(params), 0)
  }

  /** ByRuns handles one event at a time the way the cursor does. */
  lemma {:induction false} ByRunsStep(events: seq<Event>, params: seq<InitialParameters>, spans: seq<nat>, offset: nat)
    requires |spans| == |params| && |params| > 0 && |events| > 0
    requires offset < spans[0]
    ensures ByRuns(events, params, spans, offset)
            == Prepend(EventRows(events[0], offset, params[0]),
                       if offset + 1 >= spans[0] then ByRuns(events[1..], params[1..], spans[1..], 0)
                       else ByRuns(events[1..], params, spans, offset + 1))
  {
    var room := spans[0] - offset;
    var head := EventRows(events[0], offset, params[0]);
    if |events| <= room {
      assert RunRows(events, params[0], offset) == head + RunRows(events[1..], params[0], offset + 1);
      if offset + 1 >= spans[0] {
        assert events[1..] == [];
      }
    } else {
      var rest := ByRuns(events[room..], params[1..], spans[1..], 0);
      assert RunRows(events[..room], params[0], offset)
             == head + RunRows(events[..room][1..], params[0], offset + 1);
      PrependPrepend(head, RunRows(events[..room][1..], params[0], offset + 1), rest);
      if offset + 1 < spans[0] {
        assert events[1..][..room - 1] == events[..room][1..];
        assert events[1..][room - 1..] == events[room..];
        assert ByRuns(events[1..], params, spans, offset + 1)
               == Prepend(RunRows(events[1..][..room - 1], params[0], offset + 1),
                          ByRuns(events[1..][room - 1..], params[1..], spans[1..], 0));
      } else {
        assert room == 1;
        assert events[..room][1..] == [];
        assert head + [] == head;
        assert events[1..] == events[room..];
      }
    }
  }

  /** The source's capacity: the number of events the metadata list can stamp. */
  function Capacity(params: seq<InitialParameters>): nat {
    Sum(Spans(params))
  }

  /** The inner loop of flattenPixelChargeTree: one output_tree->Fill() per record of the event. */
  method FillEvent(rows: seq<Row>, event: Event, eventIdx: int, p: InitialParameters) returns (rows': seq<Row>)
    ensures rows' == rows + EventRows(event, eventIdx, p)
  {
    rows' := rows;
    var j := 0;
    while j < |event|
      invariant 0 <= j <= |event|
      invariant rows' == rows + EventRows(event, eventIdx, p)[..j]
    {
      rows' := rows' + [RowOf(event[j], eventIdx, p)];
      j := j + 1;
    }
    assert EventRows(event, eventIdx, p)[..j] == EventRows(event, eventIdx, p);
  }

  /** One turn of the cursor loop: stamp event i with run runIdx, then bump and compare the counter. */
  lemma CursorStep(events: seq<Event>, params: seq<InitialParameters>, i: nat, runIdx: nat, runCounter: nat)
    requires i < |events| && runIdx < |params|
    requires runCounter < Span(params[runIdx].numberOfEntries)
    ensures var spans := Spans(params);
      ByRuns(events[i..], params[runIdx..], spans[runIdx..], runCounter)
      == Prepend(EventRows(events[i], runCounter, params[runIdx]),
                 if runCounter + 1 >= params[runIdx].numberOfEntries
                 then ByRuns(events[i + 1..], params[runIdx + 1..], spans[runIdx + 1..], 0)
                 else ByRuns(events[i + 1..], params[runIdx..], spans[runIdx..], runCounter + 1))
  {
    var spans := Spans(params);
    ByRunsStep(events[i..], params[runIdx..], spans[runIdx..], runCounter);
    assert events[i..][1..] == events[i + 1..];
    assert params[runIdx..][1..] == params[runIdx + 1..];
    assert spans[runIdx..][1..] == spans[runIdx + 1..];
  }

  /**
   * The cursor loop's invariant carried over one turn: the rows so far, the
   * event's rows, and what the specification has left from the advanced
   * cursor (runIdx', runCounter') make up the whole result.
   */
  lemma CursorInvariantStep(events: seq<Event>, params: seq<InitialParameters>, i: nat, runIdx: nat, runCounter: nat,
                            rows: seq<Row>, runIdx': nat, runCounter': nat)
    requires i < |events| && runIdx < |params|
    requires runCounter < Span(params[runIdx].numberOfEntries)
    requires var spans := Spans(params);
      Prepend(rows, ByRuns(events[i..], params[runIdx..], spans[runIdx..], runCounter)) == FlattenAsWritten(events, params)
    requires (runIdx', runCounter') == if runCounter + 1 >= params[runIdx].numberOfEntries then (runIdx + 1, 0)
                                       else (runIdx, runCounter + 1)
    ensures var spans := Spans(params);
      && runIdx' <= |params|
      && (runIdx' < |params| ==> runCounter' < spans[runIdx'])
      && (runIdx' == |params| ==> runCounter' == 0)
      && Prepend(rows + EventRows(events[i], runCounter, params[runIdx]),
                 ByRuns(events[i + 1..], params[runIdx'..], spans[runIdx'..], runCounter'))
         == FlattenAsWritten(events, params)
  {
    var spans := Spans(params);
    CursorStep(events, params, i, runIdx, runCounter);
    PrependPrepend(rows, EventRows(events[i], runCounter, params[runIdx]),
                   ByRuns(events[i + 1..], params[runIdx'..], spans[runIdx'..], runCounter'));
  }

  /** The rows of several runs, each run's events numbered from 0 and stamped with its own parameters. */
  function StampRuns(trees: seq<seq<Event>>, params: seq<InitialParameters>): seq<Row>
    requires |trees| == |params|
  {
    if |trees| == 0 then [] else RunRows(trees[0], params[0], 0) + StampRuns(trees[1..], params[1..])
  }

  lemma {:induction false} StampRunsOfEmpty(trees: seq<seq<Event>>, params: seq<InitialParameters>)
    requires |trees| == |params|
    requires forall k :: 0 <= k < |trees| ==> trees[k] == []
    ensures StampRuns(trees, params) == []
  {
    if |trees| > 0 {
      StampRunsOfEmpty(trees[1..], params[1..]);
    }
  }

  /**
   * When run k owns exactly as many events as tree k holds, the ownership
   * specification stamps every event of tree k, and only those, with params[k].
   */
  lemma {:induction false} ByRunsOfTrees(trees: seq<seq<Event>>, params: seq<InitialParameters>, spans: seq<nat>)
    requires |trees| == |params| == |spans|
    requires forall k :: 0 <= k < |trees| ==> spans[k] == |trees[k]|
    ensures ByRuns(Concat(trees), params, spans, 0) == Success(StampRuns(trees, params))
    decreases |trees|
  {
    var events := Concat(trees);
    if |events| == 0 {
      ConcatEmpty(trees);
      StampRunsOfEmpty(trees, params);
    } else {
      var rest := Concat(trees[1..]);
      assert events == trees[0] + rest;
      if |events| <= spans[0] {
        assert rest == [];
        assert events == trees[0];
        ConcatEmpty(trees[1..]);
        StampRunsOfEmpty(trees[1..], params[1..]);
        assert RunRows(trees[0], params[0], 0) + [] == RunRows(trees[0], params[0], 0);
      } else {
        assert events[..spans[0]] == trees[0];
        assert events[spans[0]..] == rest;
        ByRunsOfTrees(trees[1..], params[1..], spans[1..]);
      }
    }
  }

  /**
   * The worked example of the flattening: runs of 2 and 3 entries over five
   * events holding 1, 2, 0, 3 and 1 records give 7 rows; the first 3 carry
   * the first run's parameters, the last 4 the second's, and event_idx is
   * the event's offset within its run (0, 1, 1, then 1, 1, 1, 2: the empty
   * third event is offset 0 of the second run).
   */
  lemma FlattenExample(p: InitialParameters, q: InitialParameters, r0: Record, r1: Record, r2: Record,
                       r3: Record, r4: Record, r5: Record, r6: Record)
    requires p.numberOfEntries == 2 && q.numberOfEntries == 3
    ensures FlattenAsWritten([[r0], [r1, r2], [], [r3, r4, r5], [r6]], [p, q])
            == Success([RowOf(r0, 0, p), RowOf(r1, 1, p), RowOf(r2, 1, p),
                        RowOf(r3, 1, q), RowOf(r4, 1, q), RowOf(r5, 1, q), RowOf(r6, 2, q)])
  {
    var events: seq<Event> := [[r0], [r1, r2], [], [r3, r4, r5], [r6]];
    var spans := Spans([p, q]);
    assert spans == [2, 3];
    assert EventRows([r0], 0, p) == [RowOf(r0, 0, p)];
    assert EventRows([r1, r2], 1, p) == [RowOf(r1, 1, p), RowOf(r2, 1, p)];
    assert EventRows([], 0, q) == [];
    assert EventRows([r3, r4, r5], 1, q) == [RowOf(r3, 1, q), RowOf(r4, 1, q), RowOf(r5, 1, q)];
    assert EventRows([r6], 2, q) == [RowOf(r6, 2, q)];
    var first := events[..2];
    assert first[0] == [r0] && first[1..] == [[r1, r2]];
    assert RunRows([[r1, r2]], p, 1) == EventRows([r1, r2], 1, p) + RunRows([], p, 2);
    assert RunRows(first, p, 0) == [RowOf(r0, 0, p), RowOf(r1, 1, p), RowOf(r2, 1, p)];
    var second := events[2..];
    assert second == [[], [r3, r4, r5], [r6]];
    assert second[1..] == [[r3, r4, r5], [r6]] && second[1..][1..] == [[r6]];
    assert RunRows([[r6]], q, 2) == [RowOf(r6, 2, q)];
    assert RunRows(second[1..], q, 1) == [RowOf(r3, 1, q), RowOf(r4, 1, q), RowOf(r5, 1, q), RowOf(r6, 2, q)];
    assert RunRows(second, q, 0) == [RowOf(r3, 1, q), RowOf(r4, 1, q), RowOf(r5, 1, q), RowOf(r6, 2, q)];
    assert [p, q][1..] == [q] && spans[1..] == [3];
    assert ByRuns(second, [q], [3], 0) == Success(RunRows(second, q, 0));
    assert ByRuns(events, [p, q], spans, 0) == Prepend(RunRows(first, p, 0), ByRuns(second, [q], [3], 0));
    assert [RowOf(r0, 0, p), RowOf(r1, 1, p), RowOf(r2, 1, p)]
           + [RowOf(r3, 1, q), RowOf(r4, 1, q), RowOf(r5, 1, q), RowOf(r6, 2, q)]
           == [RowOf(r0, 0, p), RowOf(r1, 1, p), RowOf(r2, 1, p),
               RowOf(r3, 1, q), RowOf(r4, 1, q), RowOf(r5, 1, q), RowOf(r6, 2, q)];
  }

  /**
   * A run with numberOfEntries 0 (a file whose PixelCharge tree is empty)
   * still takes one event as written: the first event of the next file is
   * stamped with the empty run's parameters. The corrected flattening
   * stamps both events with the file they came from.
   */
  lemma EmptyRunTakesNextEvent(empty: InitialParameters, full: InitialParameters, a: Record, b: Record)
    requires empty.numberOfEntries == 0 && full.numberOfEntries == 2
    requires empty.particleType != full.particleType
    ensures FlattenAsWritten([[a], [b]], [empty, full]) == Success([RowOf(a, 0, empty), RowOf(b, 0, full)])
    ensures FlattenCorrected([[a], [b]], [empty, full]) == Success([RowOf(a, 0, full), RowOf(b, 1, full)])
    ensures RowOf(a, 0, empty) != RowOf(a, 0, full)
  {
    var events: seq<Event> := [[a], [b]];
    assert EventRows([a], 0, empty) == [RowOf(a, 0, empty)];
    assert EventRows([a], 0, full) == [RowOf(a, 0, full)];
    assert EventRows([b], 0, full) == [RowOf(b, 0, full)];
    assert EventRows([b], 1, full) == [RowOf(b, 1, full)];
    assert events[..1] == [[a]] && events[1..] == [[b]];
    assert [empty, full][1..] == [full];
    assert RunRows([[b]], full, 0) == [RowOf(b, 0, full)];
    assert RunRows([[b]], full, 1) == [RowOf(b, 1, full)];
    assert RunRows([[a]], empty, 0) == [RowOf(a, 0, empty)];
    assert RunRows(events, full, 0) == [RowOf(a, 0, full), RowOf(b, 1, full)];
    var spans := Spans([empty, full]);
    assert spans == [1, 2];
    assert ByRuns(events[1..], [full], [2], 0) == Success(RunRows([[b]], full, 0));
    var exact := ExactSpans([empty, full]);
    assert exact == [0, 2];
    assert events[..0] == [] && events[0..] == events;
    assert ByRuns(events, [full], [2], 0) == Success(RunRows(events, full, 0));
    assert ByRuns(events, [empty, full], spans, 0)
           == Prepend(RunRows([[a]], empty, 0), ByRuns(events[1..], [full], [2], 0));
    assert ByRuns(events, [empty, full], exact, 0)
           == Prepend(RunRows([], empty, 0), ByRuns(events, [full], [2], 0));
    assert [RowOf(a, 0, empty)] + [RowOf(b, 0, full)] == [RowOf(a, 0, empty), RowOf(b, 0, full)];
    assert [] + [RowOf(a, 0, full), RowOf(b, 1, full)] == [RowOf(a, 0, full), RowOf(b, 1, full)];
  }

  /**
   * The cursor loop of flattenPixelChargeTree (lines 159-197), with the
   * per-record inner loop. The unchecked initial_parameters[run_idx] read
   * becomes an explicit RunBoundaryOverflow.
   */
  method FlattenPixelChargeTree(events: seq<Event>, params: seq<InitialParameters>)
    returns (r: Result<seq<Row>, FlattenError>)
    ensures r == FlattenAsWritten(events, params)
  {
    ghost var spans := Spans(params);
    var rows: seq<Row> := [];
    var runIdx := 0;
    var runCounter := 0;
    var i := 0;
    assert events[0..] == events && params[0..] == params && spans[0..] == spans;
    PrependNothing(FlattenAsWritten(events, params));
    while i < |events|
      invariant 0 <= i <= |events|
      invariant runIdx <= |params|
      invariant runIdx < |params| ==> runCounter < spans[runIdx]
      invariant runIdx == |params| ==> runCounter == 0
      invariant Prepend(rows, ByRuns(events[i..], params[runIdx..], spans[runIdx..], runCounter))
                == FlattenAsWritten(events, params)
    {
      if runIdx >= |params| {
        return Failure(RunBoundaryOverflow);
      }
      var current := params[runIdx];
      ghost var before, idx, counter := rows, runIdx, runCounter;
      rows := FillEvent(rows, events[i], runCounter, current);
      runCounter := runCounter + 1;
      if runCounter >= current.numberOfEntries {
        runIdx := runIdx + 1;
        runCounter := 0;
      }
      CursorInvariantStep(events, params, i, idx, counter, before, runIdx, runCounter);
      i := i + 1;
    }
    assert rows + [] == rows;
    return Success(rows);
  }
}
