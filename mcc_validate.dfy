/** The scope validator of the scan-indexing MCC reader
    (src/proton/mcc/mcc-read.c:234-399). Every line of the file is classified
    and checked against the current nesting depth (outside the file, in the
    file, in a scan, in a data block) and the index of the last scan opened;
    the start of every accepted `BEGIN_SCAN` line is recorded, and the
    assignments at file depth go into the file's map. */
module MccValidate {
  import opened Wrappers
  import opened CText
  import opened MccStmt
  import opened MccTree
  import opened MccBuffer
  import opened MccLine

  /** The parse errors (mcc-stmt.h:58-74). */
  const AllocFailed: int := -1
  const NoError: int := 0
  const UnclassifiableStmt: int := 1
  const AssignOutOfFile: int := 2
  const AssignInData: int := 3
  const UnexpectedFileScope: int := 4
  const UnexpectedScanScope: int := 5
  const ScanSkipped: int := 6
  const UnexpectedDataScope: int := 7
  const UnexpectedFileExit: int := 8
  const UnexpectedScanExit: int := 9
  const MismatchedScanExit: int := 10
  const UnexpectedDataExit: int := 11
  const DataOutOfScope: int := 12
  const ScopeOnExit: int := 13

  /** The depths (mcc-read.c:234-239). */
  const OutOfFile: int := 0
  const InFile: int := 1
  const InScan: int := 2
  const InData: int := 3

  /** `ctx->depth` and `ctx->last_scan`. */
  datatype Scope = Scope(depth: int, lastScan: int)

  /** What a `validate_*` function returns, and the scope it leaves. */
  datatype Verdict = Verdict(err: int, scope: Scope)

  /** The depth from which a delimiter of type `d` opens its block, and at
      which its closing delimiter is expected minus one. */
  function Outer(d: DelimType): int
  {
    match d
    case FileDelim => OutOfFile
    case ScanDelim => InFile
    case DataDelim => InScan
  }

  /** The index the source reads from a delimiter statement; only scan
      delimiters carry one and only theirs is read. */
  function IndexOf(index: Option<int>): int
  {
    if index.Some? then index.value else 0
  }

  /** `validate_assignment` (mcc-read.c:281-296) apart from the insertion:
      an assignment is refused outside the file and inside a data block. */
  function AssignmentError(depth: int): (err: int)
    ensures err == NoError <==> depth != OutOfFile && depth != InData
  {
    if depth == OutOfFile then AssignOutOfFile
    else if depth == InData then AssignInData
    else NoError
  }

  /** `validate_open_delim` (mcc-read.c:298-332). */
  function ValidateOpen(sc: Scope, d: DelimType, idx: int): (v: Verdict)
    ensures v.err == NoError <==> sc.depth == Outer(d) && (d == ScanDelim ==> idx == sc.lastScan + 1)
    ensures v.err == NoError ==> v.scope.depth == sc.depth + 1
    ensures v.err == NoError ==> v.scope.lastScan == if d == ScanDelim then idx else sc.lastScan
    ensures v.err != NoError ==> v.scope == sc
    ensures v.err != NoError && sc.depth == Outer(d) ==> d == ScanDelim && v.err == ScanSkipped
  {
    match d
    case FileDelim =>
      if sc.depth != OutOfFile then Verdict(UnexpectedFileScope, sc)
      else Verdict(NoError, sc.(depth := sc.depth + 1))
    case ScanDelim =>
      if sc.depth != InFile then Verdict(UnexpectedScanScope, sc)
      else if sc.lastScan != idx - 1 then Verdict(ScanSkipped, sc)
      else Verdict(NoError, Scope(sc.depth + 1, idx))
    case DataDelim =>
      if sc.depth != InScan then Verdict(UnexpectedDataScope, sc)
      else Verdict(NoError, sc.(depth := sc.depth + 1))
  }

  /** `validate_close_delim` (mcc-read.c:334-361). */
  function ValidateClose(sc: Scope, d: DelimType, idx: int): (v: Verdict)
    ensures v.err == NoError <==> sc.depth == Outer(d) + 1 && (d == ScanDelim ==> idx == sc.lastScan)
    ensures v.err == NoError ==> v.scope == sc.(depth := sc.depth - 1)
    ensures v.err != NoError ==> v.scope == sc
    ensures v.err != NoError && sc.depth == Outer(d) + 1 ==> d == ScanDelim && v.err == MismatchedScanExit
  {
    match d
    case FileDelim =>
      if sc.depth != InFile then Verdict(UnexpectedFileExit, sc)
      else Verdict(NoError, sc.(depth := sc.depth - 1))
    case ScanDelim =>
      if sc.depth != InScan then Verdict(UnexpectedScanExit, sc)
      else if idx != sc.lastScan then Verdict(MismatchedScanExit, sc)
      else Verdict(NoError, sc.(depth := sc.depth - 1))
    case DataDelim =>
      if sc.depth != InData then Verdict(UnexpectedDataExit, sc)
      else Verdict(NoError, sc.(depth := sc.depth - 1))
  }

  /** `validate_data` (mcc-read.c:363-370). */
  function DataError(depth: int): (err: int)
    ensures err == NoError <==> depth == InData
  {
    if depth != InData then DataOutOfScope else NoError
  }

  /** `validate_exit_context` (mcc-read.c:391-399). */
  function ExitError(depth: int): (err: int)
    ensures err == NoError <==> depth == OutOfFile
  {
    if depth != OutOfFile then ScopeOnExit else NoError
  }

  /** `validate_statement` (mcc-read.c:372-389), with every allocation
      succeeding. */
  function Validate(sc: Scope, st: Stmt): (v: Verdict)
    // empty lines are always valid and change nothing
    ensures st.Empty? ==> v == Verdict(NoError, sc)
    ensures st.Unclassifiable? ==> v == Verdict(UnclassifiableStmt, sc)
    // statements that are not delimiters never change the scope
    ensures !st.DelimBegin? && !st.DelimEnd? ==> v.scope == sc
    ensures st.Data? ==> (v.err == NoError <==> sc.depth == InData)
    ensures st.Assign? ==> (v.err == NoError <==> sc.depth != OutOfFile && sc.depth != InData)
    // the depth moves by one at most, and stays within the four scopes
    ensures OutOfFile <= sc.depth <= InData ==> OutOfFile <= v.scope.depth <= InData
    ensures v.scope.depth == sc.depth || v.scope.depth == sc.depth + 1 || v.scope.depth == sc.depth - 1
  {
    match st
    case Empty => Verdict(NoError, sc)
    case Unclassifiable(_) => Verdict(UnclassifiableStmt, sc)
    case Assign(_, _) => Verdict(AssignmentError(sc.depth), sc)
    case DelimBegin(d, index) => ValidateOpen(sc, d, IndexOf(index))
    case DelimEnd(d, index) => ValidateClose(sc, d, IndexOf(index))
    case Data(_, _, _) => Verdict(DataError(sc.depth), sc)
  }

  /** A map arena the tree operations accept. */
  predicate MapOk(nodes: seq<Node>)
  {
    Searchable(nodes) && forall i :: 0 <= i < |nodes| ==> NulFree(nodes[i].key)
  }

  /** `insert_mcc_kvpair` on the arena, with the allocation succeeding: the
      key is found afterwards, and a key already present changes nothing. */
  function MapInsert(nodes: seq<Node>, key: string, value: string): (r: seq<Node>)
    requires MapOk(nodes) && NulFree(key)
    ensures MapOk(r) && InsertPlace(r, key).Found?
    ensures InsertPlace(nodes, key).Found? ==> r == nodes
    ensures InsertPlace(nodes, key).Vacant? ==> |r| == |nodes| + 1 && r[|nodes|] == Node(key, value, Null, Null)
  {
    var p := InsertPlace(nodes, key);
    if p.Found? then nodes
    else
      AttachSearchable(nodes, key, value);
      Attach(nodes, p.parent, p.right, Node(key, value, Null, Null))
  }

  /** The state the parse carries from line to line: the scope, the
      positions of the scans opened so far, and the file's map. */
  datatype Parse = Parse(scope: Scope, starts: seq<nat>, nodes: seq<Node>)

  /** The outcome of a step or of a whole parse. */
  datatype Stepped = Stepped(err: int, parse: Parse)

  /** One line starting at offset `pos` whose statement is `st`: it is
      validated; when it is accepted, an opened scan records `pos` and an
      assignment at file depth goes into the map. A refused line leaves the
      state as it was. */
  function Step(ps: Parse, st: Stmt, pos: nat): (r: Stepped)
    requires MapOk(ps.nodes) && WellFormed(st)
    ensures MapOk(r.parse.nodes)
    ensures r.err == Validate(ps.scope, st).err
    ensures r.err != NoError ==> r.parse == ps
    ensures r.err == NoError ==> r.parse.scope == Validate(ps.scope, st).scope
    ensures r.parse.starts == if r.err == NoError && st.DelimBegin? && st.dtype == ScanDelim then ps.starts + [pos] else ps.starts
    ensures !(r.err == NoError && st.Assign? && ps.scope.depth == InFile) ==> r.parse.nodes == ps.nodes
  {
    var v := Validate(ps.scope, st);
    if v.err != NoError then Stepped(v.err, ps)
    else
      Stepped(NoError, Parse(v.scope,
        if st.DelimBegin? && st.dtype == ScanDelim then ps.starts + [pos] else ps.starts,
        if st.Assign? && ps.scope.depth == InFile then MapInsert(ps.nodes, st.key, st.value) else ps.nodes))
  }

  /** What the classifier guarantees and the validator relies on: an
      assignment's key and value hold no terminator, and exactly the scan
      delimiters carry an index. */
  predicate WellFormed(st: Stmt)
  {
    (st.Assign? ==> NulFree(st.key) && NulFree(st.value)) &&
    (st.DelimBegin? || st.DelimEnd? ==> (st.dtype == ScanDelim <==> st.index.Some?))
  }

  lemma ClassifyWellFormed(line: string)
    ensures WellFormed(ClassifyStatement(line))
  {
    ClassifyStatementShape(line);
    var st := ClassifyStatement(line);
    if st.Assign? {
      forall c | c in st.key
        ensures c != '\0'
      {
        var k :| 0 <= k < |st.key| && st.key[k] == c;
      }
    }
  }

  /** A line of the file as `fgetline_b` leaves it in the line buffer: where
      it starts, and its characters with the terminator. */
  datatype RawLine = RawLine(start: nat, text: string)

  /** The lines read from offset `p` up to and including the one that hits
      the end of the file. */
  function RawLines(s: string, p: nat): (ls: seq<RawLine>)
    requires p <= |s|
    ensures |ls| > 0 && ls[0] == RawLine(p, ReadLine(s, p).chars + ['\0'])
    decreases |s| - p
  {
    var ln := ReadLine(s, p);
    [RawLine(p, ln.chars + ['\0'])] + if ln.eof then [] else RawLines(s, ln.next)
  }

  /** The starts of the lines increase from `p`. */
  lemma {:induction false} RawLinesStarts(s: string, p: nat)
    requires p <= |s|
    ensures forall i :: 0 <= i < |RawLines(s, p)| ==> p <= RawLines(s, p)[i].start <= |s|
    ensures forall i, j :: 0 <= i < j < |RawLines(s, p)| ==> RawLines(s, p)[i].start < RawLines(s, p)[j].start
    decreases |s| - p
  {
    var ln := ReadLine(s, p);
    if !ln.eof {
      var ls := RawLines(s, p);
      var rest := RawLines(s, ln.next);
      assert ls == [ls[0]] + rest;
      RawLinesStarts(s, ln.next);
      assert forall i :: 0 < i < |ls| ==> ls[i] == rest[i - 1];
    }
  }

  /** Each line is the one read at its start, the next line starts where
      that read leaves the stream, and the last is the one that hits the end
      of the file. */
  lemma {:induction false} RawLinesRead(s: string, p: nat)
    requires p <= |s|
    ensures forall i :: 0 <= i < |RawLines(s, p)| ==> LineAt(s, RawLines(s, p), i)
    decreases |s| - p
  {
    var ln := ReadLine(s, p);
    var ls := RawLines(s, p);
    if !ln.eof {
      var rest := RawLines(s, ln.next);
      assert ls == [ls[0]] + rest;
      RawLinesRead(s, ln.next);
      forall i | 0 < i < |ls|
        ensures LineAt(s, ls, i)
      {
        assert ls[i] == rest[i - 1];
        assert LineAt(s, rest, i - 1);
      }
    }
  }

  /** The `i`-th line is the line read at its start, followed by the line
      read where that one ends, or the last when it hits the end. */
  ghost predicate LineAt(s: string, ls: seq<RawLine>, i: nat)
    requires i < |ls|
  {
    var q := ls[i].start;
    q <= |s| && ls[i].text == ReadLine(s, q).chars + ['\0'] &&
    (i + 1 == |ls| <==> ReadLine(s, q).eof) &&
    (i + 1 < |ls| ==> ls[i + 1].start == ReadLine(s, q).next)
  }

  /** A line of the file and its statement. */
  datatype Line = Line(start: nat, stmt: Stmt)

  /** The classified lines. */
  function Classify(raw: seq<RawLine>): (ls: seq<Line>)
    ensures |ls| == |raw| && forall i :: 0 <= i < |ls| ==> ls[i].start == raw[i].start
  {
    seq(|raw|, i requires 0 <= i < |raw| => Line(raw[i].start, ClassifyStatement(raw[i].text)))
  }

  /** The `i`-th of the classified lines `ls` of `s` is the statement of
      the line read at its start; the next starts where that read stops, and
      the last is the one that reaches the end of `s`. */
  ghost predicate LineOf(s: string, ls: seq<Line>, i: nat)
    requires i < |ls|
  {
    var q := ls[i].start;
    q <= |s| && ls[i].stmt == ClassifyStatement(ReadLine(s, q).chars + ['\0']) &&
    (i + 1 == |ls| <==> ReadLine(s, q).eof) &&
    (i + 1 < |ls| ==> ls[i + 1].start == ReadLine(s, q).next)
  }

  /** Every line of `ls` is a classified line of `s`. */
  ghost predicate LinesOf(s: string, ls: seq<Line>)
  {
    forall i :: 0 <= i < |ls| ==> LineOf(s, ls, i)
  }

  /** The classified lines read from `p` are lines of `s`, the first
      starting at `p`, and each statement is well formed. */
  lemma ClassifiedLines(s: string, p: nat)
    requires p <= |s|
    ensures |Classify(RawLines(s, p))| > 0 && Classify(RawLines(s, p))[0].start == p
    ensures AllWellFormed(Classify(RawLines(s, p))) && LinesOf(s, Classify(RawLines(s, p)))
  {
    var raw := RawLines(s, p);
    var ls := Classify(raw);
    RawLinesRead(s, p);
    ClassifyAllWellFormed(raw);
    forall i | 0 <= i < |ls|
      ensures LineOf(s, ls, i)
    {
      assert LineAt(s, raw, i);
    }
  }

  /** Every statement of a sequence of lines is well formed. */
  predicate AllWellFormed(ls: seq<Line>)
  {
    forall i :: 0 <= i < |ls| ==> WellFormed(ls[i].stmt)
  }

  /** The `do ... while (!feof)` loop of `enumerate_mcc_scans`
      (mcc-read.c:409-420) from the `i`-th line, then `validate_exit_context`
      (mcc-read.c:421-424): the first error stops the parse with the state it
      had. */
  function RunFrom(ls: seq<Line>, i: nat, ps: Parse): Stepped
    requires i < |ls| && AllWellFormed(ls) && MapOk(ps.nodes)
    decreases |ls| - i
  {
    var t := Step(ps, ls[i].stmt, ls[i].start);
    if t.err != NoError then t
    else if i == |ls| - 1 then Stepped(ExitError(t.parse.scope.depth), t.parse)
    else RunFrom(ls, i + 1, t.parse)
  }

  /** The state a parse starts from, with the file's map. */
  function Initial(nodes: seq<Node>): Parse
  {
    Parse(Scope(OutOfFile, 0), [], nodes)
  }

  /** The parse of a whole file, every allocation succeeding. */
  function Enumerated(s: string, nodes: seq<Node>): Stepped
    requires MapOk(nodes)
  {
    ClassifyAllWellFormed(RawLines(s, 0));
    RunFrom(Classify(RawLines(s, 0)), 0, Initial(nodes))
  }

  lemma ClassifyAllWellFormed(raw: seq<RawLine>)
    ensures AllWellFormed(Classify(raw))
  {
    var ls := Classify(raw);
    forall i | 0 <= i < |ls|
      ensures WellFormed(ls[i].stmt)
    {
      ClassifyWellFormed(raw[i].text);
    }
  }

  /** Every recorded position starts the line `BEGIN_SCAN k` of the scan
      it numbers. */
  ghost predicate ScanTable(ls: seq<Line>, starts: seq<nat>)
  {
    forall k :: 0 <= k < |starts| ==> Line(starts[k], DelimBegin(ScanDelim, Some(k + 1))) in ls
  }

  /** What the parse keeps true from line to line, before line `i`. */
  ghost predicate Consistent(ls: seq<Line>, i: nat, ps: Parse)
    requires i < |ls|
  {
    OutOfFile <= ps.scope.depth <= InData && |ps.starts| == ps.scope.lastScan && ScanTable(ls, ps.starts) &&
    (forall k :: 0 <= k < |ps.starts| ==> ps.starts[k] < ls[i].start) &&
    forall j, k :: 0 <= j < k < |ps.starts| ==> ps.starts[j] < ps.starts[k]
  }

  /** One accepted statement keeps the count of recorded scans equal to the
      index of the last one opened: a position is recorded only for an
      accepted `BEGIN_SCAN` carrying the index after the last. */
  lemma StepRecordsScan(ps: Parse, st: Stmt, p: nat)
    requires MapOk(ps.nodes) && WellFormed(st)
    requires OutOfFile <= ps.scope.depth <= InData && |ps.starts| == ps.scope.lastScan
    ensures var t := Step(ps, st, p);
      OutOfFile <= t.parse.scope.depth <= InData && |t.parse.starts| == t.parse.scope.lastScan &&
      (t.parse.starts == ps.starts || (t.parse.starts == ps.starts + [p] && st == DelimBegin(ScanDelim, Some(|ps.starts| + 1))))
  {
  }

  /** A parse from a consistent state ends consistent: the number of
      recorded scans is the index of the last scan opened, every recorded
      position starts the `BEGIN_SCAN` line of its scan, in increasing order,
      and a parse without error ends outside the file (mcc-read.c:275-279,
      307-321, 391-399). */
  lemma {:induction false} RunRecordsScans(ls: seq<Line>, i: nat, ps: Parse)
    requires i < |ls| && AllWellFormed(ls) && MapOk(ps.nodes) && Consistent(ls, i, ps)
    requires forall j, k :: 0 <= j < k < |ls| ==> ls[j].start < ls[k].start
    ensures var r := RunFrom(ls, i, ps);
      OutOfFile <= r.parse.scope.depth <= InData && |r.parse.starts| == r.parse.scope.lastScan && ScanTable(ls, r.parse.starts)
    ensures var r := RunFrom(ls, i, ps);
      forall j, k :: 0 <= j < k < |r.parse.starts| ==> r.parse.starts[j] < r.parse.starts[k]
    ensures RunFrom(ls, i, ps).err == NoError ==> RunFrom(ls, i, ps).parse.scope.depth == OutOfFile
    decreases |ls| - i
  {
    StepRecordsScan(ps, ls[i].stmt, ls[i].start);
    var t := Step(ps, ls[i].stmt, ls[i].start);
    if t.err == NoError && i < |ls| - 1 {
      assert Consistent(ls, i + 1, t.parse) by {
        if t.parse.starts != ps.starts {
          assert ls[i] in ls;
        }
      }
      RunRecordsScans(ls, i + 1, t.parse);
    }
  }

  /** The `j`-th classified line of a file is the statement of the line read
      at its start. */
  lemma ClassifiedLine(s: string, j: nat, q: nat, st: Stmt)
    requires j < |RawLines(s, 0)| && Classify(RawLines(s, 0))[j] == Line(q, st)
    ensures q <= |s| && ClassifyStatement(ReadLine(s, q).chars + ['\0']) == st
  {
    RawLinesRead(s, 0);
    assert LineAt(s, RawLines(s, 0), j);
  }

  /** `enumerate_mcc_scans` records, for scan `k`, the start of a line of
      the file that reads `BEGIN_SCAN k`; the scans are numbered from 1
      without gaps, their positions increase, and a file that parses ends
      outside every scope. */
  lemma EnumeratedScans(s: string, nodes: seq<Node>)
    requires MapOk(nodes)
    ensures var r := Enumerated(s, nodes);
      |r.parse.starts| == r.parse.scope.lastScan && ScanTable(Classify(RawLines(s, 0)), r.parse.starts)
    ensures var r := Enumerated(s, nodes);
      forall j, k :: 0 <= j < k < |r.parse.starts| ==> r.parse.starts[j] < r.parse.starts[k]
    ensures Enumerated(s, nodes).err == NoError ==> Enumerated(s, nodes).parse.scope.depth == OutOfFile
  {
    var raw := RawLines(s, 0);
    RawLinesStarts(s, 0);
    ClassifyAllWellFormed(raw);
    RunRecordsScans(Classify(raw), 0, Initial(nodes));
  }
}
