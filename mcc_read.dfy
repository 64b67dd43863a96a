/** The reader of src/proton/mcc/mcc-read.c: the parse context that
    `enumerate_mcc_scans` drives over the lines of a file (lines 235-431),
    the file handle with its map and table of scan positions (lines 9-16,
    433-475), and `get_scan` with its scan vector and typed lookups
    (lines 18-27, 477-611). The stream is the file's text; a position is an
    offset into it. */
module MccRead {
  import opened Wrappers
  import opened CText
  import opened MccStmt
  import opened MccTree
  import opened MccBuffer
  import opened MccLine
  import opened MccValidate

  /** The line buffer from the first character of an assignment on holds
      its key, the '=', its value and the terminator; `insert_mcc_kvpair`
      reads nothing else. Inserting from that text inserts the
      statement's pair. */
  lemma AssignText(key: string, value: string)
    requires NulFree(key) && NulFree(value)
    ensures |key| < |CString(key + ['='] + value + ['\0'], 0)|
    ensures NodeFor(key + ['='] + value + ['\0'], |key|) == Node(key, value, Null, Null)
  {
    var text := key + ['='] + value + ['\0'];
    var n := |key| + 1 + |value|;
    forall k | 0 <= k < n
      ensures NonNul(text[k])
    {
      if k < |key| {
        assert text[k] == key[k] && key[k] in key;
      } else if |key| < k {
        assert text[k] == value[k - |key| - 1] && value[k - |key| - 1] in value;
      }
    }
    SpanUnique(text, 0, n, NonNul);
    SpanUnique(text, |key| + 1, n, NonNul);
    assert text[..|key|] == key;
    assert text[|key| + 1..n] == value;
  }

  /** `fgetline_b` (mcc-read.c:211-233) then `classify_statement` on the
      `i`-th of the classified lines `ls` of `s`, which starts at `p`: its
      statement, where the next line starts, and whether it was the last. */
  method ReadStatement(s: string, p: nat, lb: GrowBuffer<char>, ghost ls: seq<Line>, ghost i: nat, allocOk: bool)
    returns (err: int, st: Stmt, next: nat, atEnd: bool)
    requires LinesOf(s, ls) && i < |ls| && ls[i].start == p && lb.Valid() && lb.Capacity() > 0
    modifies lb.Repr
    ensures lb.Valid() && fresh(lb.Repr - old(lb.Repr)) && lb.Capacity() > 0
    ensures p <= |s| && (err == 0 || err == 1) && (err != 0 ==> !allocOk)
    ensures err == 0 ==> st == ls[i].stmt && (atEnd <==> i + 1 == |ls|) && (!atEnd ==> ls[i + 1].start == next)
  {
    assert LineOf(s, ls, i);
    err, next, atEnd := FGetLine(s, p, lb, allocOk);
    st := ClassifyStatement(lb.Contents());
  }

  /** `struct mcc_parse_ctx` (mcc-read.c:242-250): the line buffer, the
      vector of scan positions, the file's map, and the scope reached. */
  class ParseContext {
    var lb: GrowBuffer<char>
    var fv: GrowBuffer<nat>
    var kv: MccMap
    var depth: int
    var lastScan: int
    ghost var Repr: set<object>

    ghost predicate Valid()
      reads this, Repr
    {
      this in Repr && lb in Repr && fv in Repr && kv in Repr &&
      lb.Repr <= Repr && fv.Repr <= Repr && lb.Repr !! fv.Repr &&
      this !in lb.Repr && this !in fv.Repr && kv !in lb.Repr && kv !in fv.Repr &&
      lb.Valid() && fv.Valid() && kv.Valid() && lb.Capacity() > 0 && fv.Capacity() > 0
    }

    /** The parse state the context holds. */
    ghost function State(): Parse
      reads this, Repr
      requires Valid()
    {
      Parse(Scope(depth, lastScan), fv.Contents(), kv.nodes)
    }

    /** `initialize_mcc_parse_context` (mcc-read.c:252-268) when both
        buffers are allocated: outside every scope, no scan seen, the
        file's map attached. */
    constructor (kv: MccMap)
      requires kv.Valid()
      ensures Valid() && fresh(Repr - {kv}) && this.kv == kv
      ensures State() == Initial(kv.nodes)
    {
      lb := new GrowBuffer<char>(64);
      fv := new GrowBuffer<nat>(64);
      this.kv := kv;
      depth := OutOfFile;
      lastScan := 0;
      new;
      Repr := {this, kv} + lb.Repr + fv.Repr;
    }

    /** The `do ... while (!feof)` loop of `enumerate_mcc_scans`
        (mcc-read.c:409-420) over the classified lines `ls` of `s`, the first
        of which starts at `p`, then `validate_exit_context`
        (mcc-read.c:421-424): the parse of those lines from the state held,
        unless an allocation fails. */
    method Run(s: string, p: nat, ghost ls: seq<Line>, allocOk: bool) returns (err: int)
      requires Valid() && LinesOf(s, ls) && AllWellFormed(ls) && |ls| > 0 && ls[0].start == p
      requires forall k :: 0 <= k < |State().starts| ==> State().starts[k] <= |s|
      modifies Repr
      ensures Valid() && fresh(Repr - old(Repr)) && kv == old(kv)
      ensures err == AllocFailed ==> !allocOk
      ensures err != AllocFailed ==> Stepped(err, State()) == RunFrom(ls, 0, old(State()))
      ensures forall k :: 0 <= k < |State().starts| ==> State().starts[k] <= |s|
    {
      var pos := p;
      ghost var i: nat := 0;
      while true
        invariant Valid() && fresh(Repr - old(Repr)) && kv == old(kv)
        invariant i < |ls| && ls[i].start == pos
        invariant forall k :: 0 <= k < |State().starts| ==> State().starts[k] <= |s|
        invariant RunFrom(ls, i, State()) == RunFrom(ls, 0, old(State()))
        decreases |ls| - i
      {
        var next, atEnd;
        err, next, atEnd := ParseLine(s, pos, ls, i, allocOk);
        if err != NoError {
          return;
        }
        if atEnd {
          break;
        }
        pos := next;
        i := i + 1;
      }
      err := ExitError(depth);
    }

    /** One pass of that loop (mcc-read.c:410-418): the `i`-th line is
        read, classified and validated. */
    method ParseLine(s: string, p: nat, ghost ls: seq<Line>, ghost i: nat, allocOk: bool)
      returns (err: int, next: nat, atEnd: bool)
      requires Valid() && LinesOf(s, ls) && AllWellFormed(ls) && i < |ls| && ls[i].start == p
      modifies Repr
      ensures Valid() && fresh(Repr - old(Repr)) && kv == old(kv) && p <= |s|
      ensures err == AllocFailed ==> !allocOk && State() == old(State())
      ensures err != AllocFailed ==> Stepped(err, State()) == Step(old(State()), ls[i].stmt, p)
      ensures err == NoError ==> (atEnd <==> i + 1 == |ls|) && (!atEnd ==> ls[i + 1].start == next)
    {
      var e, st;
      e, st, next, atEnd := ReadStatement(s, p, lb, ls, i, allocOk);
      Repr := Repr + lb.Repr;
      if e != 0 {
        return AllocFailed, next, atEnd;
      }
      err := ValidateStatement(st, p, allocOk);
    }

    /** `validate_assignment` (mcc-read.c:281-296): refused outside the
        file and inside data, inserted into the map at file depth, accepted
        without effect inside a scan. */
    method ValidateAssignment(key: string, value: string, allocOk: bool) returns (err: int)
      requires Valid() && NulFree(key) && NulFree(value)
      modifies kv
      ensures Valid() && Repr == old(Repr) && kv == old(kv)
      ensures err == AllocFailed ==> !allocOk && State() == old(State())
      ensures err != AllocFailed ==> Stepped(err, State()) == Step(old(State()), Assign(key, value), 0)
    {
      if depth == OutOfFile {
        return AssignOutOfFile;
      } else if depth == InData {
        return AssignInData;
      } else if depth == InFile {
        AssignText(key, value);
        var e := kv.Insert(key + ['='] + value + ['\0'], |key|, allocOk);
        if e != 0 {
          return AllocFailed;
        }
      }
      return NoError;
    }

    /** `validate_open_delim` (mcc-read.c:298-334): a scope opens one
        level deeper only from the scope just outside it; a scan must carry
        the index after the last one, and its line's position `pos` is
        recorded. */
    method ValidateOpenDelim(d: DelimType, index: Option<int>, pos: nat, allocOk: bool) returns (err: int)
      requires Valid() && (d == ScanDelim <==> index.Some?)
      modifies Repr
      ensures Valid() && fresh(Repr - old(Repr)) && kv == old(kv)
      ensures err == AllocFailed ==> !allocOk && State() == old(State())
      ensures err != AllocFailed ==> Stepped(err, State()) == Step(old(State()), DelimBegin(d, index), pos)
    {
      match d {
        case FileDelim =>
          if depth != OutOfFile {
            return UnexpectedFileScope;
          }
        case ScanDelim =>
          if depth != InFile {
            return UnexpectedScanScope;
          } else if lastScan != index.value - 1 {
            return ScanSkipped;
          } else {
            var e := fv.PushBack(pos, allocOk);
            Repr := Repr + fv.Repr;
            if e != 0 {
              return AllocFailed;
            }
            lastScan := index.value;
          }
        case DataDelim =>
          if depth != InScan {
            return UnexpectedDataScope;
          }
      }
      depth := depth + 1;
      return NoError;
    }

    /** `validate_close_delim` (mcc-read.c:336-361): a scope closes only
        from its own depth, and a scan only with the index of the last one
        opened. */
    method ValidateCloseDelim(d: DelimType, index: Option<int>) returns (err: int)
      requires Valid() && (d == ScanDelim <==> index.Some?)
      modifies this
      ensures Valid() && Repr == old(Repr) && kv == old(kv)
      ensures Stepped(err, State()) == Step(old(State()), DelimEnd(d, index), 0)
    {
      match d {
        case FileDelim =>
          if depth != InFile {
            return UnexpectedFileExit;
          }
        case ScanDelim =>
          if depth != InScan {
            return UnexpectedScanExit;
          } else if index.value != lastScan {
            return MismatchedScanExit;
          }
        case DataDelim =>
          if depth != InData {
            return UnexpectedDataExit;
          }
      }
      depth := depth - 1;
      return NoError;
    }

    /** `validate_statement` (mcc-read.c:372-390) for the statement `st` of
        the line at `pos`: the step of the parse, or an allocation failure
        that leaves the state as it was. */
    method ValidateStatement(st: Stmt, pos: nat, allocOk: bool) returns (err: int)
      requires Valid() && WellFormed(st)
      modifies Repr
      ensures Valid() && fresh(Repr - old(Repr)) && kv == old(kv)
      ensures err == AllocFailed ==> !allocOk && State() == old(State())
      ensures err != AllocFailed ==> Stepped(err, State()) == Step(old(State()), st, pos)
    {
      match st
      case Empty =>
        err := NoError;
      case Unclassifiable(_) =>
        err := UnclassifiableStmt;
      case Assign(key, value) =>
        err := ValidateAssignment(key, value, allocOk);
      case DelimBegin(d, index) =>
        err := ValidateOpenDelim(d, index, pos, allocOk);
      case DelimEnd(d, index) =>
        err := ValidateCloseDelim(d, index);
      case Data(_, _, _) =>
        err := if depth == InData then NoError else DataOutOfScope;
    }
  }

  /** One sample of a scan: `x`, `y` and the index of a data line. */
  datatype Sample = Sample(x: real, y: real, idx: int)

  /** What reading a scan from its `BEGIN_SCAN` line yields: the pairs
      assigned and the samples read up to its `END_SCAN`, or nothing when
      the file ends first (`get_scan` then reads empty lines forever). */
  datatype ScanOutcome = Collected(nodes: seq<Node>, samples: seq<Sample>) | Unterminated

  /** What `get_scan` answers: the scan, `NULL`, or, where the C loop would
      never end, a distinct answer. */
  datatype ScanResult = ScanReady | ScanFailed | ScanUnterminated

  /** The loop of `get_scan` (mcc-read.c:531-560) from the `i`-th line:
      every assignment goes into the map, every data statement is appended,
      and the first `END_SCAN` stops it. */
  function Collect(ls: seq<Line>, i: nat, nodes: seq<Node>, samples: seq<Sample>): ScanOutcome
    requires i <= |ls| && AllWellFormed(ls) && MapOk(nodes)
    decreases |ls| - i
  {
    if i == |ls| then Unterminated
    else
      var st := ls[i].stmt;
      var nodes' := if st.Assign? then MapInsert(nodes, st.key, st.value) else nodes;
      var samples' := if st.Data? then samples + [Sample(st.x, st.y, st.idx)] else samples;
      if st.DelimEnd? && st.dtype == ScanDelim then Collected(nodes', samples')
      else Collect(ls, i + 1, nodes', samples')
  }

  /** The scan read from offset `p` with an empty map. */
  function ScanAt(s: string, p: nat): ScanOutcome
    requires p <= |s|
  {
    ClassifyAllWellFormed(RawLines(s, p));
    Collect(Classify(RawLines(s, p)), 0, [], [])
  }

  /** The capacity `double_mcc_scanvector` moves to once corrected: twice
      the old one, and one when there was none. */
  function Grown(n: nat): (r: nat)
    ensures n < r
  {
    if n == 0 then 1 else 2 * n
  }

  /** The value of the first node holding `key`, if any. */
  ghost function ValueOf(nodes: seq<Node>, key: string): Option<string>
  {
    if exists i :: 0 <= i < |nodes| && nodes[i].key == key then
      var i :| 0 <= i < |nodes| && nodes[i].key == key;
      Some(nodes[i].value)
    else None
  }

  /** `struct _mccscan` (mcc-read.c:18-27): the scan's map and its data in
      three parallel arrays of `nData` entries. */
  class MccScan {
    var kv: MccMap
    var nData: nat
    var x: array<real>
    var y: array<real>
    var idx: array<int>
    ghost var Repr: set<object>

    ghost predicate Valid()
      reads this, Repr
    {
      this in Repr && kv in Repr && x in Repr && y in Repr && idx in Repr && x != y &&
      kv.Valid() && x.Length == nData && y.Length == nData && idx.Length == nData
    }

    /** The samples `get_scan_data` (mcc-read.c:613-622) hands out. */
    function Data(): seq<Sample>
      reads this, x, y, idx
      requires x.Length == nData && y.Length == nData && idx.Length == nData
    {
      Zip(x[..], y[..], idx[..])
    }

    /** `empty_scan` (mcc-read.c:29-64) when every allocation succeeds: an
        empty map and room for one sample. */
    constructor ()
      ensures Valid() && fresh(Repr) && kv.nodes == [] && nData == 1
    {
      kv := new MccMap();
      nData := 1;
      x := new real[1];
      y := new real[1];
      idx := new int[1];
      new;
      Repr := {this, kv, x, y, idx};
    }

    /** `double_mcc_scanvector` (mcc-read.c:481-506), corrected to move to
        `Grown(nData)`: every sample is kept and there is room for one more.
        Non-zero, with nothing changed, when the allocation fails. */
    method Grow(allocOk: bool) returns (err: int)
      requires Valid()
      modifies this
      ensures Valid() && fresh(Repr - old(Repr)) && kv == old(kv)
      ensures err == 0 <==> allocOk
      ensures nData == if allocOk then Grown(old(nData)) else old(nData)
      ensures forall k :: 0 <= k < old(nData) ==> x[k] == old(x[k]) && y[k] == old(y[k]) && idx[k] == old(idx[k])
    {
      if !allocOk {
        return 1;
      }
      var cap := Grown(nData);
      var nx := Resize(x, nData, cap);
      var ny := Resize(y, nData, cap);
      var ni := Resize(idx, nData, cap);
      x, y, idx, nData := nx, ny, ni, cap;
      Repr := Repr + {nx, ny, ni};
      return 0;
    }

    /** `shrink_mcc_scanvector` (mcc-read.c:508-514): `realloc` to exactly
        `count` entries, keeping the ones both sizes hold. */
    method Shrink(count: nat)
      requires Valid()
      modifies this
      ensures Valid() && fresh(Repr - old(Repr)) && kv == old(kv) && nData == count
      ensures forall k :: 0 <= k < count && k < old(nData) ==> x[k] == old(x[k]) && y[k] == old(y[k]) && idx[k] == old(idx[k])
    {
      var kept := if count < nData then count else nData;
      var nx := Resize(x, kept, count);
      var ny := Resize(y, kept, count);
      var ni := Resize(idx, kept, count);
      x, y, idx, nData := nx, ny, ni, count;
      Repr := Repr + {nx, ny, ni};
    }

    /** `clear_scan` (mcc-read.c:516-520): the map emptied and room for one
        sample. */
    method Clear()
      requires Valid()
      modifies this, kv
      ensures Valid() && fresh(Repr - old(Repr)) && kv == old(kv)
      ensures kv.nodes == [] && nData == 1
    {
      kv.Clear();
      Shrink(1);
    }

    /** What the loop of `get_scan` (mcc-read.c:531-555) does with the
        statement `st` when `count` samples are stored: an assignment goes
        into the map, a data statement is stored at `count` after the
        vector grows if it is full (a failed growth clears the scan), and
        anything else is ignored. Non-zero only when an allocation fails. */
    method Store(st: Stmt, count: nat, allocOk: bool) returns (err: int)
      requires Valid() && WellFormed(st) && count <= nData
      modifies Repr
      ensures Valid() && fresh(Repr - old(Repr)) && kv == old(kv)
      ensures err != 0 ==> !allocOk
      ensures err == 0 ==> old(nData) <= nData
      ensures err == 0 ==> kv.nodes == if st.Assign? then MapInsert(old(kv.nodes), st.key, st.value) else old(kv.nodes)
      ensures err == 0 ==> forall k :: 0 <= k < count ==> x[k] == old(x[k]) && y[k] == old(y[k]) && idx[k] == old(idx[k])
      ensures err == 0 && st.Data? ==> count < nData && x[count] == st.x && y[count] == st.y && idx[count] == st.idx
    {
      err := 0;
      if st.Assign? {
        AssignText(st.key, st.value);
        err := kv.Insert(st.key + ['='] + st.value + ['\0'], |st.key|, allocOk);
      } else if st.Data? {
        if count == nData {
          err := Grow(allocOk);
          if err != 0 {
            Clear();
            return;
          }
        }
        x[count] := st.x;
        y[count] := st.y;
        idx[count] := st.idx;
      }
    }

    /** `get_scan` (mcc-read.c:521-573) from the line at `p`, the first of
        the classified lines `ls`, with the map emptied: the scan those
        lines hold, read into this scan, unless an allocation fails. */
    method ReadScan(s: string, p: nat, ghost ls: seq<Line>, allocOk: bool) returns (r: ScanResult)
      requires Valid() && LinesOf(s, ls) && AllWellFormed(ls) && |ls| > 0 && ls[0].start == p && kv.nodes == []
      modifies Repr
      ensures Valid() && fresh(Repr - old(Repr)) && kv == old(kv)
      ensures r == ScanReady ==> Collect(ls, 0, [], []) == Collected(kv.nodes, Data())
      ensures r == ScanUnterminated ==> Collect(ls, 0, [], []) == Unterminated
      ensures r == ScanFailed ==> !allocOk
    {
      var count;
      ghost var samples;
      r, count, samples := ReadStatements(s, p, ls, allocOk);
      if r == ScanReady {
        Shrink(count);
        SamplesOf(x[..], y[..], idx[..], samples);
      }
    }

    /** One pass of the `get_scan` loop after the line is read
        (mcc-read.c:541-563): the statement `ls[i]` is stored, and the scan
        the lines hold from `i` on is the one they hold from `i + 1` with
        the map and samples now kept, or ends with it at `END_SCAN`. */
    method Keep(st: Stmt, ghost ls: seq<Line>, ghost i: nat, count: nat, ghost samples: seq<Sample>, allocOk: bool)
      returns (err: int, count': nat, ghost samples': seq<Sample>)
      requires Valid() && AllWellFormed(ls) && i < |ls| && st == ls[i].stmt
      requires count == |samples| <= nData
      requires forall k :: 0 <= k < count ==> Sample(x[k], y[k], idx[k]) == samples[k]
      modifies Repr
      ensures Valid() && fresh(Repr - old(Repr)) && kv == old(kv)
      ensures err != 0 ==> !allocOk
      ensures err == 0 ==> count' == |samples'| <= nData
      ensures err == 0 ==> forall k :: 0 <= k < count' ==> Sample(x[k], y[k], idx[k]) == samples'[k]
      ensures err == 0 ==>
        Collect(ls, i, old(kv.nodes), samples) ==
        (if st.DelimEnd? && st.dtype == ScanDelim then Collected(kv.nodes, samples')
         else Collect(ls, i + 1, kv.nodes, samples'))
    {
      err := Store(st, count, allocOk);
      count', samples' := count, samples;
      if err == 0 && st.Data? {
        samples' := samples + [Sample(st.x, st.y, st.idx)];
        count' := count + 1;
      }
    }

    /** The loop of `get_scan` (mcc-read.c:534-569): statements are read and
        stored until the first `END_SCAN`; the first `count` slots of the
        sample arrays then hold the samples collected. */
    method ReadStatements(s: string, p: nat, ghost ls: seq<Line>, allocOk: bool)
      returns (r: ScanResult, count: nat, ghost samples: seq<Sample>)
      requires Valid() && LinesOf(s, ls) && AllWellFormed(ls) && |ls| > 0 && ls[0].start == p && kv.nodes == []
      modifies Repr
      ensures Valid() && fresh(Repr - old(Repr)) && kv == old(kv)
      ensures r == ScanReady ==> count == |samples| <= nData
      ensures r == ScanReady ==> forall k :: 0 <= k < count ==> Sample(x[k], y[k], idx[k]) == samples[k]
      ensures r == ScanReady ==> Collect(ls, 0, [], []) == Collected(kv.nodes, samples)
      ensures r == ScanUnterminated ==> Collect(ls, 0, [], []) == Unterminated
      ensures r == ScanFailed ==> !allocOk
    {
      var lb := new GrowBuffer<char>(32);
      var pos := p;
      ghost var i: nat := 0;
      count := 0;
      samples := [];
      while true
        invariant Valid() && fresh(Repr - old(Repr)) && kv == old(kv)
        invariant lb.Valid() && fresh(lb.Repr) && lb.Capacity() > 0 && lb.Repr !! Repr
        invariant i < |ls| && ls[i].start == pos
        invariant count == |samples| <= nData
        invariant forall k :: 0 <= k < count ==> Sample(x[k], y[k], idx[k]) == samples[k]
        invariant Collect(ls, i, kv.nodes, samples) == Collect(ls, 0, [], [])
        decreases |ls| - i
      {
        var e, st, next, atEnd := ReadStatement(s, pos, lb, ls, i, allocOk);
        if e != 0 {
          return ScanFailed, count, samples;
        }
        e, count, samples := Keep(st, ls, i, count, samples, allocOk);
        if e != 0 {
          return ScanFailed, count, samples;
        }
        if st.DelimEnd? && st.dtype == ScanDelim {
          return ScanReady, count, samples;
        }
        if atEnd {
          return ScanUnterminated, count, samples;
        }
        pos := next;
        i := i + 1;
      }
    }

    /** `get_scan_double` (mcc-read.c:575-589): 1 when the key is absent
        (`prior` untouched), 2 when its value has no numeric prefix (`strtod`
        then yields 0), 0 with the number otherwise. */
    method GetDouble(key: string, prior: real) returns (code: int, val: real)
      requires Valid() && NulFree(key)
      ensures code == 1 <==> ValueOf(kv.nodes, key).None?
      ensures code == 1 ==> val == prior
      ensures code == 2 <==> ValueOf(kv.nodes, key).Some? && ParseDouble(ValueOf(kv.nodes, key).value, 0).None?
      ensures code == 2 ==> val == 0.0
      ensures code == 0 ==> ValueOf(kv.nodes, key).Some? && ParseDouble(ValueOf(kv.nodes, key).value, 0).Some?
      ensures code == 0 ==> val == ParseDouble(ValueOf(kv.nodes, key).value, 0).value.value
    {
      var s := kv.Lookup(key);
      if s.None? {
        return 1, prior;
      }
      var p := ParseDouble(s.value, 0);
      if p.None? {
        return 2, 0.0;
      }
      return 0, p.value.value;
    }

    /** `get_scan_integer` (mcc-read.c:591-605): as `GetDouble`, with a
        decimal integer. */
    method GetInteger(key: string, prior: int) returns (code: int, val: int)
      requires Valid() && NulFree(key)
      ensures code == 1 <==> ValueOf(kv.nodes, key).None?
      ensures code == 1 ==> val == prior
      ensures code == 2 <==> ValueOf(kv.nodes, key).Some? && ParseLong(ValueOf(kv.nodes, key).value, 0).None?
      ensures code == 2 ==> val == 0
      ensures code == 0 ==> ValueOf(kv.nodes, key).Some? && ParseLong(ValueOf(kv.nodes, key).value, 0).Some?
      ensures code == 0 ==> val == ParseLong(ValueOf(kv.nodes, key).value, 0).value.value
    {
      var s := kv.Lookup(key);
      if s.None? {
        return 1, prior;
      }
      var p := ParseLong(s.value, 0);
      if p.None? {
        return 2, 0;
      }
      return 0, p.value.value;
    }

    /** `get_scan_string` (mcc-read.c:607-611): the value, and 1 exactly
        when the key is absent. */
    method GetString(key: string) returns (code: int, val: Option<string>)
      requires Valid() && NulFree(key)
      ensures val == ValueOf(kv.nodes, key)
      ensures code == 1 <==> val.None?
      ensures code == 0 || code == 1
    {
      val := kv.Lookup(key);
      code := if val.None? then 1 else 0;
    }
  }

  /** `struct _mccfile` (mcc-read.c:9-16): the text of the file, its map,
      the start of each scan's `BEGIN_SCAN` line, and the scan last read. */
  class MccFile {
    const text: string
    var kv: MccMap
    var scanPos: seq<nat>
    var scan: MccScan

    ghost predicate Valid()
      reads this, kv, scan, scan.Repr
    {
      kv.Valid() && scan.Valid() && kv !in scan.Repr && this !in scan.Repr &&
      forall k :: 0 <= k < |scanPos| ==> scanPos[k] <= |text|
    }

    /** The allocations of `open_mcc_file` (mcc-read.c:433-458) when they
        succeed: an empty map and an empty scan. No scan is known yet. */
    constructor (text: string)
      ensures Valid() && fresh(kv) && fresh(scan) && fresh(scan.Repr)
      ensures this.text == text && kv.nodes == [] && scanPos == []
    {
      this.text := text;
      kv := new MccMap();
      scanPos := [];
      scan := new MccScan();
    }

    /** `enumerate_mcc_scans` (mcc-read.c:401-431) with its failure path
        corrected to report the error: the parse of the whole file, which
        fills the map and, when the file parses, the table of scan
        positions. `ctxOk` says whether the context's buffers are
        allocated. */
    method EnumerateScans(ctxOk: bool, allocOk: bool) returns (status: int)
      requires Valid()
      modifies this, kv
      ensures Valid() && kv == old(kv) && scan == old(scan)
      ensures !ctxOk ==> status == AllocFailed && kv.nodes == old(kv.nodes) && scanPos == old(scanPos)
      ensures status == AllocFailed ==> !ctxOk || !allocOk
      ensures status != AllocFailed ==>
        status == Enumerated(text, old(kv.nodes)).err && kv.nodes == Enumerated(text, old(kv.nodes)).parse.nodes
      ensures scanPos == if status == NoError then Enumerated(text, old(kv.nodes)).parse.starts else old(scanPos)
    {
      if !ctxOk {
        return AllocFailed;
      }
      var starts;
      status, starts := ParseText(text, kv, allocOk);
      if status == NoError {
        scanPos := starts;
      }
    }

    /** `get_scan` (mcc-read.c:522-561) for the scan numbered `n + 1`:
        the map of the scan is emptied, then the lines from that scan's
        `BEGIN_SCAN` are read until its `END_SCAN`. `bufferOk` says whether
        the line buffer is allocated. */
    method GetScan(n: nat, bufferOk: bool, allocOk: bool) returns (r: ScanResult)
      requires Valid() && n < |scanPos|
      modifies scan.Repr
      ensures Valid() && fresh(scan.Repr - old(scan.Repr))
      ensures r == ScanReady ==> ScanAt(text, scanPos[n]) == Collected(scan.kv.nodes, scan.Data())
      ensures r == ScanUnterminated ==> ScanAt(text, scanPos[n]) == Unterminated
      ensures r == ScanFailed ==> !bufferOk || !allocOk
      ensures !bufferOk ==> r == ScanFailed && scan.kv.nodes == []
    {
      scan.kv.Clear();
      if !bufferOk {
        return ScanFailed;
      }
      ClassifiedLines(text, scanPos[n]);
      r := scan.ReadScan(text, scanPos[n], Classify(RawLines(text, scanPos[n])), allocOk);
    }

    /** `enumerate_mcc_scans` as written: the failure label returns
        `MCC_PARSE_NO_ERROR` (mcc-read.c:428-430), so only a context that
        cannot be allocated is reported, whatever the parse found. */
    method EnumerateScansAsWritten(ctxOk: bool, allocOk: bool) returns (status: int)
      requires Valid()
      modifies this, kv
      ensures Valid() && kv == old(kv) && scan == old(scan)
      ensures status == if ctxOk then NoError else AllocFailed
      ensures ctxOk && allocOk ==>
        scanPos == if Enumerated(text, old(kv.nodes)).err == NoError then Enumerated(text, old(kv.nodes)).parse.starts else old(scanPos)
    {
      var parsed := EnumerateScans(ctxOk, allocOk);
      status := if ctxOk then NoError else AllocFailed;
    }
  }

  /** The body of `enumerate_mcc_scans` (mcc-read.c:405-427) on a context
      built over the map `kv`: the parse of the whole text and, when it
      succeeds, the scan positions the context collected, cut to size. */
  method ParseText(text: string, kv: MccMap, allocOk: bool) returns (status: int, starts: seq<nat>)
    requires kv.Valid()
    modifies kv
    ensures kv.Valid()
    ensures status == AllocFailed ==> !allocOk
    ensures status != AllocFailed ==>
      status == Enumerated(text, old(kv.nodes)).err && kv.nodes == Enumerated(text, old(kv.nodes)).parse.nodes
    ensures status == NoError ==> starts == Enumerated(text, old(kv.nodes)).parse.starts
    ensures forall k :: 0 <= k < |starts| ==> starts[k] <= |text|
  {
    var ctx := new ParseContext(kv);
    ClassifiedLines(text, 0);
    status := ctx.Run(text, 0, Classify(RawLines(text, 0)), allocOk);
    starts := [];
    if status == NoError {
      ctx.fv.Shrink();
      starts := ctx.fv.Contents();
    }
  }

  /** `open_mcc_file` (mcc-read.c:433-464) on a file whose text is `text`,
      with the failure path of `enumerate_mcc_scans` corrected: `fileOk`
      says whether `fopen` and the allocations succeed. The file is
      returned exactly when the whole text parses, with the map and the
      scan positions of that parse. */
  method OpenMccFile(text: string, fileOk: bool, ctxOk: bool, allocOk: bool) returns (f: MccFile?)
    ensures f != null ==> fresh(f) && fresh(f.kv) && fresh(f.scan.Repr) && f.Valid() && f.text == text
    ensures f != null ==> Enumerated(text, []).err == NoError
    ensures f != null ==> f.kv.nodes == Enumerated(text, []).parse.nodes && f.scanPos == Enumerated(text, []).parse.starts
    ensures fileOk && ctxOk && allocOk ==> (f != null <==> Enumerated(text, []).err == NoError)
  {
    if !fileOk {
      return null;
    }
    f := new MccFile(text);
    var status := f.EnumerateScans(ctxOk, allocOk);
    if status != NoError {
      f := null;
    }
  }

  /** A file holding only the line "?" does not parse: its one statement
      is unclassifiable. `EnumerateScansAsWritten` still reports success
      for it. */
  lemma UnclassifiableFileFails()
    ensures Enumerated("?", []).err == UnclassifiableStmt
  {
    assert ReadLine("?", 0) == LineRead("?", 1, true);
    assert "?" + ['\0'] == "?\0";
    assert RawLines("?", 0) == [RawLine(0, "?\0")];
    assert ClassifyStatement("?\0") == Unclassifiable("?");
  }

  /** Whether `get_scan` as written has room for sample `i` onwards, up to
      `count`, in a vector of `cap` entries that `double_mcc_scanvector`
      (mcc-read.c:481-506) doubles whenever it is full. */
  function RoomAsWritten(cap: nat, i: nat, count: nat): bool
    decreases count - i
  {
    if count <= i then true
    else
      var c := if i == cap then 2 * cap else cap;
      i < c && RoomAsWritten(c, i + 1, count)
  }

  /** The same with the corrected growth `Grown`. */
  function Room(cap: nat, i: nat, count: nat): bool
    decreases count - i
  {
    if count <= i then true
    else
      var c := if i == cap then Grown(cap) else cap;
      i < c && Room(c, i + 1, count)
  }

  /** As written, a vector left with no entries, which is what a scan
      without data lines leaves behind (`shrink_mcc_scanvector` to 0), has
      no room for the first sample of the next scan: doubling 0 gives 0 and
      `x[0]` is written out of bounds. */
  lemma EmptyScanLeavesNoRoom(count: nat)
    requires 0 < count
    ensures !RoomAsWritten(0, 0, count)
  {
  }

  /** As written, a vector with at least one entry always has room. */
  lemma {:induction false} RoomAsWrittenFromSome(cap: nat, i: nat, count: nat)
    requires 0 < cap && i <= cap
    ensures RoomAsWritten(cap, i, count)
    decreases count - i
  {
    if i < count {
      var c := if i == cap then 2 * cap else cap;
      RoomAsWrittenFromSome(c, i + 1, count);
    }
  }

  /** The corrected growth always has room, whatever the vector was left
      with. */
  lemma {:induction false} RoomAlways(cap: nat, i: nat, count: nat)
    requires i <= cap
    ensures Room(cap, i, count)
    decreases count - i
  {
    if i < count {
      var c := if i == cap then Grown(cap) else cap;
      RoomAlways(c, i + 1, count);
    }
  }

  /** Some line after offset `q` closes a scan. */
  ghost predicate ScanEndAfter(ls: seq<Line>, q: nat)
  {
    exists e :: 0 <= e < |ls| && q < ls[e].start && ls[e].stmt.DelimEnd? && ls[e].stmt.dtype == ScanDelim
  }

  /** Every recorded scan is closed later in the file, except the last one
      while the parse is still inside it. */
  ghost predicate ScansClosed(ls: seq<Line>, ps: Parse)
  {
    forall k :: 0 <= k < |ps.starts| && (k + 1 < |ps.starts| || ps.scope.depth < InScan) ==> ScanEndAfter(ls, ps.starts[k])
  }

  /** One step keeps the recorded scans closed: only an `END_SCAN` takes
      the parse out of a scan, and it closes the last scan opened. */
  lemma StepClosesScans(ls: seq<Line>, i: nat, ps: Parse)
    requires i < |ls| && AllWellFormed(ls) && MapOk(ps.nodes) && Consistent(ls, i, ps) && ScansClosed(ls, ps)
    ensures ScansClosed(ls, Step(ps, ls[i].stmt, ls[i].start).parse)
  {
    var st := ls[i].stmt;
    var t := Step(ps, st, ls[i].start);
    StepRecordsScan(ps, st, ls[i].start);
    if t.err == NoError && st.DelimEnd? && st.dtype == ScanDelim && 0 < |ps.starts| {
      assert ScanEndAfter(ls, ps.starts[|ps.starts| - 1]) by {
        assert ps.starts[|ps.starts| - 1] < ls[i].start;
      }
    }
  }

  /** A parse keeps the recorded scans closed. */
  lemma {:induction false} RunClosesScans(ls: seq<Line>, i: nat, ps: Parse)
    requires i < |ls| && AllWellFormed(ls) && MapOk(ps.nodes) && Consistent(ls, i, ps) && ScansClosed(ls, ps)
    requires forall j, k :: 0 <= j < k < |ls| ==> ls[j].start < ls[k].start
    ensures ScansClosed(ls, RunFrom(ls, i, ps).parse)
    decreases |ls| - i
  {
    StepClosesScans(ls, i, ps);
    StepRecordsScan(ps, ls[i].stmt, ls[i].start);
    var t := Step(ps, ls[i].stmt, ls[i].start);
    if t.err == NoError && i < |ls| - 1 {
      assert Consistent(ls, i + 1, t.parse) by {
        if t.parse.starts != ps.starts {
          assert ls[i] in ls;
        }
      }
      RunClosesScans(ls, i + 1, t.parse);
    }
  }

  /** Two sequences of classified lines of the same text that reach the
      same offset agree from there on: each line is the one read at its
      start. */
  lemma {:induction false} LinesAgree(s: string, ls: seq<Line>, ms: seq<Line>, j: nat, k: nat)
    requires LinesOf(s, ls) && LinesOf(s, ms) && k < |ls| && j + k < |ms| && ls[k].start == ms[j + k].start
    ensures |ls| - k == |ms| - j - k && ls[k..] == ms[j + k..]
    decreases |ls| - k
  {
    SameLine(s, ls, ms, k, j + k);
    if k + 1 < |ls| {
      LinesAgree(s, ls, ms, j, k + 1);
      assert ls[k..] == [ls[k]] + ls[k + 1..];
      assert ms[j + k..] == [ms[j + k]] + ms[j + k + 1..];
    }
  }

  /** A `realloc` of `a` to `cap` entries: a new array that keeps the
      first `n`. */
  method Resize<T(0)>(a: array<T>, n: nat, cap: nat) returns (b: array<T>)
    requires n <= a.Length && n <= cap
    ensures fresh(b) && b.Length == cap
    ensures forall k :: 0 <= k < n ==> b[k] == a[k]
  {
    b := new T[cap];
    forall k | 0 <= k < n {
      b[k] := a[k];
    }
  }

  /** The samples held column by column in the three vectors. */
  function Zip(xs: seq<real>, ys: seq<real>, ns: seq<int>): (r: seq<Sample>)
    requires |xs| == |ys| == |ns|
    ensures |r| == |xs| && forall k :: 0 <= k < |r| ==> r[k] == Sample(xs[k], ys[k], ns[k])
  {
    seq(|xs|, k requires 0 <= k < |xs| => Sample(xs[k], ys[k], ns[k]))
  }

  /** Vectors that hold the samples entry by entry hold exactly them. */
  lemma SamplesOf(xs: seq<real>, ys: seq<real>, ns: seq<int>, samples: seq<Sample>)
    requires |xs| == |ys| == |ns| == |samples|
    requires forall k :: 0 <= k < |samples| ==> Sample(xs[k], ys[k], ns[k]) == samples[k]
    ensures Zip(xs, ys, ns) == samples
  {
  }

  /** Two classified lines of the same text with the same start are the
      same line, and both are last or both are followed by lines with the
      same start. */
  lemma SameLine(s: string, ls: seq<Line>, ms: seq<Line>, a: nat, b: nat)
    requires LinesOf(s, ls) && LinesOf(s, ms) && a < |ls| && b < |ms| && ls[a].start == ms[b].start
    ensures ls[a] == ms[b] && (a + 1 == |ls| <==> b + 1 == |ms|)
    ensures a + 1 < |ls| ==> ls[a + 1].start == ms[b + 1].start
  {
    assert LineOf(s, ls, a) && LineOf(s, ms, b);
  }

  /** Reading lines until an `END_SCAN` stops at the first one. */
  lemma {:induction false} CollectEnds(ls: seq<Line>, i: nat, nodes: seq<Node>, samples: seq<Sample>, e: nat)
    requires i <= e < |ls| && AllWellFormed(ls) && MapOk(nodes)
    requires ls[e].stmt.DelimEnd? && ls[e].stmt.dtype == ScanDelim
    ensures Collect(ls, i, nodes, samples).Collected?
    decreases e - i
  {
    var st := ls[i].stmt;
    if !(st.DelimEnd? && st.dtype == ScanDelim) {
      var nodes' := if st.Assign? then MapInsert(nodes, st.key, st.value) else nodes;
      var samples' := if st.Data? then samples + [Sample(st.x, st.y, st.idx)] else samples;
      CollectEnds(ls, i + 1, nodes', samples', e);
    }
  }

  /** Lines that run on to a line closing a scan stop there. */
  lemma SuffixEnds(ls: seq<Line>, ms: seq<Line>, j: nat, e: nat)
    requires AllWellFormed(ls) && j < e < |ms| && ls == ms[j..]
    requires ms[e].stmt.DelimEnd? && ms[e].stmt.dtype == ScanDelim
    ensures Collect(ls, 0, [], []).Collected?
  {
    assert ls[e - j] == ms[e];
    CollectEnds(ls, 0, [], [], e - j);
  }

  /** A line of the file that a later `END_SCAN` follows starts a scan
      that `get_scan` reads to that end. */
  lemma ClosedScanReads(s: string, ls: seq<Line>, j: nat, e: nat)
    requires LinesOf(s, ls) && AllWellFormed(ls) && j < e < |ls|
    requires ls[e].stmt.DelimEnd? && ls[e].stmt.dtype == ScanDelim
    ensures ls[j].start <= |s| && ScanAt(s, ls[j].start).Collected?
  {
    var q := ls[j].start;
    assert LineOf(s, ls, j);
    ClassifiedLines(s, q);
    LinesAgree(s, Classify(RawLines(s, q)), ls, j, 0);
    SuffixEnds(Classify(RawLines(s, q)), ls, j, e);
  }

  /** `get_scan` ends for every scan of a file that parses: each recorded
      position starts a `BEGIN_SCAN` line that a later `END_SCAN` closes,
      so the scan is read to its end rather than past the end of the
      file. */
  lemma EnumeratedScansEnd(s: string, nodes: seq<Node>)
    requires MapOk(nodes) && Enumerated(s, nodes).err == NoError
    ensures forall k :: 0 <= k < |Enumerated(s, nodes).parse.starts| ==>
      Enumerated(s, nodes).parse.starts[k] <= |s| && ScanAt(s, Enumerated(s, nodes).parse.starts[k]).Collected?
  {
    var raw := RawLines(s, 0);
    var ls := Classify(raw);
    RawLinesStarts(s, 0);
    ClassifyAllWellFormed(raw);
    ClassifiedLines(s, 0);
    EnumeratedScans(s, nodes);
    RunClosesScans(ls, 0, Initial(nodes));
    var starts := Enumerated(s, nodes).parse.starts;
    forall k | 0 <= k < |starts|
      ensures starts[k] <= |s| && ScanAt(s, starts[k]).Collected?
    {
      assert ScanEndAfter(ls, starts[k]);
      var e :| 0 <= e < |ls| && starts[k] < ls[e].start && ls[e].stmt.DelimEnd? && ls[e].stmt.dtype == ScanDelim;
      assert Line(starts[k], DelimBegin(ScanDelim, Some(k + 1))) in ls;
      var j :| 0 <= j < |ls| && ls[j] == Line(starts[k], DelimBegin(ScanDelim, Some(k + 1)));
      assert j < e;
      ClosedScanReads(s, ls, j, e);
    }
  }
}
