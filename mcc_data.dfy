/** The single-pass MCC loader of src/proton/mcc-data.c (lines 63-117 and
    308-584): the parse context and its scope machine, the growable scan
    vector and sample arrays, trimming, sorting, the dose integral, the
    binary searches and the creation entry points. Input is the sequence of
    lines `fgets` returns; every `longjmp` becomes an error code returned up
    the call chain. Whether an allocation succeeds is a parameter. */
module MccDataLoad {
  import opened Wrappers
  import opened CText
  import opened MccDataLex
  import opened MccDataScan

  const ScopeOutOfFile: nat := 0
  const ScopeFile: nat := 1
  const ScopeScan: nat := 2
  const ScopeData: nat := 3

  const OffaxisKey: string := "SCAN_OFFAXIS_INPLANE"
  const CrosscalKey: string := "CROSS_CALIBRATION"

  /** `struct mcc_parse_context`, less the statement being handled. */
  datatype Ctx = Ctx(scope: nat, offaxis: real, crosscal: real, offaxisFound: bool, crosscalFound: bool)

  /** The context `mcc_data_load_nodes` starts from. The C leaves the two
      values uninitialised; they are read only once their flag is set. */
  const InitialCtx: Ctx := Ctx(ScopeOutOfFile, 0.0, 0.0, false, false)

  /** The scan vector of `MCCData`: `sz` scans in an allocation of `_cap`. */
  datatype Store = Store(scans: seq<Scan>, cap: nat)

  /** The vector `mcc_data_alloc` starts from (`calloc` with
      `INIT_SCANCAP`). */
  const InitialStore: Store := Store([], InitScanCap)

  /** Everything the loader has built so far. */
  datatype Load = Load(ctx: Ctx, store: Store)

  /** A step either goes on from a new state or stops with an error code. */
  datatype Outcome = Going(state: Load) | Failed(err: int)

  /** The outcome a method reports: its error code, or on success its new
      state. */
  function Result(err: int, st: Load): Outcome
  {
    if err == ErrNone then Going(st) else Failed(err)
  }

  /** Every allocation has room for what it holds, and none is empty, so
      doubling makes room. */
  ghost predicate Growable(s: Store)
  {
    0 < s.cap && |s.scans| <= s.cap &&
    forall k :: 0 <= k < |s.scans| ==> 0 < s.scans[k].cap && |s.scans[k].data| <= s.scans[k].cap
  }

  /** What holds of every state the loader reaches: the scope is one of
      the four, and inside a data block both scan attributes are known and
      there is a scan to append to. */
  ghost predicate Inv(st: Load)
  {
    st.ctx.scope <= ScopeData &&
    (st.ctx.scope == ScopeData ==>
      st.ctx.offaxisFound && st.ctx.crosscalFound && |st.store.scans| > 0) &&
    Growable(st.store)
  }

  /** `((uint8_t)scope << 4) | delim`, kept to eight bits. */
  function Combination(scope: nat, d: Delim): nat
  {
    (scope * 16 + DelimCode(d)) % 256
  }

  /** The arms of the `switch` in `mcc_data_scope_check`. */
  datatype Arm = Enter | EnterData | Leave | LeaveData | Mismatch

  function Switch(combin: nat): Arm
  {
    if combin == 0x21 then EnterData
    else if combin == 0x04 || combin == 0x10 then Enter
    else if combin == 0x33 then LeaveData
    else if combin == 0x15 || combin == 0x22 then Leave
    else Mismatch
  }

  /** The six transitions of the table above `mcc_data_scope_check`: open
      a file outside any file, a scan in a file, data in a scan, and close
      each from inside it. */
  function Transition(scope: nat, d: Delim): Option<nat>
  {
    match d
    case FileOpen => if scope == ScopeOutOfFile then Some(ScopeFile) else None
    case ScanOpen => if scope == ScopeFile then Some(ScopeScan) else None
    case DataOpen => if scope == ScopeScan then Some(ScopeData) else None
    case DataClose => if scope == ScopeData then Some(ScopeScan) else None
    case ScanClose => if scope == ScopeScan then Some(ScopeFile) else None
    case FileClose => if scope == ScopeFile then Some(ScopeOutOfFile) else None
  }

  /** The switch on the packed combination accepts exactly the six
      transitions: an opening arm raises the scope by one, a closing arm
      lowers it, and only opening data and closing data take the arms that
      check or clear the attributes. */
  lemma SwitchIsTransition(scope: nat, d: Delim)
    requires scope < 16
    ensures Switch(Combination(scope, d)) != Mismatch <==> Transition(scope, d).Some?
    ensures Switch(Combination(scope, d)) == EnterData <==> scope == ScopeScan && d == DataOpen
    ensures Switch(Combination(scope, d)) == LeaveData <==> scope == ScopeData && d == DataClose
    ensures Switch(Combination(scope, d)) == Enter ==> Transition(scope, d) == Some(scope + 1)
    ensures Switch(Combination(scope, d)) == EnterData ==> Transition(scope, d) == Some(scope + 1)
    ensures Switch(Combination(scope, d)) == Leave ==> scope >= 1 && Transition(scope, d) == Some(scope - 1)
    ensures Switch(Combination(scope, d)) == LeaveData ==> scope >= 1 && Transition(scope, d) == Some(scope - 1)
  {
    var c := DelimCode(d);
    assert scope * 16 + c < 256;
    assert Combination(scope, d) == scope * 16 + c;
    match d
    case ScanOpen => assert c == 0;
    case DataOpen => assert c == 1;
    case ScanClose => assert c == 2;
    case DataClose => assert c == 3;
    case FileOpen => assert c == 4;
    case FileClose => assert c == 5;
  }

  /** `mcc_scan_push_back` on one scan: double a full allocation, then
      append. A full scan whose growth fails is left as it was. */
  function PushBackScan(s: Scan, x: real, dose: real, allocOk: bool): (r: Option<Scan>)
    requires |s.data| <= s.cap
    ensures r.None? <==> |s.data| == s.cap && !allocOk
    ensures r.Some? ==> r.value.y == s.y && r.value.data == s.data + [Point(x, dose)]
    ensures r.Some? && 0 < s.cap ==> 0 < r.value.cap && |r.value.data| <= r.value.cap
    ensures r.Some? ==> r.value.cap == s.cap || r.value.cap == 2 * s.cap
  {
    if |s.data| == s.cap then
      if allocOk then Some(Scan(s.y, s.data + [Point(x, dose)], 2 * s.cap)) else None
    else Some(Scan(s.y, s.data + [Point(x, dose)], s.cap))
  }

  /** `mcc_data_push_scan` as it is meant to work: double a full vector,
      then append an empty scan at ordinate `y` with room for
      `INIT_DATACAP` samples. */
  function PushScanStore(s: Store, y: real, allocOk: bool): (r: Option<Store>)
    requires Growable(s)
    ensures r.None? <==> !allocOk
    ensures r.Some? ==> r.value.scans == s.scans + [Scan(y, [], InitDataCap)] && Growable(r.value)
    ensures r.Some? ==> r.value.cap == if |s.scans| == s.cap then 2 * s.cap else s.cap
  {
    if !allocOk then None
    else
      var cap := if |s.scans| == s.cap then 2 * s.cap else s.cap;
      Some(Store(s.scans + [Scan(y, [], InitDataCap)], cap))
  }

  /** `mcc_data_scope_check`: the six transitions; opening data also needs
      both attributes and pushes a scan at the off-axis position, closing
      data forgets the attributes; anything else is a mismatch. */
  function ScopeStep(st: Load, d: Delim, allocOk: bool): (r: Outcome)
    requires Inv(st)
    ensures r.Going? ==> Inv(r.state)
  {
    var c := st.ctx;
    match Transition(c.scope, d)
    case None => Failed(ErrMismatchedDelim)
    case Some(next) =>
      if d == DataOpen then
        if !(c.offaxisFound && c.crosscalFound) then
          Failed(if c.offaxisFound then ErrMissingCrosscal else ErrMissingOffaxis)
        else
          match PushScanStore(st.store, c.offaxis, allocOk)
          case None => Failed(ErrNoMem)
          case Some(s) => Going(Load(c.(scope := next), s))
      else if d == DataClose then
        Going(Load(c.(scope := next, offaxisFound := false, crosscalFound := false), st.store))
      else
        Going(Load(c.(scope := next), st.store))
  }

  /** What `mcc_data_scope_check` promises: only the six transitions pass;
      opening data fails with the specific missing attribute (the off-axis
      position first); after closing data both attributes are forgotten. */
  lemma ScopeStepTable(st: Load, d: Delim, allocOk: bool)
    requires Inv(st)
    ensures Transition(st.ctx.scope, d).None? ==> ScopeStep(st, d, allocOk) == Failed(ErrMismatchedDelim)
    ensures ScopeStep(st, d, allocOk).Going? ==>
      ScopeStep(st, d, allocOk).state.ctx.scope == Transition(st.ctx.scope, d).value
    ensures d == DataOpen && st.ctx.scope == ScopeScan && !st.ctx.offaxisFound ==>
      ScopeStep(st, d, allocOk) == Failed(ErrMissingOffaxis)
    ensures d == DataOpen && st.ctx.scope == ScopeScan && st.ctx.offaxisFound && !st.ctx.crosscalFound ==>
      ScopeStep(st, d, allocOk) == Failed(ErrMissingCrosscal)
    ensures d == DataClose && ScopeStep(st, d, allocOk).Going? ==>
      !ScopeStep(st, d, allocOk).state.ctx.offaxisFound && !ScopeStep(st, d, allocOk).state.ctx.crosscalFound
    ensures d == DataOpen && ScopeStep(st, d, allocOk).Going? ==>
      ScopeStep(st, d, allocOk).state.store.scans == st.store.scans + [Scan(st.ctx.offaxis, [], InitDataCap)]
    ensures d != DataOpen && ScopeStep(st, d, allocOk).Going? ==>
      ScopeStep(st, d, allocOk).state.store == st.store
  {
  }

  /** `mcc_data_keyval_check`: in scan scope the off-axis position and the
      cross calibration are read as numbers and marked found; every other
      assignment, and every assignment outside scan scope, is ignored. A
      value with no number in front fails (`mcc_data_doubleconv`). */
  function KeyvalStep(c: Ctx, key: string, val: string): (r: Option<Ctx>)
    ensures r.None? <==> (c.scope == ScopeScan && (key == OffaxisKey || key == CrosscalKey) &&
      ParseDouble(val, 0).None?)
    ensures r.Some? ==> r.value.scope == c.scope
    ensures r.Some? && r.value != c ==> c.scope == ScopeScan && (key == OffaxisKey || key == CrosscalKey)
    ensures r.Some? ==> (c.offaxisFound ==> r.value.offaxisFound) && (c.crosscalFound ==> r.value.crosscalFound)
  {
    if c.scope != ScopeScan then Some(c)
    else if key == OffaxisKey then
      match ParseDouble(val, 0)
      case None => None
      case Some(v) => Some(c.(offaxis := v.value, offaxisFound := true))
    else if key == CrosscalKey then
      match ParseDouble(val, 0)
      case None => None
      case Some(v) => Some(c.(crosscal := v.value, crosscalFound := true))
    else Some(c)
  }

  /** `mcc_data_data_check`: the sample goes to the last scan, whatever the
      scope. With no scan yet the C writes through `scans[-1]`; here that
      statement is a mismatch instead. */
  function DataStep(st: Load, pos: real, dose: real, allocOk: bool): (r: Outcome)
    requires Inv(st)
    ensures r.Going? ==> Inv(r.state)
  {
    var ss := st.store.scans;
    if |ss| == 0 then Failed(ErrMismatchedDelim)
    else
      match PushBackScan(ss[|ss| - 1], pos, dose, allocOk)
      case None => Failed(ErrNoMem)
      case Some(s) => Going(st.(store := st.store.(scans := ss[|ss| - 1 := s])))
  }

  /** Inside a data block there is always a scan, so the guard added to
      `DataStep` only rejects data the C would write out of bounds. */
  lemma DataInsideBlockStored(st: Load, pos: real, dose: real, allocOk: bool)
    requires Inv(st) && st.ctx.scope == ScopeData
    ensures DataStep(st, pos, dose, allocOk) != Failed(ErrMismatchedDelim)
    ensures DataStep(st, pos, dose, allocOk).Going? ==>
      var ss := DataStep(st, pos, dose, allocOk).state.store.scans;
      |ss| == |st.store.scans| && ss[..|ss| - 1] == st.store.scans[..|ss| - 1] &&
      ss[|ss| - 1].data == st.store.scans[|ss| - 1].data + [Point(pos, dose)]
  {
  }

  /** One iteration of the loop in `mcc_data_load_nodes`: dispatch on the
      statement type; an invalid statement stops the load. */
  function Step(st: Load, stmt: Statement, allocOk: bool): (r: Outcome)
    requires Inv(st)
    ensures r.Going? ==> Inv(r.state)
  {
    match stmt
    case DelimStmt(d) => ScopeStep(st, d, allocOk)
    case KeyVal(key, val) =>
      (match KeyvalStep(st.ctx, key, val)
       case None => Failed(ErrMalformedAttribute)
       case Some(c) => Going(st.(ctx := c)))
    case DataStmt(pos, dose) => DataStep(st, pos, dose, allocOk)
    case Invalid => Failed(ErrUnclassifiable)
  }

  /** The statements of the lines, as the loader classifies them. */
  function Statements(lines: seq<string>): (stmts: seq<Statement>)
    ensures |stmts| == |lines|
  {
    seq(|lines|, k requires 0 <= k < |lines| => ClassifyLine(lines[k]))
  }

  /** The whole loop: statement after statement until one fails. */
  function Run(stmts: seq<Statement>, st: Load, allocOk: bool): (r: Outcome)
    requires Inv(st)
    ensures r.Going? ==> Inv(r.state)
    decreases |stmts|
  {
    if stmts == [] then Going(st)
    else
      match Step(st, stmts[0], allocOk)
      case Failed(e) => Failed(e)
      case Going(next) => Run(stmts[1..], next, allocOk)
  }

  /** A load never removes or reorders scans: the scans before a run are a
      prefix of the scans after it. */
  lemma {:induction false} RunExtendsScans(stmts: seq<Statement>, st: Load, allocOk: bool)
    requires Inv(st)
    ensures var r := Run(stmts, st, allocOk);
      r.Going? ==> (|st.store.scans| <= |r.state.store.scans| &&
        forall k :: 0 <= k < |st.store.scans| ==> r.state.store.scans[k].y == st.store.scans[k].y)
    decreases |stmts|
  {
    if stmts != [] {
      var s := Step(st, stmts[0], allocOk);
      if s.Going? {
        RunExtendsScans(stmts[1..], s.state, allocOk);
      }
    }
  }

  /** What `mcc_data_load_nodes` builds from the lines of a file. */
  function Loaded(lines: seq<string>, allocOk: bool): Outcome
  {
    Run(Statements(lines), Load(InitialCtx, InitialStore), allocOk)
  }

  /** The support `mcc_data_integrate` counts: the doses above a tenth of
      the peak dose. */
  function Support(ds: seq<real>): (n: nat)
    ensures n <= |ds|
    ensures n >= 1 <==> exists k :: 0 <= k < |ds| && ds[k] > 0.0
  {
    CountAboveAtMost(ds, 0.1 * Peak(ds));
    SupportPositive(ds);
    CountAbove(ds, 0.1 * Peak(ds))
  }

  lemma SupportPositive(ds: seq<real>)
    ensures CountAbove(ds, 0.1 * Peak(ds)) >= 1 <==> exists k :: 0 <= k < |ds| && ds[k] > 0.0
  {
    if exists k :: 0 <= k < |ds| && ds[k] > 0.0 {
      SupportNotEmpty(ds);
    } else {
      PeakIsMaximum(ds);
      assert Peak(ds) == 0.0;
      NoneAbove(ds, 0.0);
    }
  }

  /** No dose above `t` when every dose is at most `t`. */
  lemma {:induction false} NoneAbove(ds: seq<real>, t: real)
    requires forall k :: 0 <= k < |ds| ==> ds[k] <= t
    ensures CountAbove(ds, t) == 0
    decreases |ds|
  {
    if ds != [] {
      NoneAbove(ds[..|ds| - 1], t);
    }
  }

  /** Each scan with its allocation cut to its samples. */
  function Trimmed(ss: seq<Scan>): (r: seq<Scan>)
    ensures |r| == |ss|
    ensures forall k :: 0 <= k < |ss| ==> r[k].y == ss[k].y && r[k].data == ss[k].data
    ensures forall k :: 0 <= k < |ss| ==> r[k].cap == |r[k].data|
  {
    seq(|ss|, k requires 0 <= k < |ss| => ss[k].(cap := |ss[k].data|))
  }

  /** After `mcc_data_sort` the scans ascend by ordinate and each scan's
      samples by position. */
  lemma SortOrders(ss: seq<Scan>)
    ensures var r := SortEach(SortBy(ss, ScanY));
      SortedBy(r, ScanY) && Ascending(Ys(r)) &&
      (forall k :: 0 <= k < |r| ==> SortedBy(r[k].data, PointX) && Ascending(Xs(r[k].data)))
  {
    var s := SortBy(ss, ScanY);
    var r := SortEach(s);
    forall i, j | 0 <= i < j < |r| ensures ScanY(r[i]) <= ScanY(r[j]) {
      assert ScanY(s[i]) <= ScanY(s[j]);
    }
    forall k | 0 <= k < |r| ensures Ascending(Xs(r[k].data)) {
      forall i, j | 0 <= i < j < |r[k].data| ensures Xs(r[k].data)[i] <= Xs(r[k].data)[j] {
        assert PointX(r[k].data[i]) <= PointX(r[k].data[j]);
      }
    }
  }

  /** `mcc_data_push_scan` as written: the new `_cap` is twice the old, but
      the `realloc` asks for the header plus one scan pointer only. The
      answer is the capacity recorded and the number of pointers the block
      really holds. */
  function GrowScansAsWritten(cap: nat): (nat, nat)
  {
    (2 * cap, 1)
  }

  /** The vector is grown when it is full, `sz == _cap`, and the new scan
      is then stored at index `sz`: past the one pointer the block holds,
      although the recorded capacity claims room. */
  lemma PushScanAsWrittenOverflows(cap: nat)
    requires cap >= 1
    ensures var (recorded, held) := GrowScansAsWritten(cap);
      cap < recorded && cap >= held
  {
  }

  /** `mcc_data_data_check` as written stores into scan `sz - 1`. */
  function DataTargetAsWritten(s: Store): int
  {
    |s.scans| - 1
  }

  /** A file whose first line is a data pair makes the C loader store
      through `scans[-1]`; the loader of this model rejects it. */
  lemma DataBeforeScanAsWritten()
    ensures ClassifyLine("1 2\n") == DataStmt(1.0, 2.0)
    ensures DataTargetAsWritten(InitialStore) == -1
    ensures Loaded(["1 2\n"], true) == Failed(ErrMismatchedDelim)
  {
    DataPairLine();
    assert Statements(["1 2\n"]) == [DataStmt(1.0, 2.0)];
  }

  /** The line `1 2` is a data statement. */
  lemma DataPairLine()
    ensures ClassifyLine("1 2\n") == DataStmt(1.0, 2.0)
  {
    assert DecimalString(1) + " " + DecimalString(2) + "\n" == "1 2\n" by {
      assert DecimalString(1) == "1";
      assert DecimalString(2) == "2";
    }
    assert LTrim("1 2\n") == 0 by {
      SpanUnique("1 2\n", 0, 0, IsSpace);
    }
    assert "1 2\n"[0..] == "1 2\n";
    DataRoundTrip(1, 2);
  }

  /** `struct mcc_parse_context`: the scope and the two scan attributes
      with their found flags. */
  class ParseContext {
    var scope: nat
    var offaxis: real
    var crosscal: real
    var offaxisFound: bool
    var crosscalFound: bool

    function State(): Ctx
      reads this
    {
      Ctx(scope, offaxis, crosscal, offaxisFound, crosscalFound)
    }

    /** The initialiser at the top of `mcc_data_load_nodes`. */
    constructor ()
      ensures State() == InitialCtx
    {
      scope := ScopeOutOfFile;
      offaxis := 0.0;
      crosscal := 0.0;
      offaxisFound := false;
      crosscalFound := false;
    }

    /** `mcc_data_scope_check`. */
    method ScopeCheck(d: Delim, data: MccData, allocOk: bool) returns (err: int)
      requires Inv(Load(State(), data.State()))
      modifies this, data
      ensures Result(err, Load(State(), data.State())) == ScopeStep(old(Load(State(), data.State())), d, allocOk)
      ensures data.sum == old(data.sum) && data.nsupp == old(data.nsupp)
    {
      SwitchIsTransition(scope, d);
      var combin := Combination(scope, d);
      match Switch(combin) {
        case EnterData =>
          if offaxisFound && crosscalFound {
            err := data.PushScan(offaxis, allocOk);
            if err != ErrNone {
              return;
            }
          } else {
            err := if offaxisFound then ErrMissingCrosscal else ErrMissingOffaxis;
            return;
          }
          scope := scope + 1;
        case Enter =>
          scope := scope + 1;
        case LeaveData =>
          offaxisFound := false;
          crosscalFound := false;
          scope := scope - 1;
        case Leave =>
          scope := scope - 1;
        case Mismatch =>
          return ErrMismatchedDelim;
      }
      err := ErrNone;
    }

    /** `mcc_data_keyval_check`. */
    method KeyvalCheck(key: string, val: string) returns (err: int)
      modifies this
      ensures err == ErrNone ==> KeyvalStep(old(State()), key, val) == Some(State())
      ensures err != ErrNone ==> err == ErrMalformedAttribute && KeyvalStep(old(State()), key, val).None?
    {
      err := ErrNone;
      if scope == ScopeScan {
        if key == OffaxisKey {
          match ParseDouble(val, 0) {
            case None =>
              err := ErrMalformedAttribute;
            case Some(v) =>
              offaxis := v.value;
              offaxisFound := true;
          }
        } else if key == CrosscalKey {
          match ParseDouble(val, 0) {
            case None =>
              err := ErrMalformedAttribute;
            case Some(v) =>
              crosscal := v.value;
              crosscalFound := true;
          }
        }
      }
    }
  }

  /** `MCCData`: the scans, their vector's capacity, and the integrated
      dose and support. */
  class MccData {
    var scans: seq<Scan>
    var cap: nat
    var sum: real
    var nsupp: nat

    function State(): Store
      reads this
    {
      Store(scans, cap)
    }

    /** The `calloc` in `mcc_data_alloc`: no scans, room for
        `INIT_SCANCAP`, zero sum and support. */
    constructor ()
      ensures State() == InitialStore && sum == 0.0 && nsupp == 0
    {
      scans := [];
      cap := InitScanCap;
      sum := 0.0;
      nsupp := 0;
    }

    /** `mcc_data_push_scan` with the vector grown to the capacity it
        records, then `mcc_scan_alloc`. */
    method PushScan(y: real, allocOk: bool) returns (err: int)
      requires Growable(State())
      modifies this
      ensures err == ErrNone ==> PushScanStore(old(State()), y, allocOk) == Some(State())
      ensures err != ErrNone ==> err == ErrNoMem && PushScanStore(old(State()), y, allocOk).None?
      ensures sum == old(sum) && nsupp == old(nsupp)
    {
      if |scans| == cap {
        if !allocOk {
          return ErrNoMem;
        }
        cap := cap * 2;
      }
      if !allocOk {
        return ErrNoMem;
      }
      scans := scans + [Scan(y, [], InitDataCap)];
      err := ErrNone;
    }

    /** `mcc_scan_push_back` on the last scan. */
    method PushBack(x: real, dose: real, allocOk: bool) returns (err: int)
      requires |scans| > 0 && |scans[|scans| - 1].data| <= scans[|scans| - 1].cap
      modifies this
      ensures |scans| == |old(scans)| && cap == old(cap) && sum == old(sum) && nsupp == old(nsupp)
      ensures var r := PushBackScan(old(scans[|scans| - 1]), x, dose, allocOk);
        (err == ErrNone <==> r.Some?) &&
        (err == ErrNone ==> scans == old(scans)[|scans| - 1 := r.value]) &&
        (err != ErrNone ==> err == ErrNoMem)
    {
      var last := |scans| - 1;
      var s := scans[last];
      var newcap := s.cap;
      if |s.data| == s.cap {
        newcap := s.cap * 2;
        if !allocOk {
          return ErrNoMem;
        }
      }
      scans := scans[last := Scan(s.y, s.data + [Point(x, dose)], newcap)];
      err := ErrNone;
    }

    /** `mcc_data_trim`: every scan, then the vector, is cut to what it
        holds; a failed `realloc` stops with `MCC_ERROR_NOMEM`. */
    method Trim(allocOk: bool) returns (err: int)
      modifies this
      ensures err == ErrNone <==> allocOk
      ensures err != ErrNone ==> err == ErrNoMem
      ensures err == ErrNone ==> scans == Trimmed(old(scans)) && cap == |scans|
      ensures sum == old(sum) && nsupp == old(nsupp)
    {
      var i := 0;
      while i < |scans|
        invariant 0 <= i <= |scans| == |old(scans)|
        invariant scans[..i] == Trimmed(old(scans))[..i] && scans[i..] == old(scans)[i..]
        invariant sum == old(sum) && nsupp == old(nsupp)
      {
        if !allocOk {
          return ErrNoMem;
        }
        scans := scans[i := scans[i].(cap := |scans[i].data|)];
        i := i + 1;
      }
      if !allocOk {
        return ErrNoMem;
      }
      assert scans == scans[..i];
      cap := |scans|;
      err := ErrNone;
    }

    /** `mcc_data_sort`: the scans by ordinate, then each scan's samples by
        position. */
    method Sort()
      modifies this
      ensures scans == SortEach(SortBy(old(scans), ScanY))
      ensures cap == old(cap) && sum == old(sum) && nsupp == old(nsupp)
    {
      var ss := SortBy(scans, ScanY);
      ghost var sorted := ss;
      var i := 0;
      while i < |ss|
        invariant 0 <= i <= |ss| == |sorted|
        invariant forall k :: 0 <= k < i ==> ss[k] == sorted[k].(data := SortBy(sorted[k].data, PointX))
        invariant forall k :: i <= k < |ss| ==> ss[k] == sorted[k]
      {
        ss := ss[i := ss[i].(data := SortBy(ss[i].data, PointX))];
        i := i + 1;
      }
      SortEachIs(sorted, ss);
      scans := ss;
    }

    /** `mcc_data_threshold`: a tenth of the largest dose, or of 0 when no
        dose is positive. */
    method Threshold() returns (t: real)
      ensures t == 0.1 * Peak(Doses(scans))
    {
      var ss := scans;
      var max := 0.0;
      var j := 0;
      while j < |ss|
        invariant 0 <= j <= |ss|
        invariant max == Peak(Doses(ss[..j]))
      {
        max := ScanPeak(ss[j].data, Doses(ss[..j]), max);
        DosesStep(ss, j);
        j := j + 1;
      }
      assert ss[..j] == ss;
      t := 0.1 * max;
    }

    /** `mcc_data_integrate`: the sum of all doses, and the number of doses
        above the threshold. */
    method Integrate()
      modifies this
      ensures sum == Total(Doses(scans))
      ensures nsupp == Support(Doses(scans))
      ensures scans == old(scans) && cap == old(cap)
    {
      var threshold := Threshold();
      var total, count := Sums(scans, threshold);
      assert count == Support(Doses(scans));
      sum := total;
      nsupp := count;
    }

    /** `mcc_data_scan_bsearch`: the binary search over the ordinates. */
    method ScanBSearch(y: real) returns (i: int)
      ensures i == BSearch(Ys(scans), y, 0, |scans|)
      ensures Ascending(Ys(scans)) ==> (-1 <= i < |scans| && (i >= 0 ==> scans[i].y <= y) &&
        forall k :: 0 <= k < |scans| && scans[k].y <= y ==> i >= 0 && scans[k].y <= scans[i].y)
    {
      ghost var ks := Ys(scans);
      var l, r := 0, |scans|;
      while l < r
        invariant 0 <= l <= r <= |scans|
        invariant BSearch(ks, y, l, r) == BSearch(ks, y, 0, |scans|)
        decreases r - l
      {
        var med := (r + l) / 2;
        var y0 := scans[med].y;
        if y < y0 {
          r := med;
        } else if y0 < y {
          l := med + 1;
        } else {
          i := med;
          SearchFacts(ks, y);
          return;
        }
      }
      i := l - 1;
      SearchFacts(ks, y);
    }

    /** `mcc_data_get_point_dose`. */
    function GetPointDose(x: real, y: real): real
      reads this
    {
      PointDose(scans, x, y)
    }
  }

  /** The search result's meaning on ascending keys, for the methods. */
  lemma SearchFacts(ks: seq<real>, q: real)
    ensures Ascending(ks) ==> var i := BSearch(ks, q, 0, |ks|);
      -1 <= i < |ks| && (i >= 0 ==> ks[i] <= q) &&
      forall k :: 0 <= k < |ks| && ks[k] <= q ==> i >= 0 && ks[k] <= ks[i]
  {
    if Ascending(ks) {
      BSearchLargest(ks, q);
    }
  }

  /** `mcc_data_data_bsearch`: the binary search over a scan's positions. */
  method DataBSearch(s: Scan, x: real) returns (i: int)
    ensures i == BSearch(Xs(s.data), x, 0, |s.data|)
    ensures Ascending(Xs(s.data)) ==> (-1 <= i < |s.data| && (i >= 0 ==> s.data[i].x <= x) &&
      forall k :: 0 <= k < |s.data| && s.data[k].x <= x ==> i >= 0 && s.data[k].x <= s.data[i].x)
  {
    ghost var ks := Xs(s.data);
    var l, r := 0, |s.data|;
    while l < r
      invariant 0 <= l <= r <= |s.data|
      invariant BSearch(ks, x, l, r) == BSearch(ks, x, 0, |s.data|)
      decreases r - l
    {
      var med := (r + l) / 2;
      var x0 := s.data[med].x;
      if x < x0 {
        r := med;
      } else if x0 < x {
        l := med + 1;
      } else {
        i := med;
        SearchFacts(ks, x);
        return;
      }
    }
    i := l - 1;
    SearchFacts(ks, x);
  }

  /** The two nested loops of `mcc_data_integrate`: the sum of the doses of
      the scans, and how many exceed `t`. */
  method Sums(ss: seq<Scan>, t: real) returns (total: real, count: nat)
    ensures total == Total(Doses(ss)) && count == CountAbove(Doses(ss), t)
  {
    total, count := 0.0, 0;
    var j := 0;
    while j < |ss|
      invariant 0 <= j <= |ss|
      invariant total == Total(Doses(ss[..j]))
      invariant count == CountAbove(Doses(ss[..j]), t)
    {
      total, count := ScanSums(ss[j].data, Doses(ss[..j]), t, total, count);
      DosesStep(ss, j);
      j := j + 1;
    }
    assert ss[..j] == ss;
  }

  /** The inner loop of `mcc_data_threshold`, over the samples of one
      scan, continuing the running maximum `m0` of the doses `ds` before. */
  method ScanPeak(ps: seq<Point>, ghost ds: seq<real>, m0: real) returns (m: real)
    requires m0 == Peak(ds)
    ensures m == Peak(ds + DosesOf(ps))
  {
    m := m0;
    var i := 0;
    assert ds + DosesOf(ps[..0]) == ds;
    while i < |ps|
      invariant 0 <= i <= |ps|
      invariant m == Peak(ds + DosesOf(ps[..i]))
    {
      DosesOfStep(ps, i);
      assert ds + DosesOf(ps[..i + 1]) == (ds + DosesOf(ps[..i])) + [ps[i].dose];
      PeakStep(ds + DosesOf(ps[..i]), ps[i].dose);
      m := Max(m, ps[i].dose);
      i := i + 1;
    }
    assert ps[..i] == ps;
  }

  /** The inner loop of `mcc_data_integrate`, over the samples of one scan,
      continuing the sum `s0` and the support count `n0` of the doses `ds`
      before. */
  method ScanSums(ps: seq<Point>, ghost ds: seq<real>, t: real, s0: real, n0: nat) returns (s: real, n: nat)
    requires s0 == Total(ds) && n0 == CountAbove(ds, t)
    ensures s == Total(ds + DosesOf(ps)) && n == CountAbove(ds + DosesOf(ps), t)
  {
    s, n := s0, n0;
    var i := 0;
    assert ds + DosesOf(ps[..0]) == ds;
    while i < |ps|
      invariant 0 <= i <= |ps|
      invariant s == Total(ds + DosesOf(ps[..i])) && n == CountAbove(ds + DosesOf(ps[..i]), t)
    {
      DosesOfStep(ps, i);
      assert ds + DosesOf(ps[..i + 1]) == (ds + DosesOf(ps[..i])) + [ps[i].dose];
      SumStep(ds + DosesOf(ps[..i]), ps[i].dose, t);
      s := s + ps[i].dose;
      n := n + (if ps[i].dose > t then 1 else 0);
      i := i + 1;
    }
    assert ps[..i] == ps;
  }

  lemma SortEachIs(sorted: seq<Scan>, ss: seq<Scan>)
    requires |ss| == |sorted|
    requires forall k :: 0 <= k < |ss| ==> ss[k] == sorted[k].(data := SortBy(sorted[k].data, PointX))
    ensures ss == SortEach(sorted)
  {
  }

  lemma DosesOfStep(ps: seq<Point>, i: nat)
    requires i < |ps|
    ensures DosesOf(ps[..i + 1]) == DosesOf(ps[..i]) + [ps[i].dose]
  {
    assert ps[..i + 1][..i] == ps[..i];
  }

  lemma DosesStep(ss: seq<Scan>, j: nat)
    requires j < |ss|
    ensures Doses(ss[..j + 1]) == Doses(ss[..j]) + DosesOf(ss[j].data)
  {
    assert ss[..j + 1][..j] == ss[..j];
    assert ss[j].data[..|ss[j].data|] == ss[j].data;
  }

  lemma PeakStep(ds: seq<real>, d: real)
    ensures Peak(ds + [d]) == Max(Peak(ds), d)
  {
    assert (ds + [d])[..|ds|] == ds;
  }

  lemma SumStep(ds: seq<real>, d: real, t: real)
    ensures Total(ds + [d]) == Total(ds) + d
    ensures CountAbove(ds + [d], t) == CountAbove(ds, t) + (if d > t then 1 else 0)
  {
    assert (ds + [d])[..|ds|] == ds;
  }

  /** The dispatch on the statement type in the loop of
      `mcc_data_load_nodes`. */
  method Dispatch(ctx: ParseContext, data: MccData, stmt: Statement, allocOk: bool) returns (err: int)
    requires Inv(Load(ctx.State(), data.State()))
    modifies ctx, data
    ensures Result(err, Load(ctx.State(), data.State())) ==
      Step(old(Load(ctx.State(), data.State())), stmt, allocOk)
    ensures data.sum == old(data.sum) && data.nsupp == old(data.nsupp)
  {
    match stmt {
      case DelimStmt(d) =>
        err := ctx.ScopeCheck(d, data, allocOk);
      case KeyVal(key, val) =>
        err := ctx.KeyvalCheck(key, val);
      case DataStmt(pos, dose) =>
        if |data.scans| == 0 {
          err := ErrMismatchedDelim;
        } else {
          err := data.PushBack(pos, dose, allocOk);
        }
      case Invalid =>
        err := ErrUnclassifiable;
    }
  }

  /** `mcc_data_load_nodes`: every line in turn until one fails. */
  method LoadNodes(lines: seq<string>, data: MccData, allocOk: bool) returns (err: int)
    requires Inv(Load(InitialCtx, data.State()))
    modifies data
    ensures var r := Run(Statements(lines), Load(InitialCtx, old(data.State())), allocOk);
      (err == ErrNone <==> r.Going?) &&
      (r.Going? ==> data.State() == r.state.store) &&
      (r.Failed? ==> err == r.err)
    ensures data.sum == old(data.sum) && data.nsupp == old(data.nsupp)
  {
    var ctx := new ParseContext();
    ghost var stmts := Statements(lines);
    ghost var start := Load(InitialCtx, data.State());
    var i := 0;
    while i < |lines|
      invariant 0 <= i <= |lines|
      invariant Inv(Load(ctx.State(), data.State()))
      invariant Run(stmts[i..], Load(ctx.State(), data.State()), allocOk) == Run(stmts, start, allocOk)
      invariant data.sum == old(data.sum) && data.nsupp == old(data.nsupp)
    {
      var stmt := ClassifyLine(lines[i]);
      assert stmts[i..][0] == stmt;
      assert stmts[i..][1..] == stmts[i + 1..];
      err := Dispatch(ctx, data, stmt, allocOk);
      if err != ErrNone {
        return;
      }
      i := i + 1;
    }
    err := ErrNone;
  }

  /** `mcc_data_alloc`: allocate, load, trim, sort and integrate; on any
      error the data is freed and only the code is returned. */
  method Alloc(lines: seq<string>, dataOk: bool, allocOk: bool) returns (data: MccData?, stat: int)
    ensures data != null <==> stat == ErrNone
    ensures !dataOk ==> stat == ErrNoMem
    ensures var r := Loaded(lines, allocOk);
      (dataOk && r.Failed? ==> stat == r.err) &&
      (dataOk && r.Going? ==> stat == (if allocOk then ErrNone else ErrNoMem))
    ensures data != null ==> var r := Loaded(lines, allocOk);
      r.Going? && data.scans == SortEach(SortBy(Trimmed(r.state.store.scans), ScanY)) &&
      data.cap == |data.scans| &&
      data.sum == Total(Doses(data.scans)) &&
      data.nsupp == Support(Doses(data.scans))
  {
    if !dataOk {
      return null, ErrNoMem;
    }
    ghost var r := Loaded(lines, allocOk);
    data := new MccData();
    assert Inv(Load(InitialCtx, data.State()));
    var err := LoadNodes(lines, data, allocOk);
    if err != ErrNone {
      assert r.Failed? && err == r.err;
      return null, err;
    }
    assert r.Going? && data.scans == r.state.store.scans;
    ghost var loaded := data.scans;
    err := data.Trim(allocOk);
    if err != ErrNone {
      return null, err;
    }
    ghost var trimmed := data.scans;
    assert trimmed == Trimmed(loaded) && data.cap == |trimmed|;
    ghost var ordered := SortBy(trimmed, ScanY);
    assert |ordered| == |multiset(ordered)| == |multiset(trimmed)| == |trimmed|;
    data.Sort();
    assert |data.scans| == |ordered|;
    data.Integrate();
    stat := ErrNone;
  }

  /** `mcc_data_create`: a file that does not open gives
      `MCC_ERROR_FOPEN_FAILED`; otherwise `mcc_data_alloc`. */
  method Create(lines: seq<string>, fileOk: bool, dataOk: bool, allocOk: bool) returns (data: MccData?, stat: int)
    ensures data != null <==> stat == ErrNone
    ensures !fileOk ==> stat == ErrFopenFailed
    ensures fileOk && !dataOk ==> stat == ErrNoMem
    ensures fileOk && dataOk ==> var r := Loaded(lines, allocOk);
      (r.Failed? ==> stat == r.err) && (r.Going? && allocOk ==> stat == ErrNone)
    ensures data != null ==> (Ascending(Ys(data.scans)) &&
      forall k :: 0 <= k < |data.scans| ==> Ascending(Xs(data.scans[k].data)))
  {
    if !fileOk {
      return null, ErrFopenFailed;
    }
    data, stat := Alloc(lines, dataOk, allocOk);
    if data != null {
      SortOrders(Trimmed(Loaded(lines, allocOk).state.store.scans));
    }
  }
}
