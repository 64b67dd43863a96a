/** The line classifier of the scan-indexing MCC reader, `classify_statement`
    (src/proton/mcc/mcc-stmt.c:198-220). A line is empty, an assignment
    `<id>=<string>`, a delimiter with or without an index, a data line
    `<pos> <value> #<index>`, or unclassifiable. The source writes its
    verdict into an out-parameter and points into the line; here the verdict
    is a value carrying the strings and numbers it points at. */
module MccStmt {
  import opened Wrappers
  import opened CText

  /** `MCC_DELIM_FILE`, `MCC_DELIM_SCAN`, `MCC_DELIM_DATA` (mcc-stmt.h:37-41). */
  datatype DelimType = FileDelim | ScanDelim | DataDelim

  /** `struct mcc_statement` (mcc-stmt.h:23-51). An assignment carries the key
      (the text from its first character up to the '=') and the value (the
      text after the '=' up to the end of the line); an unclassifiable line
      carries the line from its first non-space character. Only scan
      delimiters carry an index. */
  datatype Stmt =
    | Empty
    | Unclassifiable(text: string)
    | Assign(key: string, value: string)
    | DelimBegin(dtype: DelimType, index: Option<int>)
    | DelimEnd(dtype: DelimType, index: Option<int>)
    | Data(x: real, y: real, idx: int)

  /** The delimiter words, in the order of the token codes
      (mcc-stmt.c:7-24). */
  const Delims: seq<string> :=
    ["BEGIN_SCAN_DATA", "BEGIN_SCAN", "BEGIN_DATA", "END_SCAN", "END_DATA", "END_SCAN_DATA"]
  const TokenUnrecognized: int := -1
  const TokenBeginScanData: int := 0
  const TokenBeginScan: int := 1
  const TokenBeginData: int := 2
  const TokenEndScan: int := 3
  const TokenEndData: int := 4
  const TokenEndScanData: int := 5

  /** `strmatch`: the token `[str, strend)` against a keyword; true only when
      the two are the same text (mcc-stmt.c:45-56). */
  function StrMatch(seg: string, cmp: string): (r: bool)
    ensures r <==> seg == cmp
  {
    if seg == [] then cmp == []
    else cmp != [] && seg[0] == cmp[0] && StrMatch(seg[1..], cmp[1..])
  }

  function TokenTypeFrom(tok: string, i: nat): (t: int)
    requires i <= |Delims|
    ensures t == TokenUnrecognized || i <= t < |Delims|
    decreases |Delims| - i
  {
    if i == |Delims| then TokenUnrecognized
    else if StrMatch(tok, Delims[i]) then i
    else TokenTypeFrom(tok, i + 1)
  }

  /** `token_type` (mcc-stmt.c:58-67): the position of the token in the list
      of delimiter words. */
  function TokenType(tok: string): (t: int)
    ensures t == TokenUnrecognized <==> tok !in Delims
    ensures t != TokenUnrecognized ==> 0 <= t < |Delims| && Delims[t] == tok
  {
    TokenTypeTrial(tok, 0);
    TokenTypeFrom(tok, 0)
  }

  lemma {:induction false} TokenTypeTrial(tok: string, i: nat)
    requires i <= |Delims|
    ensures TokenTypeFrom(tok, i) == TokenUnrecognized <==> tok !in Delims[i..]
    ensures TokenTypeFrom(tok, i) != TokenUnrecognized ==> Delims[TokenTypeFrom(tok, i)] == tok
    decreases |Delims| - i
  {
    if i < |Delims| {
      TokenTypeTrial(tok, i + 1);
      assert Delims[i..] == [Delims[i]] + Delims[i + 1..];
      assert tok in Delims[i..] <==> tok == Delims[i] || tok in Delims[i + 1..];
    } else {
      assert Delims[i..] == [];
    }
  }

  /** A character that continues the first token: not '=', not the
      terminator and not whitespace (mcc-stmt.c:209-212). */
  predicate IsWordChar(c: char)
  {
    c != '=' && c != '\0' && !IsSpace(c)
  }

  /** Where the scan that starts one past the first character `b` stops. */
  function TokenEnd(line: string, b: nat): (e: nat)
    requires b < |line|
    ensures b < e <= |line|
    ensures forall k :: b < k < e ==> IsWordChar(line[k])
    ensures !IsWordChar(At(line, e))
  {
    SpanAll(line, b + 1, IsWordChar);
    Span(line, b + 1, IsWordChar)
  }

  /** The first token of a line, empty for a blank line. */
  function FirstToken(line: string): string
  {
    var b := SkipSpace(line, 0);
    if At(line, b) == '\0' then [] else line[b..TokenEnd(line, b)]
  }

  /** `set_indexed_delim_stmt` (mcc-stmt.c:88-109): an integer must follow
      the word, and nothing but whitespace after it. */
  function IndexedDelim(t: int, line: string, e: nat): (r: Option<Stmt>)
    ensures r.Some? ==> (r.value.DelimBegin? <==> t == TokenBeginScan) && (r.value.DelimBegin? || r.value.DelimEnd?)
    ensures r.Some? ==> r.value.dtype == ScanDelim && r.value.index.Some?
    ensures r.Some? <==> ParseLong(line, e).Some? && Blank(line, ParseLong(line, e).value.end)
  {
    match ParseLong(line, e)
    case None => None
    case Some(n) =>
      if !Blank(line, n.end) then None
      else if t == TokenBeginScan then Some(DelimBegin(ScanDelim, Some(n.value)))
      else Some(DelimEnd(ScanDelim, Some(n.value)))
  }

  /** `set_nonindexed_delim_stmt` (mcc-stmt.c:111-138): nothing but
      whitespace may follow the word. */
  function NonIndexedDelim(t: int, line: string, e: nat): (r: Option<Stmt>)
    requires t in {TokenBeginScanData, TokenBeginData, TokenEndData, TokenEndScanData}
    ensures r.Some? <==> Blank(line, e)
    ensures r.Some? ==> (r.value.DelimBegin? || r.value.DelimEnd?) && r.value.index == None
  {
    if !Blank(line, e) then None
    else if t == TokenBeginScanData then Some(DelimBegin(FileDelim, None))
    else if t == TokenBeginData then Some(DelimBegin(DataDelim, None))
    else if t == TokenEndData then Some(DelimEnd(DataDelim, None))
    else Some(DelimEnd(FileDelim, None))
  }

  /** `set_data_stmt` (mcc-stmt.c:140-181): a number read from the first
      character of the line, a second number, a '#', an integer, then only
      whitespace. */
  function DataStmt(line: string, b: nat): (r: Option<Stmt>)
    ensures r.Some? ==> r.value.Data?
  {
    match ParseDouble(line, b)
    case None => None
    case Some(px) => DataAfterX(line, px.value, px.end)
  }

  /** The rest of a data line once its position `x` has been read up to
      `xe`: the value, then the index. */
  function DataAfterX(line: string, x: real, xe: nat): (r: Option<Stmt>)
    ensures r.Some? ==> r.value.Data? && r.value.x == x
  {
    match ParseDouble(line, SkipSpace(line, xe))
    case None => None
    case Some(py) => DataIndex(line, x, py.value, py.end)
  }

  /** The '#', the index and the blank tail of a data line whose two numbers
      have been read, the second up to `ye`. */
  function DataIndex(line: string, x: real, y: real, ye: nat): (r: Option<Stmt>)
    ensures r.Some? ==> r.value.Data? && r.value.x == x && r.value.y == y
  {
    var k := SkipSpace(line, ye);
    if At(line, k) != '#' then None
    else
      match ParseLong(line, k + 1)
      case None => None
      case Some(pn) => if Blank(line, pn.end) then Some(Data(x, y, pn.value)) else None
  }

  /** `set_nonassignment_stmt` (mcc-stmt.c:183-196): the first token `[b, e)`
      decides between a delimiter and data. */
  function NonAssignment(line: string, b: nat, e: nat): (r: Option<Stmt>)
    requires b <= e <= |line|
    ensures r.Some? ==> !r.value.Assign? && !r.value.Empty? && !r.value.Unclassifiable?
    ensures r.Some? && (r.value.DelimBegin? || r.value.DelimEnd?) ==> (r.value.dtype == ScanDelim <==> r.value.index.Some?)
  {
    var t := TokenType(line[b..e]);
    if t == TokenUnrecognized then DataStmt(line, b)
    else if t == TokenBeginScan || t == TokenEndScan then IndexedDelim(t, line, e)
    else NonIndexedDelim(t, line, e)
  }

  /** `classify_statement` (mcc-stmt.c:198-220). */
  function ClassifyStatement(line: string): Stmt
  {
    var b := SkipSpace(line, 0);
    if At(line, b) == '\0' then Empty
    else
      var e := TokenEnd(line, b);
      if At(line, e) == '=' then Assign(line[b..e], CString(line, e + 1))
      else
        match NonAssignment(line, b, e)
        case Some(st) => st
        case None => Unclassifiable(CString(line, b))
  }

  /** What every verdict of `ClassifyStatement` looks like. */
  lemma ClassifyStatementShape(line: string)
    // an assignment key is a nonempty run of non-space characters with no
    // '=' after its first, and neither key nor value holds the terminator
    ensures var st := ClassifyStatement(line);
      st.Assign? ==> |st.key| > 0 && forall k :: 0 <= k < |st.key| ==> !IsSpace(st.key[k]) && st.key[k] != '\0'
    ensures var st := ClassifyStatement(line);
      st.Assign? ==> (forall k :: 1 <= k < |st.key| ==> st.key[k] != '=') && forall c :: c in st.value ==> c != '\0'
    // exactly the scan delimiters carry an index
    ensures var st := ClassifyStatement(line);
      st.DelimBegin? || st.DelimEnd? ==> (st.dtype == ScanDelim <==> st.index.Some?)
    // an unclassifiable line is reported from its first non-space character
    ensures var st := ClassifyStatement(line);
      st.Unclassifiable? ==> st.text == CString(line, SkipSpace(line, 0)) && |st.text| > 0 && !IsSpace(st.text[0])
  {
    var b := SkipSpace(line, 0);
    if At(line, b) != '\0' {
      var e := TokenEnd(line, b);
      if At(line, e) == '=' {
        AssignShape(line, b, e);
      } else {
        var r := NonAssignment(line, b, e);
        if r.Some? {
          assert ClassifyStatement(line) == r.value;
        } else {
          var text := CString(line, b);
          assert ClassifyStatement(line) == Unclassifiable(text);
          assert text[0] == line[b];
        }
      }
    }
  }

  lemma AssignShape(line: string, b: nat, e: nat)
    requires b == SkipSpace(line, 0) && At(line, b) != '\0'
    requires e == TokenEnd(line, b) && At(line, e) == '='
    ensures ClassifyStatement(line) == Assign(line[b..e], CString(line, e + 1))
    ensures var key := line[b..e];
      |key| > 0 && (forall k :: 0 <= k < |key| ==> !IsSpace(key[k]) && key[k] != '\0') &&
      forall k :: 1 <= k < |key| ==> key[k] != '='
  {
    var key := line[b..e];
    assert key[0] == At(line, b);
    assert forall k :: 1 <= k < |key| ==> key[k] == line[b + k] && IsWordChar(line[b + k]);
  }

  /** A blank line, up to its terminator, is `Empty`, and nothing else is
      (mcc-stmt.c:200-204). */
  lemma ClassifyEmpty(line: string)
    ensures ClassifyStatement(line) == Empty <==> forall c :: c in CString(line, 0) ==> IsSpace(c)
  {
    var b := SkipSpace(line, 0);
    var r := CString(line, 0);
    if At(line, b) == '\0' {
      SpanUnique(line, 0, b, NonNul);
      assert r == line[..b];
    } else {
      assert |r| > b;
      assert r[b] == line[b];
    }
  }

  /** How the scan of `classify_statement` sees `key + "=" + value`. */
  lemma AssignLine(key: string, value: string)
    requires |key| > 0 && !IsSpace(key[0]) && key[0] != '\0'
    requires forall k :: 1 <= k < |key| ==> IsWordChar(key[k])
    requires forall c :: c in value ==> c != '\0'
    ensures var line := key + "=" + value;
      SkipSpace(line, 0) == 0 && At(line, 0) != '\0' && TokenEnd(line, 0) == |key| &&
      At(line, |key|) == '=' && line[0..|key|] == key && CString(line, |key| + 1) == value
  {
    var line := key + "=" + value;
    SpanUnique(line, 0, 0, IsSpace);
    assert forall k :: 1 <= k < |key| ==> line[k] == key[k];
    SpanUnique(line, 1, |key|, IsWordChar);
    assert line[..|key|] == key;
    forall k | |key| + 1 <= k < |line|
      ensures NonNul(line[k])
    {
      assert line[k] == value[k - |key| - 1];
      assert value[k - |key| - 1] in value;
    }
    SpanUnique(line, |key| + 1, |line|, NonNul);
    assert line[|key| + 1..] == value;
  }

  /** An assignment line reads back as its key and value: the key a nonempty
      run of characters that are neither whitespace, NUL nor (after the
      first) '=', the value any text without a NUL (mcc-stmt.c:206-209). */
  lemma ClassifyAssignRoundTrip(key: string, value: string)
    requires |key| > 0 && !IsSpace(key[0]) && key[0] != '\0'
    requires forall k :: 1 <= k < |key| ==> IsWordChar(key[k])
    requires forall c :: c in value ==> c != '\0'
    ensures ClassifyStatement(key + "=" + value) == Assign(key, value)
  {
    AssignLine(key, value);
  }

  /** The C string from `b` is the token `[b, e)`, the '=' at `e` and the C
      string after it. */
  lemma CStringAroundEquals(line: string, b: nat, e: nat)
    requires b < e < |line| && line[e] == '='
    requires forall k :: b <= k < e ==> line[k] != '\0'
    ensures CString(line, b) == line[b..e] + "=" + CString(line, e + 1)
  {
    var v := CString(line, e + 1);
    var m := e + 1 + |v|;
    forall k | b <= k < m
      ensures NonNul(line[k])
    {
      if k > e {
        assert line[k] == v[k - e - 1];
        assert v[k - e - 1] in v;
      }
    }
    SpanUnique(line, b, m, NonNul);
    assert line[b..m] == line[b..e] + "=" + v;
  }

  /** Conversely, an assignment verdict means the line, from its first
      non-space character to its terminator, is exactly key '=' value. */
  lemma ClassifyAssignText(line: string)
    requires ClassifyStatement(line).Assign?
    ensures var st := ClassifyStatement(line);
      CString(line, SkipSpace(line, 0)) == st.key + "=" + st.value
  {
    var b := SkipSpace(line, 0);
    var e := TokenEnd(line, b);
    AssignShape(line, b, e);
    assert forall k :: b < k < e ==> IsWordChar(line[k]);
    CStringAroundEquals(line, b, e);
  }

  /** A space between the key and the '=' makes the line no assignment
      (mcc-stmt.h:9-12). */
  lemma ClassifySpaceBeforeEquals(key: string, value: string)
    requires |key| > 0 && !IsSpace(key[0]) && key[0] != '\0'
    requires forall k :: 1 <= k < |key| ==> IsWordChar(key[k])
    ensures !ClassifyStatement(key + " =" + value).Assign?
  {
    var line := key + " =" + value;
    SpanUnique(line, 0, 0, IsSpace);
    assert forall k :: 1 <= k < |key| ==> line[k] == key[k];
    SpanUnique(line, 1, |key|, IsWordChar);
  }

  /** The word that introduces a delimiter statement. */
  function DelimWord(st: Stmt): (w: string)
    requires st.DelimBegin? || st.DelimEnd?
    ensures w in Delims
  {
    match st
    case DelimBegin(FileDelim, _) => "BEGIN_SCAN_DATA"
    case DelimBegin(ScanDelim, _) => "BEGIN_SCAN"
    case DelimBegin(DataDelim, _) => "BEGIN_DATA"
    case DelimEnd(ScanDelim, _) => "END_SCAN"
    case DelimEnd(DataDelim, _) => "END_DATA"
    case DelimEnd(FileDelim, _) => "END_SCAN_DATA"
  }

  /** `NonAssignment` gives a delimiter exactly for a delimiter word, and that
      word. */
  lemma NonAssignmentDelim(line: string, b: nat, e: nat)
    requires b <= e <= |line|
    ensures var r := NonAssignment(line, b, e);
      r.Some? && (r.value.DelimBegin? || r.value.DelimEnd?) ==> line[b..e] == DelimWord(r.value)
    ensures var r := NonAssignment(line, b, e);
      line[b..e] in Delims ==> r == None || r.value.DelimBegin? || r.value.DelimEnd?
  {
    var t := TokenType(line[b..e]);
    if t == TokenBeginScan || t == TokenEndScan {
      IndexedWord(t, line, e);
    } else if t != TokenUnrecognized {
      NonIndexedWord(t, line, e);
    }
  }

  /** A scan delimiter is spelled as the entry of its token type. */
  lemma IndexedWord(t: int, line: string, e: nat)
    requires t == TokenBeginScan || t == TokenEndScan
    ensures var r := IndexedDelim(t, line, e);
      r.Some? ==> DelimWord(r.value) == Delims[t]
  {
  }

  /** A delimiter without index is spelled as the entry of its token type. */
  lemma NonIndexedWord(t: int, line: string, e: nat)
    requires t in {TokenBeginScanData, TokenBeginData, TokenEndData, TokenEndScanData}
    ensures var r := NonIndexedDelim(t, line, e);
      r.Some? ==> DelimWord(r.value) == Delims[t]
  {
  }

  /** A delimiter verdict names the line's first token, and a line whose
      first token is a delimiter word is a delimiter, an assignment or
      unclassifiable, never data (mcc-stmt.c:45-67, 183-196). */
  lemma ClassifyDelimWord(line: string)
    ensures var st := ClassifyStatement(line);
      st.DelimBegin? || st.DelimEnd? ==> FirstToken(line) == DelimWord(st)
    ensures var st := ClassifyStatement(line);
      FirstToken(line) in Delims ==> st.Assign? || st.DelimBegin? || st.DelimEnd? || st.Unclassifiable?
  {
    var b := SkipSpace(line, 0);
    if At(line, b) != '\0' {
      var e := TokenEnd(line, b);
      if At(line, e) != '=' {
        NonAssignmentDelim(line, b, e);
      }
    }
  }

  /** Every delimiter word is a run of capitals and underscores. */
  lemma DelimWordChars(t: nat)
    requires t < |Delims|
    ensures |Delims[t]| > 0 && (Delims[t][0] == 'B' || Delims[t][0] == 'E')
    ensures forall k :: 0 <= k < |Delims[t]| ==> ('A' <= Delims[t][k] <= 'Z' || Delims[t][k] == '_')
  {
  }

  /** How the scan of `classify_statement` sees a word `w` followed by
      `rest`, where `rest` is empty or starts with whitespace. */
  lemma WordLine(w: string, rest: string)
    requires |w| > 0 && forall k :: 0 <= k < |w| ==> IsWordChar(w[k])
    requires rest == [] || IsSpace(rest[0])
    ensures var line := w + rest;
      SkipSpace(line, 0) == 0 && At(line, 0) != '\0' && TokenEnd(line, 0) == |w| &&
      At(line, |w|) != '=' && line[0..|w|] == w
  {
    var line := w + rest;
    SpanUnique(line, 0, 0, IsSpace);
    assert forall k :: 0 <= k < |w| ==> line[k] == w[k];
    SpanUnique(line, 1, |w|, IsWordChar);
    assert line[..|w|] == w;
  }

  /** Only whitespace follows `w` in `w + pad`. */
  lemma BlankAfter(w: string, pad: string)
    requires forall k :: 0 <= k < |pad| ==> IsSpace(pad[k])
    ensures Blank(w + pad, |w|)
  {
    var line := w + pad;
    assert forall k :: |w| <= k < |line| ==> line[k] == pad[k - |w|];
    SpanUnique(line, |w|, |line|, IsSpace);
  }

  /** The integer after `w` and one space in `w + " " + DecimalString(n)`
      is read back, with nothing after it. */
  lemma IndexAfter(w: string, n: int)
    ensures var line := w + " " + DecimalString(n);
      ParseLong(line, |w|) == Some(Scanned(n, |line|)) && Blank(line, |line|)
  {
    var line := w + " " + DecimalString(n);
    SpanUnique(line, |w|, |w| + 1, IsSpace);
    SpanUnique(line, |w| + 1, |w| + 1, IsSpace);
    assert line[|w| + 1..] == DecimalString(n);
    ParseLongDecimal(line, |w| + 1, n);
    SpanUnique(line, |line|, |line|, IsSpace);
  }

  /** How the scan of `classify_statement` sees a delimiter word followed
      by `rest`, where `rest` is empty or starts with whitespace. */
  lemma DelimLine(t: nat, rest: string)
    requires t < |Delims|
    requires rest == [] || IsSpace(rest[0])
    ensures var line := Delims[t] + rest;
      SkipSpace(line, 0) == 0 && At(line, 0) != '\0' && TokenEnd(line, 0) == |Delims[t]| &&
      At(line, |Delims[t]|) != '=' && line[0..|Delims[t]|] == Delims[t] && TokenType(Delims[t]) == t
  {
    DelimWordChars(t);
    WordLine(Delims[t], rest);
  }

  /** A line whose first token starts at index 0, ends at `e` and is not
      followed by '=' is classified by `NonAssignment`. */
  lemma ClassifyNonAssignment(line: string, e: nat)
    requires SkipSpace(line, 0) == 0 && At(line, 0) != '\0'
    requires 0 < |line| && TokenEnd(line, 0) == e && At(line, e) != '='
    requires NonAssignment(line, 0, e).Some?
    ensures ClassifyStatement(line) == NonAssignment(line, 0, e).value
  {
  }

  /** A delimiter that takes no index, followed by nothing but whitespace,
      is recognised as that delimiter (mcc-stmt.c:111-138). */
  lemma ClassifyBareDelim(t: nat, pad: string)
    requires t in {TokenBeginScanData, TokenBeginData, TokenEndData, TokenEndScanData}
    requires forall k :: 0 <= k < |pad| ==> IsSpace(pad[k])
    ensures var st := ClassifyStatement(Delims[t] + pad);
      (st.DelimBegin? || st.DelimEnd?) && DelimWord(st) == Delims[t] && st.index == None
  {
    var line := Delims[t] + pad;
    var e := |Delims[t]|;
    DelimLine(t, pad);
    BlankAfter(Delims[t], pad);
    var r := NonIndexedDelim(t, line, e);
    assert NonAssignment(line, 0, e) == r;
    ClassifyNonAssignment(line, e);
    NonIndexedWord(t, line, e);
  }

  /** A scan delimiter word `w` followed by a space and an integer. */
  lemma ScanDelimLine(w: string, t: int, n: int)
    requires t == TokenBeginScan || t == TokenEndScan
    requires |w| > 0 && forall k :: 0 <= k < |w| ==> IsWordChar(w[k])
    requires TokenType(w) == t
    ensures ClassifyStatement(w + " " + DecimalString(n)) ==
      if t == TokenBeginScan then DelimBegin(ScanDelim, Some(n)) else DelimEnd(ScanDelim, Some(n))
  {
    var line := w + " " + DecimalString(n);
    WordLine(w, " " + DecimalString(n));
    assert line == w + (" " + DecimalString(n));
    IndexAfter(w, n);
    var r := IndexedDelim(t, line, |w|);
    assert NonAssignment(line, 0, |w|) == r;
    ClassifyNonAssignment(line, |w|);
  }

  /** `BEGIN_SCAN n` and `END_SCAN n` are recognised with their index
      (mcc-stmt.c:88-109). */
  lemma ClassifyScanDelim(t: nat, n: int)
    requires t == TokenBeginScan || t == TokenEndScan
    ensures var st := ClassifyStatement(Delims[t] + " " + DecimalString(n));
      (st.DelimBegin? || st.DelimEnd?) && DelimWord(st) == Delims[t] && st.index == Some(n)
  {
    DelimWordChars(t);
    ScanDelimLine(Delims[t], t, n);
  }

  /** The text of a data line: position, separator, value, " #", index. */
  function DataLine(x: int, sep: string, y: int, i: int): string
  {
    DecimalString(x) + sep + DecimalString(y) + " #" + DecimalString(i)
  }

  /** `set_data_stmt` from the readings of its three numbers. */
  lemma DataStmtFrom(line: string, x: real, y: real, i: int, xe: nat, j: nat, ye: nat, k: nat)
    requires ParseDouble(line, 0) == Some(Scanned(x, xe)) && SkipSpace(line, xe) == j
    requires ParseDouble(line, j) == Some(Scanned(y, ye)) && SkipSpace(line, ye) == k
    requires At(line, k) == '#' && ParseLong(line, k + 1) == Some(Scanned(i, |line|))
    ensures DataStmt(line, 0) == Some(Data(x, y, i))
  {
    DataIndexFrom(line, x, y, i, ye, k);
  }

  /** The last stage of `set_data_stmt`: a '#' after the value and an index
      running to the end of the line. */
  lemma DataIndexFrom(line: string, x: real, y: real, i: int, ye: nat, k: nat)
    requires SkipSpace(line, ye) == k
    requires At(line, k) == '#' && ParseLong(line, k + 1) == Some(Scanned(i, |line|))
    ensures DataIndex(line, x, y, ye) == Some(Data(x, y, i))
  {
    SpanUnique(line, |line|, |line|, IsSpace);
  }

  /** Where the pieces of a data line sit. */
  lemma DataLinePieces(x: int, sep: string, y: int, i: int)
    requires sep == " " || (sep == [] && y < 0)
    ensures var line, X, Y := DataLine(x, sep, y, i), DecimalString(x), DecimalString(y);
      var j := |X| + |sep|;
      |X| + |sep| + |Y| + 2 + |DecimalString(i)| == |line| &&
      line[0..|X|] == X && At(line, |X|) == (if sep == [] then '-' else ' ') &&
      line[j..j + |Y|] == Y && At(line, j + |Y|) == ' ' && At(line, j + |Y| + 1) == '#' &&
      line[j + |Y| + 2..|line|] == DecimalString(i)
  {
    var X, Y, I := DecimalString(x), DecimalString(y), DecimalString(i);
    var line := DataLine(x, sep, y, i);
    var j := |X| + |sep|;
    assert line == (X + sep) + Y + (" #" + I);
    ThreePieces(X + sep, Y, " #" + I);
    assert line[0..|X|] == X by {
      assert line[0..|X|] == (X + sep)[0..|X|];
    }
    assert line[j + |Y| + 2..|line|] == I by {
      assert line[j + |Y| + 2..|line|] == (" #" + I)[2..];
    }
  }

  /** Where the middle and last of three joined pieces sit. */
  lemma ThreePieces(a: string, b: string, c: string)
    ensures var s := a + b + c;
      |s| == |a| + |b| + |c| && s[..|a|] == a && s[|a|..|a| + |b|] == b && s[|a| + |b|..] == c
  {
    var s := a + b + c;
    assert s == (a + b) + c;
    assert s[..|a| + |b|] == a + b;
    assert (a + b)[..|a|] == a && (a + b)[|a|..] == b;
  }

  /** `set_data_stmt` reads the three numbers of a data line back. */
  lemma DataStmtRoundTrip(x: int, sep: string, y: int, i: int)
    requires sep == " " || (sep == [] && y < 0)
    ensures DataStmt(DataLine(x, sep, y, i), 0) == Some(Data(x as real, y as real, i))
  {
    DataLinePieces(x, sep, y, i);
    DataSlices(DataLine(x, sep, y, i), x, y, i, |DecimalString(x)| + |sep|);
  }

  /** A line laid out as a data line: `x`, an optional space, `y` starting at
      `j`, then " #" and `i` up to the end. */
  lemma DataSlices(line: string, x: int, y: int, i: int, j: nat)
    requires var X := DecimalString(x); |X| <= j <= |X| + 1 && j <= |line| && line[0..|X|] == X
    requires j == |DecimalString(x)| + 1 ==> line[j - 1] == ' '
    requires j == |DecimalString(x)| ==> y < 0
    requires var Y := DecimalString(y); j + |Y| + 2 <= |line| && line[j..j + |Y|] == Y
    requires var e := j + |DecimalString(y)|; line[e] == ' ' && line[e + 1] == '#'
    requires var e := j + |DecimalString(y)| + 2; line[e..] == DecimalString(i)
    ensures DataStmt(line, 0) == Some(Data(x as real, y as real, i))
  {
    var X, Y := DecimalString(x), DecimalString(y);
    var ye := j + |Y|;
    DataIndexNumber(line, x as real, y as real, i, ye);
    assert line[j] == Y[0];
    DataFirstNumber(line, x, y, j);
    DataSecondNumber(line, x as real, y, j, |X|);
  }

  /** The position of a data line is read back, and what follows it is read
      from `xe`. */
  lemma DataFirstNumber(line: string, x: int, y: int, j: nat)
    requires var X := DecimalString(x); |X| <= j <= |X| + 1 && j < |line| && line[0..|X|] == X
    requires j == |DecimalString(x)| + 1 ==> line[j - 1] == ' '
    requires j == |DecimalString(x)| ==> line[j] == '-'
    requires !IsSpace(line[j])
    ensures DataStmt(line, 0) == DataAfterX(line, x as real, |DecimalString(x)|)
    ensures SkipSpace(line, |DecimalString(x)|) == j
  {
    var X := DecimalString(x);
    ParseDoubleDecimal(line, 0, x);
    SpanUnique(line, |X|, j, IsSpace);
  }

  /** The value of a data line, starting at `j` and followed by " #", is read
      back. */
  lemma DataSecondNumber(line: string, x: real, y: int, j: nat, xe: nat)
    requires SkipSpace(line, xe) == j
    requires var Y := DecimalString(y); j + |Y| + 2 <= |line| && line[j..j + |Y|] == Y
    requires line[j + |DecimalString(y)|] == ' '
    ensures DataAfterX(line, x, xe) == DataIndex(line, x, y as real, j + |DecimalString(y)|)
  {
    var ye := j + |DecimalString(y)|;
    assert ParseDouble(line, j) == Some(Scanned(y as real, ye)) by {
      ParseDoubleDecimal(line, j, y);
    }
  }

  /** The " #" and the index that ends a data line are read back. */
  lemma DataIndexNumber(line: string, x: real, y: real, i: int, ye: nat)
    requires ye + 2 <= |line| && line[ye] == ' ' && line[ye + 1] == '#'
    requires line[ye + 2..] == DecimalString(i)
    ensures DataIndex(line, x, y, ye) == Some(Data(x, y, i))
  {
    SpanUnique(line, ye, ye + 1, IsSpace);
    ParseLongDecimal(line, ye + 2, i);
    DataIndexFrom(line, x, y, i, ye, ye + 1);
  }

  /** A data line reads back as its position, value and index; the source
      also accepts a negative value written straight after the position,
      with no space between (mcc-stmt.c:140-181). */
  lemma ClassifyDataRoundTrip(x: int, sep: string, y: int, i: int)
    requires sep == " " || (sep == [] && y < 0)
    ensures ClassifyStatement(DataLine(x, sep, y, i)) == Data(x as real, y as real, i)
  {
    var line := DataLine(x, sep, y, i);
    DataLineChars(x, sep, y, i);
    SpanUnique(line, 0, 0, IsSpace);
    var e := TokenEnd(line, 0);
    NonAssignmentData(line, e);
    DataStmtRoundTrip(x, sep, y, i);
    ClassifyNonAssignment(line, e);
  }

  /** A first token that starts with a digit or '-' is no delimiter, so the
      line is read as data. */
  lemma NonAssignmentData(line: string, e: nat)
    requires 0 < e <= |line| && (IsDigit(line[0]) || line[0] == '-')
    ensures NonAssignment(line, 0, e) == DataStmt(line, 0)
  {
    TokenNotDelim(line[0..e]);
  }

  /** No delimiter starts with a digit or a '-'. */
  lemma TokenNotDelim(tok: string)
    requires |tok| > 0 && (IsDigit(tok[0]) || tok[0] == '-')
    ensures TokenType(tok) == TokenUnrecognized
  {
    forall t | 0 <= t < |Delims|
      ensures tok != Delims[t]
    {
      assert Delims[t][0] == 'B' || Delims[t][0] == 'E';
    }
  }

  /** A data line starts with a digit or '-' and holds no '='. */
  lemma DataLineChars(x: int, sep: string, y: int, i: int)
    requires sep == " " || sep == []
    ensures var line := DataLine(x, sep, y, i);
      |line| > 0 && (IsDigit(line[0]) || line[0] == '-') && forall k :: 0 <= k < |line| ==> line[k] != '='
  {
    var X, Y, I := DecimalString(x), DecimalString(y), DecimalString(i);
    var line := DataLine(x, sep, y, i);
    assert line == X + sep + Y + " #" + I;
    assert line[0] == X[0];
    forall k | 0 <= k < |line|
      ensures line[k] != '='
    {
      if k < |X| {
        assert line[k] == X[k];
      } else if k < |X| + |sep| {
        assert line[k] == sep[k - |X|];
      } else if k < |X| + |sep| + |Y| {
        assert line[k] == Y[k - |X| - |sep|];
      } else if k >= |X| + |sep| + |Y| + 2 {
        assert line[k] == I[k - |X| - |sep| - |Y| - 2];
      }
    }
  }
}
