/** The line classifier of the single-pass MCC loader,
    src/proton/mcc-data.c lines 45-60 and 160-305: the error strings, the
    whitespace tokenizer, the range comparison, and the three classifiers
    tried in order (assignment, data pair, delimiter). A line is the text
    `fgets` stored; as in CText, indices past its end read NUL. */
module MccDataLex {
  import opened Wrappers
  import opened CText

  const ErrNone: int := 0
  const ErrNoMem: int := 1
  const ErrFopenFailed: int := 2
  const ErrMismatchedDelim: int := 3
  const ErrMissingOffaxis: int := 4
  const ErrMissingCrosscal: int := 5
  const ErrMalformedAttribute: int := 6
  const ErrUnclassifiable: int := 7

  /** `errstrings`: no message for `MCC_ERROR_NONE`, then one per error. */
  const ErrorStrings: seq<Option<string>> := [
    None,
    Some("Allocation failure: Out of memory"),
    Some("File failed to open: No such file or directory"),
    Some("Mismatched delimiter sequence"),
    Some("Scan is missing OFFAXIS_INPLANE attribute"),
    Some("Missing cross calibration"),
    Some("Attribute value is malformed/cannot be parsed"),
    Some("Unclassifiable statement")
  ]

  /** `mcc_get_error`: a message exactly for the codes the loader reports,
      none for `MCC_ERROR_NONE` or any other number. */
  function GetError(err: int): (r: Option<string>)
    ensures r.Some? <==> ErrNoMem <= err <= ErrUnclassifiable
    ensures r.Some? ==> |r.value| > 0
  {
    if 0 < err < |ErrorStrings| then ErrorStrings[err] else None
  }

  /** Distinct codes have distinct messages. */
  lemma ErrorStringsDistinct(e1: int, e2: int)
    requires ErrNoMem <= e1 < e2 <= ErrUnclassifiable
    ensures GetError(e1) != GetError(e2)
  {
    assert ErrorStrings[e1].value[0..4] != ErrorStrings[e2].value[0..4] ||
      ErrorStrings[e1].value != ErrorStrings[e2].value;
  }

  /** A character that can belong to a token: not whitespace, not the
      terminator. */
  predicate TokenChar(c: char)
  {
    c != '\0' && !IsSpace(c)
  }

  /** The half-open index range `[begin, end)` of a token. */
  datatype Token = Token(begin: nat, end: nat)

  /** `strtok_ws`: skip whitespace from `i`; at the terminator there is no
      token (both pointers NULL), otherwise the token runs to the next
      whitespace or terminator. */
  function StrtokWs(s: string, i: nat): (r: Option<Token>)
    ensures r.None? <==> At(s, SkipSpace(s, i)) == '\0'
    ensures r.Some? ==> r.value.begin == SkipSpace(s, i) && r.value.begin < r.value.end <= |s|
    ensures r.Some? ==> forall k :: r.value.begin <= k < r.value.end ==> TokenChar(s[k])
    ensures r.Some? ==> !TokenChar(At(s, r.value.end))
  {
    var b := SkipSpace(s, i);
    if At(s, b) == '\0' then None
    else
      SpanAll(s, b, TokenChar);
      Some(Token(b, Span(s, b, TokenChar)))
  }

  /** A word of token characters after some whitespace, and followed by
      whitespace or nothing, is the token `strtok_ws` finds. */
  lemma TokenOfWord(pad: string, w: string, rest: string)
    requires forall k :: 0 <= k < |pad| ==> IsSpace(pad[k])
    requires |w| > 0 && forall k :: 0 <= k < |w| ==> TokenChar(w[k])
    requires rest == [] || IsSpace(rest[0])
    ensures StrtokWs(pad + w + rest, 0) == Some(Token(|pad|, |pad| + |w|))
  {
    var s := pad + w + rest;
    assert forall k :: 0 <= k < |pad| ==> s[k] == pad[k];
    assert forall k :: |pad| <= k < |pad| + |w| ==> s[k] == w[k - |pad|];
    assert s[|pad|] == w[0];
    SpanUnique(s, 0, |pad|, IsSpace);
    assert At(s, |pad| + |w|) == if rest == [] then '\0' else rest[0];
    SpanUnique(s, |pad|, |pad| + |w|, TokenChar);
  }

  /** `strcmprng(s + s1, s + s2, lit + k)`: walk the range and the C string
      together, failing at the first differing character. */
  function StrCmpRng(s: string, s1: nat, s2: nat, lit: string, k: nat): (r: bool)
    requires s1 <= s2 <= |s| && k <= |lit|
    ensures r <==> s[s1..s2] == CString(lit, k)
    decreases s2 - s1
  {
    var c := CString(lit, k);
    if s1 < s2 && At(lit, k) != '\0' then
      CStringStep(lit, k);
      if At(s, s1) == At(lit, k) then
        var r := StrCmpRng(s, s1 + 1, s2, lit, k + 1);
        assert s[s1..s2] == [s[s1]] + s[s1 + 1..s2];
        r
      else
        assert s[s1..s2][0] != c[0];
        false
    else
      assert At(lit, k) == '\0' ==> c == [];
      assert s1 == s2 ==> s[s1..s2] == [];
      s1 == s2 && At(lit, k) == '\0'
  }

  /** A C string that does not start at its terminator is its first
      character followed by the rest. */
  lemma CStringStep(lit: string, k: nat)
    requires k < |lit| && lit[k] != '\0'
    ensures CString(lit, k) == [lit[k]] + CString(lit, k + 1)
  {
    assert Span(lit, k, NonNul) == Span(lit, k + 1, NonNul);
  }

  /** The six delimiters, in the order of the `delims` table. */
  datatype Delim = ScanOpen | DataOpen | ScanClose | DataClose | FileOpen | FileClose

  const DelimWords: seq<string> :=
    ["BEGIN_SCAN", "BEGIN_DATA", "END_SCAN", "END_DATA", "BEGIN_SCAN_DATA", "END_SCAN_DATA"]

  /** The delimiter's value in the C enumeration (its index in `delims`). */
  function DelimCode(d: Delim): (n: nat)
    ensures n < |DelimWords|
  {
    match d
    case ScanOpen => 0
    case DataOpen => 1
    case ScanClose => 2
    case DataClose => 3
    case FileOpen => 4
    case FileClose => 5
  }

  /** The delimiter with enumeration value `n`. */
  function DelimOf(n: nat): (d: Delim)
    requires n < |DelimWords|
    ensures DelimCode(d) == n
  {
    [ScanOpen, DataOpen, ScanClose, DataClose, FileOpen, FileClose][n]
  }

  /** The word that spells a delimiter. */
  function DelimWord(d: Delim): string
  {
    DelimWords[DelimCode(d)]
  }

  /** The loop over `delims` in `mcc_data_classify_delim`, from entry `i`:
      the first entry equal to the token `s[b..e]`. */
  function FindDelim(s: string, b: nat, e: nat, i: nat): (r: Option<nat>)
    requires b <= e <= |s|
    ensures r.Some? ==> i <= r.value < |DelimWords| && s[b..e] == DelimWords[r.value]
    ensures r.None? ==> forall j :: i <= j < |DelimWords| ==> s[b..e] != DelimWords[j]
    decreases |DelimWords| - i
  {
    if i >= |DelimWords| then None
    else if StrCmpRng(s, b, e, DelimWords[i], 0) then
      NulFreeWord(i);
      Some(i)
    else
      NulFreeWord(i);
      FindDelim(s, b, e, i + 1)
  }

  /** The delimiter words are their own C strings. */
  lemma NulFreeWord(i: nat)
    requires i < |DelimWords|
    ensures CString(DelimWords[i], 0) == DelimWords[i]
  {
    var w := DelimWords[i];
    assert forall k :: 0 <= k < |w| ==> NonNul(w[k]);
    SpanUnique(w, 0, |w|, NonNul);
  }

  /** The six words are pairwise different, so the first match is the only
      one. */
  lemma DelimWordsDistinct()
    ensures forall i, j :: 0 <= i < j < |DelimWords| ==> DelimWords[i] != DelimWords[j]
  {
    assert DelimWords[0][6] == 'S' && DelimWords[1][6] == 'D';
    assert DelimWords[2][4] == 'S' && DelimWords[3][4] == 'D';
  }

  /** A classified statement: `struct mcc_stmt` with its type tag. */
  datatype Statement =
    | DelimStmt(d: Delim)
    | KeyVal(key: string, val: string)
    | DataStmt(pos: real, dose: real)
    | Invalid

  predicate NotEquals(c: char)
  {
    c != '='
  }

  predicate NotNewline(c: char)
  {
    c != '\n'
  }

  /** `strlnterm`: the text cut at its first newline. */
  function LineTerm(v: string): (r: string)
    ensures '\n' !in r
    ensures r <= v && (|r| < |v| ==> v[|r|] == '\n')
  {
    SpanAll(v, 0, NotNewline);
    v[..Span(v, 0, NotNewline)]
  }

  /** `mcc_data_classify_assignment`: split the C string at its first '=';
      the value is cut at the newline. */
  function ClassifyAssignment(s: string): (r: Option<(string, string)>)
    ensures r.Some? <==> '=' in CString(s, 0)
    ensures r.Some? ==> var (key, val) := r.value;
      '=' !in key && |key| < |CString(s, 0)| && CString(s, 0)[..|key| + 1] == key + "=" &&
      val == LineTerm(CString(s, 0)[|key| + 1..])
  {
    var c := CString(s, 0);
    var eq := Span(c, 0, NotEquals);
    SpanAll(c, 0, NotEquals);
    if eq == |c| then
      assert forall k :: 0 <= k < |c| ==> c[k] != '=';
      None
    else
      assert c[..eq + 1] == c[..eq] + "=";
      Some((c[..eq], LineTerm(c[eq + 1..])))
  }

  /** `mcc_data_classify_data`: the first two tokens must each be read
      completely by `strtod`. */
  function ClassifyData(s: string): (r: Option<(real, real)>)
    ensures r.Some? ==> StrtokWs(s, 0).Some? && StrtokWs(s, StrtokWs(s, 0).value.end).Some?
  {
    match StrtokWs(s, 0)
    case None => None
    case Some(t1) =>
      match ParseDouble(s, t1.begin)
      case None => None
      case Some(x) =>
        if x.end != t1.end then None
        else
          match StrtokWs(s, t1.end)
          case None => None
          case Some(t2) =>
            match ParseDouble(s, t2.begin)
            case None => None
            case Some(y) => if y.end != t2.end then None else Some((x.value, y.value))
  }

  /** `mcc_data_classify_delim`: the first token is one of the six words. */
  function ClassifyDelim(s: string): (r: Option<Delim>)
    ensures r.Some? <==>
      (StrtokWs(s, 0).Some? && var t := StrtokWs(s, 0).value; s[t.begin..t.end] in DelimWords)
    ensures r.Some? ==> var t := StrtokWs(s, 0).value; s[t.begin..t.end] == DelimWord(r.value)
  {
    match StrtokWs(s, 0)
    case None => None
    case Some(t) =>
      match FindDelim(s, t.begin, t.end, 0)
      case None => None
      case Some(i) => Some(DelimOf(i))
  }

  /** `mcc_data_classify_statement`: assignment first, then data, then
      delimiter; anything else is invalid. */
  function ClassifyStatement(s: string): Statement
  {
    match ClassifyAssignment(s)
    case Some((key, val)) => KeyVal(key, val)
    case None =>
      match ClassifyData(s)
      case Some((pos, dose)) => DataStmt(pos, dose)
      case None =>
        match ClassifyDelim(s)
        case Some(d) => DelimStmt(d)
        case None => Invalid
  }

  /** `strltrim`: the index of the first character that is not whitespace. */
  function LTrim(s: string): (j: nat)
    ensures j <= |s| && !IsSpace(At(s, j))
    ensures forall k :: 0 <= k < j ==> IsSpace(s[k])
  {
    SkipSpace(s, 0)
  }

  /** What the loader does with a line it read: trim, then classify. */
  function ClassifyLine(line: string): Statement
  {
    ClassifyStatement(line[LTrim(line)..])
  }

  /** The classification order: a line is an assignment exactly when its C
      string holds '=', a data pair exactly when it is not an assignment and
      both numbers read, a delimiter exactly when neither and its first
      token is one of the six words. */
  lemma ClassificationOrder(s: string)
    ensures ClassifyStatement(s).KeyVal? <==> '=' in CString(s, 0)
    ensures ClassifyStatement(s).DataStmt? <==> '=' !in CString(s, 0) && ClassifyData(s).Some?
    ensures ClassifyStatement(s).DelimStmt? <==>
      '=' !in CString(s, 0) && ClassifyData(s).None? && ClassifyDelim(s).Some?
    ensures ClassifyStatement(s).Invalid? <==>
      '=' !in CString(s, 0) && ClassifyData(s).None? && ClassifyDelim(s).None?
  {
  }

  /** A line of whitespace only (an empty line included) is invalid. */
  lemma BlankLineInvalid(s: string)
    requires forall k :: 0 <= k < |s| ==> IsSpace(s[k])
    ensures ClassifyLine(s) == Invalid
  {
    var t := s[LTrim(s)..];
    assert t == [];
    assert CString(t, 0) == [];
  }

  /** A text without NUL is its own C string. */
  lemma WholeCString(s: string)
    requires '\0' !in s
    ensures CString(s, 0) == s
  {
    assert forall k :: 0 <= k < |s| ==> NonNul(s[k]);
    SpanUnique(s, 0, |s|, NonNul);
  }

  /** A value followed by its newline is cut back to the value. */
  lemma TermAtNewline(val: string)
    requires '\n' !in val
    ensures LineTerm(val + "\n") == val
  {
    var v := val + "\n";
    var r := LineTerm(v);
    assert forall i :: 0 <= i < |r| ==> r[i] == v[i] && r[i] in r;
    assert v[|val|] == '\n';
    assert forall i :: 0 <= i < |val| ==> v[i] == val[i];
    if |r| < |val| {
      assert false;
    }
    if |r| > |val| {
      assert false;
    }
    assert r == v[..|val|];
  }

  /** A text has one key before its first '=': two prefixes free of '='
      that the text continues with '=' are the same. */
  lemma FirstEquals(s: string, key: string, k1: string)
    requires '=' !in key && '=' !in k1
    requires |key| < |s| && s[..|key| + 1] == key + "="
    requires |k1| < |s| && s[..|k1| + 1] == k1 + "="
    ensures k1 == key
  {
    assert s[|key|] == (key + "=")[|key|] == '=';
    assert s[|k1|] == (k1 + "=")[|k1|] == '=';
    assert forall i :: 0 <= i < |key| ==> s[i] == (key + "=")[i] == key[i] && key[i] in key;
    assert forall i :: 0 <= i < |k1| ==> s[i] == (k1 + "=")[i] == k1[i] && k1[i] in k1;
    if |k1| < |key| {
      assert false;
    }
    if |k1| > |key| {
      assert false;
    }
    assert k1 == s[..|key|] == key;
  }

  /** The pieces of an assignment line: the whole line is its C string,
      the key and '=' start it, the value and newline end it. */
  lemma AssignmentText(key: string, val: string)
    requires '\0' !in key && '\0' !in val
    ensures var s := key + "=" + val + "\n";
      CString(s, 0) == s && s[..|key| + 1] == key + "=" && s[|key| + 1..] == val + "\n" && s[|key|] in s
  {
    var s := key + "=" + val + "\n";
    assert s == key + ("=" + val + "\n");
    WholeCString(s);
    assert s[|key|] == '=';
  }

  /** The C string of an assignment line splits at the '=' that ends the
      key. */
  lemma AssignmentSplit(key: string, val: string)
    requires '=' !in key && '\0' !in key
    requires '\n' !in val && '\0' !in val
    ensures ClassifyAssignment(key + "=" + val + "\n") == Some((key, val))
  {
    var s := key + "=" + val + "\n";
    AssignmentText(key, val);
    var r := ClassifyAssignment(s);
    FirstEquals(s, key, r.value.0);
    TermAtNewline(val);
  }

  /** An assignment line reads back as its key and value: the key is
      everything before the first '=', the value stops at the newline. */
  lemma AssignmentRoundTrip(key: string, val: string)
    requires '=' !in key && '\0' !in key
    requires '\n' !in val && '\0' !in val
    ensures ClassifyStatement(key + "=" + val + "\n") == KeyVal(key, val)
  {
    AssignmentSplit(key, val);
  }

  /** A letter cannot start a number, so a delimiter word is never read as
      data. */
  lemma WordNotNumber(s: string, i: nat)
    requires i < |s| && 'A' <= s[i] <= 'Z'
    ensures ParseDouble(s, i) == None
  {
    SpanUnique(s, i, i, IsSpace);
    SpanUnique(s, i, i, IsDigit);
  }

  /** A line without '=' or NUL is its own C string and no assignment. */
  lemma NoAssignment(s: string)
    requires '=' !in s && '\0' !in s
    ensures CString(s, 0) == s && ClassifyAssignment(s) == None
  {
    assert forall k :: 0 <= k < |s| ==> NonNul(s[k]);
    SpanUnique(s, 0, |s|, NonNul);
  }

  /** A delimiter word is spelled in capitals and underscores. */
  lemma DelimWordChars(d: Delim)
    ensures |DelimWord(d)| > 0
    ensures forall k :: 0 <= k < |DelimWord(d)| ==> 'A' <= DelimWord(d)[k] <= 'Z' || DelimWord(d)[k] == '_'
  {
    match d
    case ScanOpen =>
    case DataOpen =>
    case ScanClose =>
    case DataClose =>
    case FileOpen =>
    case FileClose =>
  }

  /** The token of a line holding only a delimiter word. */
  lemma DelimLineToken(d: Delim)
    ensures StrtokWs(DelimWord(d) + "\n", 0) == Some(Token(0, |DelimWord(d)|))
    ensures '=' !in DelimWord(d) + "\n" && '\0' !in DelimWord(d) + "\n"
    ensures forall k :: 0 <= k < |DelimWord(d)| ==> 'A' <= DelimWord(d)[k] <= 'Z' || DelimWord(d)[k] == '_'
  {
    var w := DelimWord(d);
    DelimWordChars(d);
    assert forall k :: 0 <= k < |w| ==> TokenChar(w[k]);
    TokenOfWord([], w, "\n");
    assert [] + w + "\n" == w + "\n";
  }

  /** The word of a delimiter is found at that delimiter's own entry. */
  lemma FindDelimWord(d: Delim)
    ensures var s := DelimWord(d) + "\n";
      ClassifyDelim(s) == Some(d)
  {
    var w := DelimWord(d);
    var s := w + "\n";
    DelimLineToken(d);
    assert s[0..|w|] == w;
    DelimWordsDistinct();
    var r := FindDelim(s, 0, |w|, 0);
    assert r == Some(DelimCode(d));
    assert DelimOf(DelimCode(d)) == d;
  }

  /** A delimiter word on a line of its own reads back as that delimiter. */
  lemma DelimiterRoundTrip(d: Delim)
    ensures ClassifyStatement(DelimWord(d) + "\n") == DelimStmt(d)
  {
    var s := DelimWord(d) + "\n";
    DelimLineToken(d);
    NoAssignment(s);
    WordNotNumber(s, 0);
    assert ClassifyData(s) == None;
    FindDelimWord(d);
  }

  /** The first token and number of a line holding two integers. */
  lemma DataLineFirst(a: string, x: int, rest: string)
    requires a == DecimalString(x) && |rest| > 0 && rest[0] == ' '
    ensures StrtokWs(a + rest, 0) == Some(Token(0, |a|))
    ensures ParseDouble(a + rest, 0) == Some(Scanned(x as real, |a|))
  {
    var s := a + rest;
    TokenOfWord([], a, rest);
    assert [] + a + rest == s;
    assert s[..|a|] == a;
    ParseDoubleDecimal(s, 0, x);
  }

  /** The second token and number of a line holding two integers. */
  lemma DataLineSecond(a: string, b: string, y: int)
    requires b == DecimalString(y)
    ensures var s := a + " " + b + "\n";
      StrtokWs(s, |a|) == Some(Token(|a| + 1, |a| + 1 + |b|)) &&
      ParseDouble(s, |a| + 1) == Some(Scanned(y as real, |a| + 1 + |b|))
  {
    var s := a + " " + b + "\n";
    var e := |a| + 1 + |b|;
    assert s[|a| + 1..e] == b && s[e] == '\n';
    assert StrtokWs(s, |a|) == Some(Token(|a| + 1, e)) by {
      assert forall k :: |a| + 1 <= k < e ==> s[k] == b[k - |a| - 1];
      assert s[|a|] == ' ';
      SpanUnique(s, |a|, |a| + 1, IsSpace);
      SpanUnique(s, |a| + 1, e, TokenChar);
    }
    ParseDoubleDecimal(s, |a| + 1, y);
  }

  /** A line of two integers holds no '=' and no NUL. */
  lemma DataLineChars(a: string, b: string)
    requires a == [] || IsDigit(a[0]) || a[0] == '-'
    requires forall k :: 1 <= k < |a| ==> IsDigit(a[k])
    requires b == [] || IsDigit(b[0]) || b[0] == '-'
    requires forall k :: 1 <= k < |b| ==> IsDigit(b[k])
    ensures '=' !in a + " " + b + "\n" && '\0' !in a + " " + b + "\n"
  {
    var s := a + " " + b + "\n";
    forall k | 0 <= k < |s| ensures s[k] != '=' && s[k] != '\0' {
      if k < |a| {
        assert s[k] == a[k];
      } else if |a| < k < |a| + 1 + |b| {
        assert s[k] == b[k - |a| - 1];
      }
    }
  }

  /** Both numbers of a line of two integers read back. */
  lemma DataLineClassified(x: int, y: int)
    ensures var s := DecimalString(x) + " " + DecimalString(y) + "\n";
      ClassifyData(s) == Some((x as real, y as real))
  {
    var a := DecimalString(x);
    var b := DecimalString(y);
    var s := a + " " + b + "\n";
    DataLineFirst(a, x, " " + b + "\n");
    assert a + (" " + b + "\n") == s;
    DataLineSecond(a, b, y);
  }

  /** Two integers separated by a space read back as a data pair. */
  lemma DataRoundTrip(x: int, y: int)
    ensures ClassifyStatement(DecimalString(x) + " " + DecimalString(y) + "\n") ==
      DataStmt(x as real, y as real)
  {
    var s := DecimalString(x) + " " + DecimalString(y) + "\n";
    DataLineChars(DecimalString(x), DecimalString(y));
    NoAssignment(s);
    DataLineClassified(x, y);
  }
}
