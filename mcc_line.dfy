/** `fgetline_b` (src/proton/mcc/mcc-read.c:211-233) over the text of a file.
    The stream is the string `s` read from offset `p`; `fgetc` is stored in a
    plain `char`, so the end of file arrives as `(char)EOF`, which is the same
    character as a 0xFF byte in the text. */
module MccLine {
  import opened MccBuffer

  /** `(char)EOF`. */
  const EofChar: char := 0xFF as char

  /** What `fgetc` gives at offset `p`, as a `char`. */
  function Fgetc(s: string, p: nat): char
  {
    if p < |s| then s[p] else EofChar
  }

  /** The offset after an `fgetc` at `p`: reading at the end moves nothing. */
  function Advance(s: string, p: nat): nat
  {
    if p < |s| then p + 1 else p
  }

  /** The characters a call stores before the terminator, the offset it
      leaves the stream at, and whether it ran into the end of the file
      (what `feof` reports afterwards). */
  datatype LineRead = LineRead(chars: string, next: nat, eof: bool)

  /** The line `fgetline_b` reads from `p`. */
  function ReadLine(s: string, p: nat): (r: LineRead)
    requires p <= |s|
    ensures p <= r.next <= |s|
    ensures r.eof ==> r.next == |s|
    ensures !r.eof ==> p < r.next
    decreases |s| - p
  {
    var c := Fgetc(s, p);
    var p1 := Advance(s, p);
    if c == EofChar || c == '\n' then LineRead([], p1, p == |s|)
    else if c == '\r' then
      var c2 := Fgetc(s, p1);
      var p2 := Advance(s, p1);
      if c2 == '\n' then LineRead([], p2, false)
      else
        var rest := ReadLine(s, p2);
        LineRead(['\r', c2] + rest.chars, rest.next, rest.eof)
    else
      var rest := ReadLine(s, p1);
      LineRead([c] + rest.chars, rest.next, rest.eof)
  }

  /** Characters that neither end a line nor start a CR pair. */
  predicate Plain(s: string, p: nat, q: nat)
    requires p <= q <= |s|
  {
    forall k :: p <= k < q ==> s[k] != '\n' && s[k] != '\r' && s[k] != EofChar
  }

  /** A line ended by '\n', or by the end of the file, is stored without its
      ending. */
  lemma {:induction false} ReadPlainLine(s: string, p: nat, q: nat)
    requires p <= q <= |s| && Plain(s, p, q)
    requires q == |s| || s[q] == '\n'
    ensures ReadLine(s, p) == LineRead(s[p..q], if q == |s| then q else q + 1, q == |s|)
    decreases q - p
  {
    if p < q {
      ReadPlainLine(s, p + 1, q);
      assert s[p..q] == [s[p]] + s[p + 1..q];
    }
  }

  /** A line ended by "\r\n" is stored without the '\r'. */
  lemma {:induction false} ReadCrLfLine(s: string, p: nat, q: nat)
    requires p <= q && q + 1 < |s| && Plain(s, p, q)
    requires s[q] == '\r' && s[q + 1] == '\n'
    ensures ReadLine(s, p) == LineRead(s[p..q], q + 2, false)
    decreases q - p
  {
    if p < q {
      ReadCrLfLine(s, p + 1, q);
      assert s[p..q] == [s[p]] + s[p + 1..q];
    }
  }

  /** `fgetline_b` (mcc-read.c:212-233): the line from `p` followed by '\0'
      ends up in `lb`; `next` is where the stream is left and `atEnd` its
      end-of-file indicator. 1 when the buffer cannot grow. */
  method FGetLine(s: string, p: nat, lb: GrowBuffer<char>, allocOk: bool) returns (err: int, next: nat, atEnd: bool)
    requires p <= |s| && lb.Valid() && lb.Capacity() > 0
    modifies lb.Repr
    ensures lb.Valid() && fresh(lb.Repr - old(lb.Repr)) && lb.Capacity() > 0
    ensures err == 0 || err == 1
    ensures err == 0 ==> lb.Contents() == ReadLine(s, p).chars + ['\0']
    ensures err == 0 ==> next == ReadLine(s, p).next && atEnd == ReadLine(s, p).eof
    ensures err != 0 ==> !allocOk
  {
    lb.Reset();
    err, next, atEnd := ReadChars(s, p, lb, allocOk);
    if err == 0 {
      err := lb.PushBack('\0', allocOk);
    }
  }

  /** The loop of `fgetline_b`: appends the characters of the line from `p`
      to `lb`. */
  method ReadChars(s: string, p: nat, lb: GrowBuffer<char>, allocOk: bool) returns (err: int, next: nat, atEnd: bool)
    requires p <= |s| && lb.Valid() && lb.Capacity() > 0
    modifies lb.Repr
    ensures lb.Valid() && fresh(lb.Repr - old(lb.Repr)) && lb.Capacity() > 0
    ensures err == 0 || err == 1
    ensures err == 0 ==> lb.Contents() == old(lb.Contents()) + ReadLine(s, p).chars
    ensures err == 0 ==> next == ReadLine(s, p).next && atEnd == ReadLine(s, p).eof
    ensures err != 0 ==> !allocOk
  {
    var pos := p;
    while true
      invariant pos <= |s| && lb.Valid() && fresh(lb.Repr - old(lb.Repr)) && lb.Capacity() > 0
      invariant lb.Contents() + ReadLine(s, pos).chars == old(lb.Contents()) + ReadLine(s, p).chars
      invariant ReadLine(s, pos).next == ReadLine(s, p).next && ReadLine(s, pos).eof == ReadLine(s, p).eof
      decreases |s| - pos
    {
      var stop;
      err, pos, stop, atEnd := ReadStep(s, pos, lb, allocOk);
      if err != 0 {
        return err, pos, false;
      }
      if stop {
        break;
      }
    }
    next := pos;
    err := 0;
  }

  /** One pass of the loop of `fgetline_b` from `pos`: either the line ends
      here (`stop`, with `next` and `atEnd` what `ReadLine` gives), or one
      character, or a lone '\r' with the character after it, is appended and
      the rest of the line is read from `next`. The failure of the push of a
      lone '\r' is ignored, as in the source, but then the push of the
      character after it fails too. */
  method ReadStep(s: string, pos: nat, lb: GrowBuffer<char>, allocOk: bool)
    returns (err: int, next: nat, stop: bool, atEnd: bool)
    requires pos <= |s| && lb.Valid() && lb.Capacity() > 0
    modifies lb.Repr
    ensures lb.Valid() && fresh(lb.Repr - old(lb.Repr)) && lb.Capacity() > 0
    ensures err == 0 || err == 1
    ensures err != 0 ==> !allocOk
    ensures err == 0 && stop ==> lb.Contents() == old(lb.Contents()) && ReadLine(s, pos) == LineRead([], next, atEnd)
    ensures err == 0 && !stop ==> pos < next <= |s|
    ensures err == 0 && !stop ==> lb.Contents() + ReadLine(s, next).chars == old(lb.Contents()) + ReadLine(s, pos).chars
    ensures err == 0 && !stop ==> ReadLine(s, next).next == ReadLine(s, pos).next && ReadLine(s, next).eof == ReadLine(s, pos).eof
  {
    var c := Fgetc(s, pos);
    next := Advance(s, pos);
    stop, atEnd := false, false;
    if c == EofChar || c == '\n' {
      return 0, next, true, pos == |s|;
    } else if c == '\r' {
      c := Fgetc(s, next);
      next := Advance(s, next);
      if c == '\n' {
        return 0, next, true, false;
      }
      err := PushCrPair(lb, c, allocOk);
      return err, next, false, false;
    }
    err := lb.PushBack(c, allocOk);
    if err != 0 {
      return;
    }
    assert lb.Contents() + ReadLine(s, next).chars == old(lb.Contents()) + ([c] + ReadLine(s, next).chars);
  }

  /** The push of a lone '\r' and of the character `c` after it; the
      failure of the first push is ignored, as in the source, but then the
      second push fails too. */
  method PushCrPair(lb: GrowBuffer<char>, c: char, allocOk: bool) returns (err: int)
    requires lb.Valid() && lb.Capacity() > 0
    modifies lb.Repr
    ensures lb.Valid() && fresh(lb.Repr - old(lb.Repr)) && lb.Capacity() > 0
    ensures err == 0 || err == 1
    ensures err != 0 ==> !allocOk
    ensures err == 0 ==> lb.Contents() == old(lb.Contents()) + ['\r', c]
  {
    var ignored := lb.PushBack('\r', allocOk);
    err := lb.PushBack(c, allocOk);
    if err == 0 && ignored != 0 {
      assert false;
    }
  }
}
