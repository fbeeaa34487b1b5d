/*
 * readCalLine: read one logical content line from the input, joining
 * folded physical lines, skipping lines that are only white space, and
 * reporting the physical line range it came from.
 *
 * The input is the octets not yet read; the result carries the octets left
 * over.  The module-level lineCount of the C is an explicit argument and
 * result.
 */
module LineReader {
  import opened CalTypes
  import opened Folding

  /** The outcome of one readCalLine call: *pbuff is `line`, NULL as None. */
  datatype LineRead = LineRead(status: CalStatus, line: Option<string>, rest: string, lineCount: int)

  /** rest is what is left of s after reading some octets from its front. */
  predicate IsSuffix(rest: string, s: string) {
    |rest| <= |s| && rest == s[|s| - |rest|..]
  }

  /** The next octet would continue a folded line. */
  predicate StartsFold(s: string) {
    |s| > 0 && (s[0] == ' ' || s[0] == '\t')
  }

  /**
   * The read loop after at least one octet has been read: buf holds the
   * octets of the logical line so far, cr whether the previous octet was a
   * CR, folded how many line breaks were folds.
   */
  function Scan(s: string, buf: string, cr: bool, folded: nat, lc: int): (r: LineRead)
    requires NoCrLf(buf)
    ensures r.status.code == OK || r.status.code == NOCRNL
    ensures r.line.Some? ==> r.status.code == OK && HasNonSpace(r.line.value) && NoCrLf(r.line.value)
    ensures r.status.code == NOCRNL ==> r.line.None?
    ensures r.line.None? && r.status.code == OK ==> r.rest == []
    ensures r.status.lineto == r.lineCount >= lc
    ensures lc - folded <= r.status.linefrom <= r.status.lineto
    ensures r.line.Some? ==> r.status.linefrom >= lc - folded + 1
    ensures IsSuffix(r.rest, s) && (|s| > 0 ==> |r.rest| < |s|)
    decreases |s|
  {
    if |s| == 0 then
      var lc' := lc + 1;
      LineRead(CalStatus(OK, lc' - folded, lc'), if HasNonSpace(buf) then Some(buf) else None, [], lc')
    else if s[0] == '\r' then
      Scan(s[1..], buf, true, folded, lc)
    else if s[0] == '\n' && cr then
      var lc' := lc + 1;
      if StartsFold(s[1..]) then
        Scan(s[2..], buf, false, folded + 1, lc')
      else if HasNonSpace(buf) then
        LineRead(CalStatus(OK, lc' - folded, lc'), Some(buf), s[1..], lc')
      else
        Scan(s[1..], buf, false, folded, lc')
    else if s[0] == '\n' || cr then
      LineRead(CalStatus(NOCRNL, lc - folded, lc), None, s[1..], lc)
    else
      Scan(s[1..], buf + [s[0]], false, folded, lc)
  }

  /**
   * readCalLine.  An OK status with no line means the input is used up;
   * a line, when there is one, is never blank and holds no CR or LF.
   */
  function ReadCalLine(input: string, lc: int): (r: LineRead)
    ensures r.status.code == OK || r.status.code == NOCRNL
    ensures r.line.Some? ==> r.status.code == OK && HasNonSpace(r.line.value) && NoCrLf(r.line.value)
    ensures r.status.code == NOCRNL ==> r.line.None?
    ensures r.line.None? && r.status.code == OK ==> r.rest == []
    ensures r.status.lineto == r.lineCount >= lc
    ensures lc <= r.status.linefrom <= r.status.lineto
    ensures r.line.Some? ==> r.status.linefrom >= lc + 1
    ensures IsSuffix(r.rest, input) && (|input| > 0 ==> |r.rest| < |input|)
    ensures |input| == 0 ==> r == LineRead(StatusAt(OK, lc), None, [], lc)
  {
    if |input| == 0 then LineRead(StatusAt(OK, lc), None, [], lc)
    else Scan(input, [], false, 0, lc)
  }

  // -----------------------------------------------------------------------
  // How Scan consumes the pieces of a content line
  // -----------------------------------------------------------------------

  /** Ordinary octets are appended to the line being built. */
  lemma {:induction false} ScanPlain(a: string, rest: string, buf: string, folded: nat, lc: int)
    requires NoCrLf(buf) && NoCrLf(a)
    ensures NoCrLf(buf + a)
    ensures Scan(a + rest, buf, false, folded, lc) == Scan(rest, buf + a, false, folded, lc)
    decreases |a|
  {
    if |a| == 0 {
      assert a + rest == rest;
      assert buf + a == buf;
    } else {
      assert (a + rest)[0] == a[0];
      assert (a + rest)[1..] == a[1..] + rest;
      assert buf + [a[0]] + a[1..] == buf + a;
      ScanPlain(a[1..], rest, buf + [a[0]], folded, lc);
    }
  }

  /** CR LF not followed by a space or tab ends a non-blank line. */
  lemma CrLfEndsLine(t: string, buf: string, folded: nat, lc: int)
    requires NoCrLf(buf) && HasNonSpace(buf) && !StartsFold(t)
    ensures Scan("\r\n" + t, buf, false, folded, lc)
         == LineRead(CalStatus(OK, lc + 1 - folded, lc + 1), Some(buf), t, lc + 1)
  {
    assert ("\r\n" + t)[1..] == "\n" + t;
    assert ("\n" + t)[1..] == t;
  }

  /** CR LF followed by a space or tab is a fold: both are dropped. */
  lemma CrLfFolds(t: string, buf: string, folded: nat, lc: int)
    requires NoCrLf(buf) && StartsFold(t)
    ensures Scan("\r\n" + t, buf, false, folded, lc) == Scan(t[1..], buf, false, folded + 1, lc + 1)
  {
    assert ("\r\n" + t)[1..] == "\n" + t;
    assert ("\n" + t)[1..] == t;
    assert ("\n" + t)[2..] == t[1..];
  }

  /** Dropping the space that starts the second physical line keeps the shape. */
  lemma DropFoldSpace(segs: seq<string>)
    requires ContinuationShaped(segs) && |segs| >= 2
    requires forall k :: 0 <= k < |segs| ==> NoCrLf(segs[k])
    ensures var next := [segs[1][1..]] + segs[2..];
      && ContinuationShaped(next)
      && (forall k :: 0 <= k < |next| ==> NoCrLf(next[k]))
      && Unfold(segs) == segs[0] + Unfold(next)
  {
    var next := [segs[1][1..]] + segs[2..];
    assert forall k :: 1 <= k < |next| ==> next[k] == segs[k + 1];
    assert NoCrLf(next[0]);
  }

  /** The text after the first CR LF of a folded line starts with the fold space. */
  lemma DropFoldText(segs: seq<string>, rest: string)
    requires ContinuationShaped(segs) && |segs| >= 2
    ensures StartsFold(JoinCrLf(segs[1..]) + rest)
    ensures (JoinCrLf(segs[1..]) + rest)[1..] == JoinCrLf([segs[1][1..]] + segs[2..]) + rest
  {
    var next := [segs[1][1..]] + segs[2..];
    assert JoinCrLf(segs[1..]) == segs[1] + "\r\n" + JoinCrLf(segs[2..]);
    assert next[1..] == segs[2..];
    assert JoinCrLf(next) == segs[1][1..] + "\r\n" + JoinCrLf(segs[2..]);
    assert segs[1] == [' '] + segs[1][1..];
  }

  /** The first physical line is read into the buffer up to its CR LF. */
  lemma ScanFirstSegment(segs: seq<string>, rest: string, buf: string, folded: nat, lc: int)
    requires |segs| >= 1 && NoCrLf(segs[0]) && NoCrLf(buf)
    ensures NoCrLf(buf + segs[0])
    ensures Scan(JoinCrLf(segs) + rest, buf, false, folded, lc)
         == Scan("\r\n" + (JoinCrLf(segs[1..]) + rest), buf + segs[0], false, folded, lc)
  {
    assert JoinCrLf(segs) == segs[0] + CRLF + JoinCrLf(segs[1..]);
    Assoc4(segs[0], CRLF, JoinCrLf(segs[1..]), rest);
    Assoc(CRLF, JoinCrLf(segs[1..]), rest);
    ScanPlain(segs[0], "\r\n" + (JoinCrLf(segs[1..]) + rest), buf, folded, lc);
  }

  /** A fold between the first two physical lines is dropped. */
  lemma ScanFoldStep(segs: seq<string>, rest: string, buf: string, folded: nat, lc: int)
    requires ContinuationShaped(segs) && |segs| >= 2
    requires forall k :: 0 <= k < |segs| ==> NoCrLf(segs[k])
    requires NoCrLf(buf)
    ensures var next := [segs[1][1..]] + segs[2..];
      && ContinuationShaped(next)
      && (forall k :: 0 <= k < |next| ==> NoCrLf(next[k]))
      && NoCrLf(buf + segs[0])
      && buf + segs[0] + Unfold(next) == buf + Unfold(segs)
      && Scan(JoinCrLf(segs) + rest, buf, false, folded, lc)
         == Scan(JoinCrLf(next) + rest, buf + segs[0], false, folded + 1, lc + 1)
  {
    var next := [segs[1][1..]] + segs[2..];
    ScanFirstSegment(segs, rest, buf, folded, lc);
    DropFoldSpace(segs);
    DropFoldText(segs, rest);
    CrLfFolds(JoinCrLf(segs[1..]) + rest, buf + segs[0], folded, lc);
    Assoc(buf, segs[0], Unfold(next));
  }

  /** Folded physical lines are read back as the line they were folded from. */
  lemma {:induction false} ScanJoined(segs: seq<string>, rest: string, buf: string, folded: nat, lc: int)
    requires ContinuationShaped(segs)
    requires forall k :: 0 <= k < |segs| ==> NoCrLf(segs[k])
    requires NoCrLf(buf) && !StartsFold(rest)
    requires HasNonSpace(buf + Unfold(segs))
    ensures Scan(JoinCrLf(segs) + rest, buf, false, folded, lc)
         == LineRead(CalStatus(OK, lc + 1 - folded, lc + |segs|), Some(buf + Unfold(segs)), rest, lc + |segs|)
    decreases |segs|
  {
    if |segs| == 1 {
      ScanFirstSegment(segs, rest, buf, folded, lc);
      assert JoinCrLf(segs[1..]) + rest == rest;
      assert Unfold(segs) == segs[0];
      CrLfEndsLine(rest, buf + segs[0], folded, lc);
    } else {
      var next := [segs[1][1..]] + segs[2..];
      ScanFoldStep(segs, rest, buf, folded, lc);
      ScanJoined(next, rest, buf + segs[0], folded + 1, lc + 1);
    }
  }

  /**
   * A content line written folded, followed by anything that does not look
   * like a continuation, is read back whole, with the physical line range
   * it occupied.
   */
  lemma ReadFoldedLine(line: string, rest: string, lc: int)
    requires NoCrLf(line) && HasNonSpace(line) && !StartsFold(rest)
    ensures ReadCalLine(FoldText(line) + rest, lc)
         == LineRead(CalStatus(OK, lc + 1, lc + |FoldSegments(line)|), Some(line), rest, lc + |FoldSegments(line)|)
  {
    FoldSegmentsShape(line);
    UnfoldFold(line);
    var segs := FoldSegments(line);
    assert FoldText(line) == segs[0] + "\r\n" + JoinCrLf(segs[1..]);
    assert [] + Unfold(segs) == line;
    ScanJoined(segs, rest, [], 0, lc);
  }

  /** A line written without folding is read back whole. */
  lemma ReadUnfoldedLine(line: string, rest: string, lc: int)
    requires NoCrLf(line) && HasNonSpace(line) && !StartsFold(rest)
    ensures ReadCalLine(line + CRLF + rest, lc) == LineRead(StatusAt(OK, lc + 1), Some(line), rest, lc + 1)
  {
    assert JoinCrLf([line]) == line + CRLF;
    assert Unfold([line]) == line;
    assert [] + line == line;
    ScanJoined([line], rest, [], 0, lc);
  }

  // -----------------------------------------------------------------------
  // Line endings readCalLine rejects or tolerates
  // -----------------------------------------------------------------------

  /** An LF that does not follow a CR is a NOCRNL error. */
  lemma BareLineFeed(a: string, b: string, lc: int)
    requires NoCrLf(a)
    ensures ReadCalLine(a + "\n" + b, lc) == LineRead(StatusAt(NOCRNL, lc), None, b, lc)
  {
    ScanPlain(a, "\n" + b, [], 0, lc);
    assert a + "\n" + b == a + ("\n" + b);
    assert ("\n" + b)[1..] == b;
  }

  /** A CR followed by anything but CR or LF is a NOCRNL error. */
  lemma LoneCarriageReturn(a: string, c: char, b: string, lc: int)
    requires NoCrLf(a) && c != '\r' && c != '\n'
    ensures ReadCalLine(a + "\r" + [c] + b, lc) == LineRead(StatusAt(NOCRNL, lc), None, b, lc)
  {
    ScanPlain(a, "\r" + [c] + b, [], 0, lc);
    assert a + "\r" + [c] + b == a + ("\r" + [c] + b);
    assert ("\r" + [c] + b)[1..] == [c] + b;
    assert ([c] + b)[1..] == b;
  }

  /** The last line of the input needs no CR LF. */
  lemma LastLineUnterminated(a: string, lc: int)
    requires NoCrLf(a) && HasNonSpace(a)
    ensures ReadCalLine(a, lc) == LineRead(StatusAt(OK, lc + 1), Some(a), [], lc + 1)
  {
    ScanPlain(a, [], [], 0, lc);
    assert a + [] == a;
    assert [] + a == a;
  }

  /**
   * A line of white space only is skipped, but its octets stay at the front
   * of the next line read, and its line number is not part of the range.
   */
  lemma BlankLineKept(w: string, line: string, rest: string, lc: int)
    requires NoCrLf(w) && !HasNonSpace(w)
    requires NoCrLf(line) && HasNonSpace(line) && !StartsFold(line) && !StartsFold(rest)
    ensures ReadCalLine(w + "\r\n" + line + "\r\n" + rest, lc)
         == LineRead(StatusAt(OK, lc + 2), Some(w + line), rest, lc + 2)
  {
    var tail := line + "\r\n" + rest;
    Assoc4(w + "\r\n", line, "\r\n", rest);
    Assoc(w, "\r\n", tail);
    ScanPlain(w, "\r\n" + tail, [], 0, lc);
    assert [] + w == w;
    SkipBlankLine(tail, w, lc);
    assert JoinCrLf([line]) == line + "\r\n";
    assert Unfold([line]) == line;
    NonSpaceAppend(w, line);
    ScanJoined([line], rest, w, 0, lc + 1);
  }

  /** CR LF after a blank line, not followed by a fold, goes on with the same buffer. */
  lemma SkipBlankLine(t: string, buf: string, lc: int)
    requires NoCrLf(buf) && !HasNonSpace(buf) && !StartsFold(t)
    ensures Scan("\r\n" + t, buf, false, 0, lc) == Scan(t, buf, false, 0, lc + 1)
  {
    assert ("\r\n" + t)[1..] == "\n" + t;
    assert ("\n" + t)[1..] == t;
  }

  lemma NonSpaceAppend(a: string, b: string)
    requires HasNonSpace(b)
    ensures HasNonSpace(a + b)
  {
    var j :| 0 <= j < |b| && !IsSpace(b[j]);
    assert (a + b)[|a| + j] == b[j];
  }
}
