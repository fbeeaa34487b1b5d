/*
 * The in-memory iCalendar tree and the status values shared by the reader,
 * the parser, the tree builder, the writer and the query operations.
 *
 * The C structures keep explicit counters next to their lists
 * (nprops, nparams, nvalues, ncomps); here every list is a sequence and
 * each counter is simply the length of that sequence.
 */
module CalTypes {

  /** A missing value (C's NULL). */
  datatype Option<+T> = None | Some(value: T)

  /** A property parameter: NAME=v1,v2,... */
  datatype Param = Param(name: string, values: seq<string>)

  /** A content line: NAME;params:VALUE */
  datatype Property = Property(name: string, params: seq<Param>, value: string)

  /** A BEGIN ... END block with its properties and nested components. */
  datatype Component = Component(name: string, props: seq<Property>, comps: seq<Component>)

  datatype CalError =
    | OK
    | AFTEND   // more text found after end of calendar
    | BADVER   // version missing or wrong
    | BEGEND   // BEGIN...END not found as expected
    | IOERR    // I/O error
    | NOCAL    // outer block not VCALENDAR, or no V components found
    | NOCRNL   // CRNL missing at end of line
    | NODATA   // nothing between BEGIN...END
    | NOPROD   // PRODID missing
    | SUBCOM   // subcomponent not allowed
    | SYNTAX   // property not in valid form

  /** An error code with the physical line range it refers to. */
  datatype CalStatus = CalStatus(code: CalError, linefrom: int, lineto: int)

  /** Kind selector of the query operations. */
  datatype CalOpt = OEVENT | OPROP | OTODO

  /** Lines longer than this many octets are folded (section 3.1 of RFC 5545). */
  const FOLD_LEN: nat := 75

  /** The only VERSION value accepted (section 3.7.4 of RFC 5545). */
  const VCAL_VER: string := "2.0"

  const CRLF: string := "\r\n"

  function StatusAt(code: CalError, line: int): CalStatus {
    CalStatus(code, line, line)
  }

  // ---------------------------------------------------------------------
  // Characters, as the C library's <ctype.h> sees them in the "C" locale
  // ---------------------------------------------------------------------

  /** isspace() */
  predicate IsSpace(c: char) {
    c == ' ' || c == '\t' || c == '\n' || c == '\r' || c == '\U{B}' || c == '\U{C}'
  }

  /** toupper() */
  function ToUpper(c: char): (u: char)
    ensures 'a' <= c <= 'z' ==> u as int == c as int - 32
    ensures !('a' <= c <= 'z') ==> u == c
    ensures !('a' <= u <= 'z')
  {
    if 'a' <= c <= 'z' then (c as int - 32) as char else c
  }

  /** Every character passed through toupper(). */
  function Upper(s: string): (u: string)
    ensures |u| == |s|
    ensures forall i :: 0 <= i < |s| ==> u[i] == ToUpper(s[i])
  {
    if |s| == 0 then [] else [ToUpper(s[0])] + Upper(s[1..])
  }

  /** No lower-case ASCII letter occurs. */
  predicate IsUpper(s: string) {
    forall i :: 0 <= i < |s| ==> !('a' <= s[i] <= 'z')
  }

  lemma UpperIsUpper(s: string)
    ensures IsUpper(Upper(s))
  {
  }

  /** toupper() leaves an upper-case string unchanged. */
  lemma UpperOfUpper(s: string)
    requires IsUpper(s)
    ensures Upper(s) == s
  {
  }

  lemma UpperAppend(a: string, b: string)
    ensures Upper(a + b) == Upper(a) + Upper(b)
  {
  }

  /** Some character is not white space. */
  predicate HasNonSpace(s: string) {
    exists i :: 0 <= i < |s| && !IsSpace(s[i])
  }

  /** Neither CR nor LF occurs. */
  predicate NoCrLf(s: string) {
    forall i :: 0 <= i < |s| ==> s[i] != '\r' && s[i] != '\n'
  }

  /** The name starts with the letter V (checkNoCal's test on name[0]). */
  predicate StartsWithV(s: string) {
    |s| > 0 && s[0] == 'V'
  }

  /** The name starts with "X-" (calExtract's test on name[0] and name[1]). */
  predicate IsXName(s: string) {
    |s| >= 2 && s[0] == 'X' && s[1] == '-'
  }

  /** Concatenation regrouped; stated once so that proofs need not redo it. */
  lemma Assoc<T>(a: seq<T>, b: seq<T>, c: seq<T>)
    ensures a + b + c == a + (b + c)
  {
  }

  lemma Assoc4<T>(a: seq<T>, b: seq<T>, c: seq<T>, d: seq<T>)
    ensures a + b + c + d == a + (b + c + d)
  {
  }

  /** Appending the head of a sequence and then its tail appends the whole sequence. */
  lemma AppendHeadTail<T>(a: seq<T>, s: seq<T>)
    requires |s| > 0
    ensures a + [s[0]] + s[1..] == a + s
  {
    assert [s[0]] + s[1..] == s;
  }
}
