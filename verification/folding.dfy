/*
 * Line folding as writeCalComp does it: a content line longer than
 * FOLD_LEN octets is written as its first 75 octets, then one continuation
 * line per further chunk of at most 74 octets, each continuation starting
 * with a single space, every physical line ending in CR LF.
 */
module Folding {
  import opened CalTypes

  /** Continuation lines for the octets after the first 75. */
  function ContSegments(r: string): (segs: seq<string>)
    ensures |r| == 0 <==> |segs| == 0
    decreases |r|
  {
    if |r| == 0 then []
    else if |r| <= 74 then [" " + r]
    else [" " + r[..74]] + ContSegments(r[74..])
  }

  /** The physical lines (without their CR LF) a content line is written as. */
  function FoldSegments(line: string): (segs: seq<string>)
    ensures |segs| >= 1
  {
    if |line| <= FOLD_LEN then [line]
    else [line[..FOLD_LEN]] + ContSegments(line[FOLD_LEN..])
  }

  /** Physical lines, each followed by CR LF. */
  function JoinCrLf(segs: seq<string>): string {
    if |segs| == 0 then [] else segs[0] + CRLF + JoinCrLf(segs[1..])
  }

  /** The octets writeCalComp emits for one content line. */
  function FoldText(line: string): string {
    JoinCrLf(FoldSegments(line))
  }

  /** What a reader reconstructs: the first line, then each continuation without its leading space. */
  function Unfold(segs: seq<string>): string
    requires |segs| >= 1
    requires forall k :: 1 <= k < |segs| ==> |segs[k]| >= 1
    decreases |segs|
  {
    if |segs| == 1 then segs[0]
    else segs[0] + Unfold([segs[1][1..]] + segs[2..])
  }

  /** The shape of a folded line: every continuation starts with one space. */
  predicate ContinuationShaped(segs: seq<string>) {
    && |segs| >= 1
    && forall k :: 1 <= k < |segs| ==> |segs[k]| >= 1 && segs[k][0] == ' '
  }

  lemma JoinCrLfAppend(a: seq<string>, b: seq<string>)
    ensures JoinCrLf(a + b) == JoinCrLf(a) + JoinCrLf(b)
  {
    if |a| == 0 {
      assert a + b == b;
    } else {
      assert (a + b)[1..] == a[1..] + b;
      JoinCrLfAppend(a[1..], b);
    }
  }

  lemma {:induction false} ContSegmentsShape(r: string)
    ensures forall k :: 0 <= k < |ContSegments(r)| ==>
      2 <= |ContSegments(r)[k]| <= 75 && ContSegments(r)[k][0] == ' '
    ensures NoCrLf(r) ==> forall k :: 0 <= k < |ContSegments(r)| ==> NoCrLf(ContSegments(r)[k])
    decreases |r|
  {
    if |r| == 0 {
    } else if |r| <= 74 {
    } else {
      ContSegmentsShape(r[74..]);
    }
  }

  /**
   * Every physical line of a folded content line is at most 75 octets;
   * only the first may carry no leading space.
   */
  lemma {:induction false} FoldSegmentsShape(line: string)
    ensures |line| <= FOLD_LEN ==> FoldSegments(line) == [line]
    ensures |line| > FOLD_LEN ==> FoldSegments(line)[0] == line[..FOLD_LEN]
    ensures forall k :: 0 <= k < |FoldSegments(line)| ==> |FoldSegments(line)[k]| <= FOLD_LEN
    ensures ContinuationShaped(FoldSegments(line))
    ensures NoCrLf(line) ==> forall k :: 0 <= k < |FoldSegments(line)| ==> NoCrLf(FoldSegments(line)[k])
  {
    if |line| > FOLD_LEN {
      var segs := FoldSegments(line);
      ContSegmentsShape(line[FOLD_LEN..]);
      assert forall k :: 1 <= k < |segs| ==> segs[k] == ContSegments(line[FOLD_LEN..])[k - 1];
    }
  }

  lemma {:induction false} UnfoldCont(head: string, r: string)
    requires |r| > 0
    ensures ContinuationShaped([head] + ContSegments(r))
    ensures Unfold([head] + ContSegments(r)) == head + r
    decreases |r|
  {
    ContSegmentsShape(r);
    var segs := [head] + ContSegments(r);
    assert forall k :: 1 <= k < |segs| ==> segs[k] == ContSegments(r)[k - 1];
    if |r| <= 74 {
      assert segs == [head, " " + r];
      assert Unfold([(" " + r)[1..]]) == r;
    } else {
      var first := r[..74];
      assert segs[1] == " " + first;
      assert segs[2..] == ContSegments(r[74..]);
      UnfoldCont(first, r[74..]);
      assert [segs[1][1..]] + segs[2..] == [first] + ContSegments(r[74..]);
      assert first + r[74..] == r;
    }
  }

  /** Unfolding the physical lines of a folded line gives the line back. */
  lemma {:induction false} UnfoldFold(line: string)
    ensures ContinuationShaped(FoldSegments(line))
    ensures Unfold(FoldSegments(line)) == line
  {
    FoldSegmentsShape(line);
    if |line| > FOLD_LEN {
      UnfoldCont(line[..FOLD_LEN], line[FOLD_LEN..]);
      assert line[..FOLD_LEN] + line[FOLD_LEN..] == line;
    }
  }

  lemma {:induction false} ContSegmentsSnoc(r: string, k: nat)
    requires 74 * k < |r| <= 74 * k + 74
    ensures ContSegments(r) == ContSegments(r[..74 * k]) + [" " + r[74 * k..]]
    decreases k
  {
    if k == 0 {
      assert r[..0] == [];
      assert r[0..] == r;
    } else {
      assert r[..74 * k][..74] == r[..74];
      assert r[..74 * k][74..] == r[74..][..74 * (k - 1)];
      ContSegmentsSnoc(r[74..], k - 1);
      assert r[74..][74 * (k - 1)..] == r[74 * k..];
    }
  }

  /**
   * The folded text of a prefix grows by one continuation line when the
   * prefix grows by at most one 74-octet chunk past a chunk boundary.
   */
  lemma {:induction false} FoldPrefixStep(line: string, start: nat, k: nat, m: nat)
    requires start == FOLD_LEN + 74 * k
    requires start < m <= start + 74 && m <= |line|
    ensures FoldSegments(line[..m]) == FoldSegments(line[..start]) + [" " + line[start..m]]
  {
    var p := line[..m];
    assert p[FOLD_LEN..] == line[FOLD_LEN..m];
    ContSegmentsSnoc(p[FOLD_LEN..], k);
    assert p[FOLD_LEN..][..74 * k] == line[FOLD_LEN..start];
    assert p[FOLD_LEN..][74 * k..] == line[start..m];
    if k == 0 {
      assert line[..start] == line[..FOLD_LEN];
      assert line[FOLD_LEN..start] == [];
    } else {
      assert line[..start][FOLD_LEN..] == line[FOLD_LEN..start];
      assert line[..start][..FOLD_LEN] == line[..FOLD_LEN];
    }
    assert p[..FOLD_LEN] == line[..FOLD_LEN];
  }

  /**
   * The folding loop of writeCalComp, statement by statement: y counts the
   * octets held in foldedBuffer, i walks the reconstructed line.
   */
  method FoldLine(buffer: string) returns (out: string, lines: nat)
    ensures out == FoldText(buffer)
    ensures lines == |FoldSegments(buffer)|
  {
    if |buffer| > FOLD_LEN {
      out := [];
      lines := 0;
      var y := 0;
      var folded: string := [];
      ghost var start := 0;
      ghost var k := 0;
      var i := 0;
      while i < |buffer|
        invariant FoldLoopInv(buffer, i, y, folded, out, start, k)
        invariant FoldCountInv(buffer, i, lines, start)
      {
        AppendOctet(buffer, i, y, folded, out, lines, start, k);
        if y <= 75 {
          folded := folded + [buffer[i]];
          y := y + 1;
        }
        if i <= 74 && y == 75 {
          FirstPhysicalLine(buffer, i, y, folded, out, lines, start, k);
          out := out + folded + CRLF;
          lines := lines + 1;
          start := 75;
          y := 0;
          folded := [];
        } else if (i > 73 && y == 74) || i == |buffer| - 1 {
          ContinuationLine(buffer, i, y, folded, out, lines, start, k);
          out := out + " " + folded + CRLF;
          lines := lines + 1;
          if y == 74 {
            k := k + 1;
          }
          start := i + 1;
          y := 0;
          folded := [];
        } else {
          KeepOctet(buffer, i, y, folded, out, lines, start, k);
        }
        i := i + 1;
      }
      assert buffer[..start] == buffer;
    } else {
      out := buffer + CRLF;
      lines := 1;
      assert JoinCrLf([buffer]) == out;
    }
  }

  /** What FoldLine has written after reading the first i octets of buffer. */
  ghost predicate FoldLoopInv(buffer: string, i: int, y: int, folded: string, out: string, start: int, k: int) {
    && |buffer| > FOLD_LEN
    && 0 <= i <= |buffer|
    && (i == |buffer| ==> start == |buffer|)
    && |folded| == y
    && k >= 0
    && (i < FOLD_LEN ==> out == [] && folded == buffer[..i] && y == i && k == 0)
    && (i >= FOLD_LEN ==>
          && FOLD_LEN <= start <= i
          && folded == buffer[start..i]
          && y == i - start < 74
          && (start == |buffer| || start == FOLD_LEN + 74 * k)
          && out == JoinCrLf(FoldSegments(buffer[..start])))
  }

  /** How many physical lines FoldLine has written after i octets. */
  ghost predicate FoldCountInv(buffer: string, i: int, lines: nat, start: int) {
    && (i < FOLD_LEN ==> lines == 0)
    && (i >= FOLD_LEN ==> 0 <= start <= |buffer| && lines == |FoldSegments(buffer[..start])|)
  }

  /** The state of FoldLine once octet i has been copied into foldedBuffer. */
  ghost predicate Appended(buffer: string, i: int, y: int, folded: string, out: string, lines: nat, start: int, k: int) {
    && FOLD_LEN < |buffer|
    && 0 <= i < |buffer|
    && |folded| == y
    && k >= 0
    && (i < FOLD_LEN ==> out == [] && folded == buffer[..i + 1] && y == i + 1 && k == 0 && lines == 0)
    && (i >= FOLD_LEN ==>
          && start == FOLD_LEN + 74 * k <= i
          && folded == buffer[start..i + 1]
          && y == i + 1 - start <= 74
          && out == JoinCrLf(FoldSegments(buffer[..start]))
          && lines == |FoldSegments(buffer[..start])|)
  }

  /** Copying octet i: foldedBuffer never holds more than 75 octets, so the copy always happens. */
  lemma AppendOctet(buffer: string, i: int, y: int, folded: string, out: string, lines: nat, start: int, k: int)
    requires FoldLoopInv(buffer, i, y, folded, out, start, k) && FoldCountInv(buffer, i, lines, start)
    requires i < |buffer|
    ensures y <= 75
    ensures Appended(buffer, i, y + 1, folded + [buffer[i]], out, lines, start, k)
  {
    if i < FOLD_LEN {
      assert buffer[..i] + [buffer[i]] == buffer[..i + 1];
    } else {
      assert buffer[start..i] + [buffer[i]] == buffer[start..i + 1];
    }
  }

  /** The 75th octet: the first physical line is written. */
  lemma FirstPhysicalLine(buffer: string, i: int, y: int, folded: string, out: string, lines: nat, start: int, k: int)
    requires Appended(buffer, i, y, folded, out, lines, start, k)
    requires i <= 74 && y == 75
    ensures FoldLoopInv(buffer, i + 1, 0, [], out + folded + CRLF, 75, k)
    ensures FoldCountInv(buffer, i + 1, lines + 1, 75)
  {
    assert FoldSegments(buffer[..75]) == [buffer[..75]];
    assert buffer[75..75] == [];
  }

  /** A full 74-octet chunk, or the last octet: a continuation line is written. */
  lemma ContinuationLine(buffer: string, i: int, y: int, folded: string, out: string, lines: nat, start: int, k: int)
    requires Appended(buffer, i, y, folded, out, lines, start, k)
    requires !(i <= 74 && y == 75)
    requires (i > 73 && y == 74) || i == |buffer| - 1
    ensures FoldLoopInv(buffer, i + 1, 0, [], out + " " + folded + CRLF, i + 1, if y == 74 then k + 1 else k)
    ensures FoldCountInv(buffer, i + 1, lines + 1, i + 1)
  {
    assert i >= FOLD_LEN;
    ContinuationText(buffer, start, k, i, folded, out);
    assert buffer[i + 1..i + 1] == [];
  }

  lemma ContinuationText(buffer: string, start: int, k: nat, i: int, folded: string, out: string)
    requires FOLD_LEN <= start == FOLD_LEN + 74 * k <= i < |buffer|
    requires i + 1 - start <= 74
    requires folded == buffer[start..i + 1]
    requires out == JoinCrLf(FoldSegments(buffer[..start]))
    ensures out + " " + folded + CRLF == JoinCrLf(FoldSegments(buffer[..i + 1]))
    ensures |FoldSegments(buffer[..i + 1])| == |FoldSegments(buffer[..start])| + 1
  {
    FoldPrefixStep(buffer, start, k, i + 1);
    JoinCrLfAppend(FoldSegments(buffer[..start]), [" " + folded]);
    assert JoinCrLf([" " + folded]) == " " + folded + CRLF;
  }

  /** Any other octet stays in foldedBuffer. */
  lemma KeepOctet(buffer: string, i: int, y: int, folded: string, out: string, lines: nat, start: int, k: int)
    requires Appended(buffer, i, y, folded, out, lines, start, k)
    requires !(i <= 74 && y == 75)
    requires !((i > 73 && y == 74) || i == |buffer| - 1)
    ensures FoldLoopInv(buffer, i + 1, y, folded, out, start, k)
    ensures FoldCountInv(buffer, i + 1, lines, start)
  {
    if i + 1 == FOLD_LEN {
      assert false;
    }
  }
}
