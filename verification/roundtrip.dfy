/*
 * Reading back what writeCalComp writes: for every well-formed calendar,
 * readCalFile, as written and with component names upper-cased when
 * opened, returns the very tree that was written, with status OK at the
 * last line.
 */
module RoundTrip {
  import opened CalTypes
  import opened Folding
  import opened LineReader
  import opened PropParser
  import opened PropText
  import opened TreeBuilder
  import opened Writer

  // -----------------------------------------------------------------------
  // Well-formed trees
  // -----------------------------------------------------------------------

  /** A property that may appear in a component: well formed and not BEGIN or END. */
  predicate WfMember(p: Property) {
    WfProperty(p) && p.name != "BEGIN" && p.name != "END"
  }

  /** A tree writeCalComp writes and readCalComp reads back at this depth. */
  predicate WfTree(c: Component, depth: nat)
    decreases c
  {
    && 1 <= depth <= MAX_DEPTH
    && WfName(c.name)
    && (|c.props| > 0 || |c.comps| > 0)
    && (forall k :: 0 <= k < |c.props| ==> WfMember(c.props[k]))
    && (forall k :: 0 <= k < |c.comps| ==> WfTree(c.comps[k], depth + 1))
  }

  /** A calendar readCalFile accepts, with names it can read back. */
  predicate WfCalendar(cal: Component) {
    && cal.name == "VCALENDAR"
    && WfTree(cal, 1)
    && HasVComponent(cal)
    && CountProps(cal.props, IsGoodVersion) == 1
    && CountProps(cal.props, IsProdId) == 1
  }

  /** Physical lines a reader counts for a component, BEGIN and END included. */
  function ReadLines(c: Component): nat
    decreases c, 1
  {
    2 + PropsLines(c.props) + ChildrenReadLines(c, 0)
  }

  function ChildrenReadLines(c: Component, i: nat): nat
    requires i <= |c.comps|
    decreases c, 0, |c.comps| - i
  {
    if i == |c.comps| then 0 else ReadLines(c.comps[i]) + ChildrenReadLines(c, i + 1)
  }

  /** The body of a component: everything after its BEGIN line. */
  function BodyText(c: Component): string {
    PropsText(c.props) + ChildrenText(c, 0) + EndLine(c.name)
  }

  // -----------------------------------------------------------------------
  // What the written text looks like line by line
  // -----------------------------------------------------------------------

  /** The next line starts with a name octet, or there is no next line. */
  predicate NextOk(t: string) {
    |t| == 0 || NameChar(t[0])
  }

  lemma NextOkNoFold(t: string)
    requires NextOk(t)
    ensures !StartsFold(t)
  {
  }

  lemma NoCrLfAppend(a: string, b: string)
    ensures NoCrLf(a + b) <==> NoCrLf(a) && NoCrLf(b)
  {
    if NoCrLf(a) && NoCrLf(b) {
      forall i | 0 <= i < |a + b|
        ensures (a + b)[i] != '\r' && (a + b)[i] != '\n'
      {
        if i >= |a| {
          assert (a + b)[i] == b[i - |a|];
        }
      }
    }
    if NoCrLf(a + b) {
      forall i | 0 <= i < |a|
        ensures a[i] != '\r' && a[i] != '\n'
      {
        assert (a + b)[i] == a[i];
      }
      forall i | 0 <= i < |b|
        ensures b[i] != '\r' && b[i] != '\n'
      {
        assert (a + b)[|a| + i] == b[i];
      }
    }
  }

  lemma {:induction false} JoinCommaNoCrLf(vals: seq<string>)
    requires forall k :: 0 <= k < |vals| ==> WfParamValue(vals[k])
    ensures NoCrLf(JoinComma(vals))
    decreases |vals|
  {
    if |vals| == 1 {
      WfParamValueNoCrLf(vals[0]);
    } else if |vals| > 1 {
      JoinCommaNoCrLf(vals[1..]);
      WfParamValueNoCrLf(vals[0]);
      NoCrLfAppend(vals[0], ",");
      NoCrLfAppend(vals[0] + ",", JoinComma(vals[1..]));
    }
  }

  lemma ParamTextNoCrLf(p: Param)
    requires WfParam(p)
    ensures NoCrLf(ParamText(p))
  {
    JoinCommaNoCrLf(p.values);
    NoCrLfAppend(p.name, "=");
    NoCrLfAppend(p.name + "=", JoinComma(p.values));
  }

  lemma {:induction false} JoinParamsNoCrLf(ps: seq<Param>)
    requires forall k :: 0 <= k < |ps| ==> WfParam(ps[k])
    ensures NoCrLf(JoinParams(ps))
    decreases |ps|
  {
    if |ps| >= 1 {
      ParamTextNoCrLf(ps[0]);
    }
    if |ps| > 1 {
      JoinParamsNoCrLf(ps[1..]);
      NoCrLfAppend(ParamText(ps[0]), ";");
      NoCrLfAppend(ParamText(ps[0]) + ";", JoinParams(ps[1..]));
    }
  }

  /** The line built for a well-formed property is one non-blank line starting with its name. */
  lemma PropLineClean(p: Property)
    requires WfProperty(p)
    ensures NoCrLf(PropLine(p)) && HasNonSpace(PropLine(p))
    ensures |PropLine(p)| > 0 && PropLine(p)[0] == p.name[0]
  {
    var mid: string := if |p.params| == 0 then [] else ";" + JoinParams(p.params);
    if |p.params| > 0 {
      JoinParamsNoCrLf(p.params);
      NoCrLfAppend(";", JoinParams(p.params));
    }
    NoCrLfAppend(p.name, mid);
    NoCrLfAppend(p.name + mid, ":");
    NoCrLfAppend(p.name + mid + ":", p.value);
    assert PropLine(p)[0] == p.name[0];
    assert !IsSpace(PropLine(p)[0]);
  }

  lemma FoldTextStart(line: string)
    requires |line| > 0
    ensures |FoldText(line)| > 0 && FoldText(line)[0] == line[0]
  {
    FoldSegmentsShape(line);
    var segs := FoldSegments(line);
    assert FoldText(line) == segs[0] + CRLF + JoinCrLf(segs[1..]);
  }

  /** The written properties, split after the first one. */
  lemma PropsTextSplit(ps: seq<Property>, t: string)
    requires |ps| > 0
    ensures PropsText(ps) + t == FoldText(PropLine(ps[0])) + (PropsText(ps[1..]) + t)
  {
  }

  /** The text of the first property starts with that property's name. */
  lemma PropsTextStart(ps: seq<Property>, t: string)
    requires |ps| > 0 && WfProperty(ps[0])
    ensures NextOk(PropsText(ps) + t)
  {
    PropLineClean(ps[0]);
    FoldTextStart(PropLine(ps[0]));
    PropsTextSplit(ps, t);
  }

  /** A written component starts with its BEGIN line. */
  lemma CompTextStart(c: Component)
    ensures |CompText(c)| > 0 && CompText(c)[0] == 'B'
  {
    assert BeginLine(c.name)[0] == 'B';
  }

  /** The written children, split after child i. */
  lemma ChildrenTextSplit(c: Component, i: nat, t: string)
    requires i < |c.comps|
    ensures ChildrenText(c, i) + t
         == BeginLine(c.comps[i].name) + (BodyText(c.comps[i]) + (ChildrenText(c, i + 1) + t))
  {
    var ch := c.comps[i];
    assert ChildrenText(c, i) == CompText(ch) + ChildrenText(c, i + 1);
    Assoc4(BeginLine(ch.name), PropsText(ch.props), ChildrenText(ch, 0), EndLine(ch.name));
    Assoc(CompText(ch), ChildrenText(c, i + 1), t);
    Assoc(BeginLine(ch.name), BodyText(ch), ChildrenText(c, i + 1) + t);
  }

  lemma ChildrenTextStart(c: Component, i: nat, t: string)
    requires i <= |c.comps|
    requires NextOk(t)
    ensures NextOk(ChildrenText(c, i) + t)
  {
    if i < |c.comps| {
      CompTextStart(c.comps[i]);
      assert ChildrenText(c, i) == CompText(c.comps[i]) + ChildrenText(c, i + 1);
    }
  }

  /** The body of a component, split after its properties. */
  lemma BodyTextSplit(c: Component, rest: string)
    ensures BodyText(c) + rest == PropsText(c.props) + (ChildrenText(c, 0) + (EndLine(c.name) + rest))
  {
  }

  /** The body text of a component never starts with a fold or ends the input. */
  lemma BodyTextStart(c: Component, rest: string)
    requires |c.props| == 0 || WfProperty(c.props[0])
    ensures NextOk(BodyText(c) + rest)
  {
    BodyTextSplit(c, rest);
    if |c.props| > 0 {
      PropsTextStart(c.props, ChildrenText(c, 0) + (EndLine(c.name) + rest));
    } else {
      assert EndLine(c.name)[0] == 'E';
      ChildrenTextStart(c, 0, EndLine(c.name) + rest);
    }
  }

  // -----------------------------------------------------------------------
  // Reading the pieces back
  // -----------------------------------------------------------------------

  /** A BEGIN line is read as one line and parsed as the property BEGIN. */
  lemma ReadBeginLine(name: string, rest: string, lc: int)
    requires WfName(name) && NextOk(rest)
    ensures ReadCalLine(BeginLine(name) + rest, lc) == LineRead(StatusAt(OK, lc + 1), Some("BEGIN:" + name), rest, lc + 1)
    ensures ParseCalProp("BEGIN:" + name) == Some(Property("BEGIN", [], name))
  {
    var p := Property("BEGIN", [], name);
    assert WfProperty(p);
    assert PropLine(p) == "BEGIN:" + name;
    ParseCalPropRoundTrip(p);
    PropLineClean(p);
    ReadUnfoldedLine("BEGIN:" + name, rest, lc);
  }

  /** An END line is read as one line and parsed as the property END. */
  lemma ReadEndLine(name: string, rest: string, lc: int)
    requires WfName(name) && NextOk(rest)
    ensures ReadCalLine(EndLine(name) + rest, lc) == LineRead(StatusAt(OK, lc + 1), Some("END:" + name), rest, lc + 1)
    ensures ParseCalProp("END:" + name) == Some(Property("END", [], name))
  {
    var p := Property("END", [], name);
    assert WfProperty(p);
    assert PropLine(p) == "END:" + name;
    ParseCalPropRoundTrip(p);
    PropLineClean(p);
    ReadUnfoldedLine("END:" + name, rest, lc);
  }

  /** A parsed line inside a component is handled by OnProperty. */
  lemma BodyStep(input: string, lc: int, comp: Component, depth: nat, line: string, p: Property, rest: string, lc': int, foldNames: bool)
    requires 1 <= depth <= MAX_DEPTH
    requires var r := ReadCalLine(input, lc); r.line == Some(line) && r.rest == rest && r.lineCount == lc'
    requires ParseCalProp(line) == Some(p)
    ensures IsSuffix(rest, input) && |rest| < |input|
    ensures |p.name| > 0 && IsUpper(p.name) && ValidateParams(p.params)
    ensures ReadBody(input, lc, comp, depth, foldNames) == OnProperty(input, rest, lc', p, comp, depth, foldNames)
  {
    UpperIsUpper(line[..FirstSep(line)]);
  }

  /** An ordinary property line is appended to the component and reading goes on. */
  lemma OrdinaryLine(input: string, lc: int, comp: Component, depth: nat, line: string, p: Property, rest: string, lc': int, grown: Component, foldNames: bool)
    requires 1 <= depth <= MAX_DEPTH
    requires var r := ReadCalLine(input, lc); r.line == Some(line) && r.rest == rest && r.lineCount == lc'
    requires ParseCalProp(line) == Some(p) && p.name != "BEGIN" && p.name != "END"
    requires grown == comp.(props := comp.props + [p])
    ensures ReadBody(input, lc, comp, depth, foldNames) == ReadBody(rest, lc', grown, depth, foldNames)
  {
    BodyStep(input, lc, comp, depth, line, p, rest, lc', foldNames);
    assert OnProperty(input, rest, lc', p, comp, depth, foldNames) == OnOrdinary(input, rest, lc', p, comp, depth, foldNames);
  }

  /** The line of a written property reads back as that property. */
  lemma PropLineRead(p: Property, next: string, lc: int)
    requires WfMember(p) && NextOk(next)
    ensures var r := ReadCalLine(FoldText(PropLine(p)) + next, lc);
      r.line == Some(PropLine(p)) && r.rest == next && r.lineCount == lc + |FoldSegments(PropLine(p))|
    ensures ParseCalProp(PropLine(p)) == Some(p)
  {
    PropLineClean(p);
    ReadFoldedLine(PropLine(p), next, lc);
    ParseCalPropRoundTrip(p);
  }

  /** One written property is appended to the component being read. */
  lemma PropStep(p: Property, next: string, lc: int, comp: Component, depth: nat, lcNext: int, grown: Component, foldNames: bool)
    requires 1 <= depth <= MAX_DEPTH
    requires WfMember(p) && NextOk(next)
    requires lcNext == lc + |FoldSegments(PropLine(p))| && grown == comp.(props := comp.props + [p])
    ensures ReadBody(FoldText(PropLine(p)) + next, lc, comp, depth, foldNames) == ReadBody(next, lcNext, grown, depth, foldNames)
  {
    PropLineRead(p, next, lc);
    OrdinaryLine(FoldText(PropLine(p)) + next, lc, comp, depth, PropLine(p), p, next, lcNext, grown, foldNames);
  }

  /** Property i of a written component is appended to the component being read. */
  lemma PropRead(c: Component, i: nat, t: string, lc: int, depth: nat, lcNext: int, foldNames: bool)
    requires 1 <= depth <= MAX_DEPTH && i < |c.props|
    requires forall k :: 0 <= k < |c.props| ==> WfMember(c.props[k])
    requires NextOk(t)
    requires lcNext == lc + |FoldSegments(PropLine(c.props[i]))|
    ensures ReadBody(PropsText(c.props[i..]) + t, lc, Component(c.name, c.props[..i], []), depth, foldNames)
         == ReadBody(PropsText(c.props[i + 1..]) + t, lcNext, Component(c.name, c.props[..i + 1], []), depth, foldNames)
  {
    var ps := c.props[i..];
    assert ps[0] == c.props[i];
    assert ps[1..] == c.props[i + 1..];
    if i + 1 < |c.props| {
      assert c.props[i + 1..][0] == c.props[i + 1];
      PropsTextStart(c.props[i + 1..], t);
    } else {
      assert PropsText(c.props[i + 1..]) + t == t;
    }
    PropsTextSplit(ps, t);
    TakeNext(c.props, i);
    PropStep(c.props[i], PropsText(c.props[i + 1..]) + t, lc, Component(c.name, c.props[..i], []), depth, lcNext,
      Component(c.name, c.props[..i + 1], []), foldNames);
  }

  /**
   * The properties of a written component, from property i on, are
   * appended in order to the component being read.
   */
  lemma {:induction false} ReadProps(c: Component, i: nat, t: string, lc: int, depth: nat, lcEnd: int, foldNames: bool)
    requires 1 <= depth <= MAX_DEPTH && i <= |c.props|
    requires forall k :: 0 <= k < |c.props| ==> WfMember(c.props[k])
    requires NextOk(t)
    requires lcEnd == lc + PropsLines(c.props[i..])
    ensures ReadBody(PropsText(c.props[i..]) + t, lc, Component(c.name, c.props[..i], []), depth, foldNames)
         == ReadBody(t, lcEnd, Component(c.name, c.props, []), depth, foldNames)
    decreases |c.props| - i
  {
    if i == |c.props| {
      assert c.props[..i] == c.props;
      assert c.props[i..] == [];
      assert PropsText(c.props[i..]) + t == t;
    } else {
      var lcNext := lc + |FoldSegments(PropLine(c.props[i]))|;
      assert c.props[i..][1..] == c.props[i + 1..];
      PropRead(c, i, t, lc, depth, lcNext, foldNames);
      ReadProps(c, i + 1, t, lcNext, depth, lcEnd, foldNames);
    }
  }

  /** A BEGIN line whose child body reads back OK adds that child to the parent. */
  lemma BeginStep(ch: Component, body: string, lc: int, comp: Component, depth: nat, after: string, lcAfter: int, grown: Component, foldNames: bool)
    requires 1 <= depth < MAX_DEPTH
    requires WfName(ch.name) && NextOk(body)
    requires ReadBody(body, lc + 1, Component(ch.name, [], []), depth + 1, foldNames) == Built(StatusAt(OK, lcAfter), ch, after, lcAfter)
    requires grown == comp.(comps := comp.comps + [ch])
    ensures ReadBody(BeginLine(ch.name) + body, lc, comp, depth, foldNames) == ReadBody(after, lcAfter, grown, depth, foldNames)
  {
    ReadBeginLine(ch.name, body, lc);
    var input := BeginLine(ch.name) + body;
    BodyStep(input, lc, comp, depth, "BEGIN:" + ch.name, Property("BEGIN", [], ch.name), body, lc + 1, foldNames);
    WfNameIsUpper(ch.name);
    assert ChildName(ch.name, foldNames) == ch.name;
    assert OnProperty(input, body, lc + 1, Property("BEGIN", [], ch.name), comp, depth, foldNames)
      == OnBegin(input, body, lc + 1, ch.name, comp, depth, foldNames);
    var child := Built(StatusAt(OK, lcAfter), ch, after, lcAfter);
    assert OnBegin(input, body, lc + 1, ch.name, comp, depth, foldNames) == AfterChild(body, child, comp, depth, foldNames);
  }

  /** The matching END line closes a non-empty component with OK. */
  lemma EndStep(c: Component, rest: string, lc: int, depth: nat, lcEnd: int, foldNames: bool)
    requires 1 <= depth <= MAX_DEPTH
    requires WfName(c.name) && (|c.props| > 0 || |c.comps| > 0) && NextOk(rest)
    requires lcEnd == lc + 1
    ensures ReadBody(EndLine(c.name) + rest, lc, c, depth, foldNames) == Built(StatusAt(OK, lcEnd), c, rest, lcEnd)
  {
    ReadEndLine(c.name, rest, lc);
    BodyStep(EndLine(c.name) + rest, lc, c, depth, "END:" + c.name, Property("END", [], c.name), rest, lc + 1, foldNames);
    WfNameIsUpper(c.name);
  }

  /** The first i children, followed by child i. */
  lemma TakeNext<T>(s: seq<T>, i: nat)
    requires i < |s|
    ensures s[..i] + [s[i]] == s[..i + 1]
  {
  }

  /**
   * Nested components written by writeCalComp are read back as the
   * children of the component being read, in order.
   */
  lemma {:induction false} ReadChildren(c: Component, i: nat, t: string, lc: int, depth: nat, lcEnd: int, foldNames: bool)
    requires WfTree(c, depth) && i <= |c.comps|
    requires NextOk(t)
    requires lcEnd == lc + ChildrenReadLines(c, i)
    ensures ReadBody(ChildrenText(c, i) + t, lc, Component(c.name, c.props, c.comps[..i]), depth, foldNames)
         == ReadBody(t, lcEnd, c, depth, foldNames)
    decreases c, 0, |c.comps| - i
  {
    if i == |c.comps| {
      assert c.comps[..i] == c.comps;
      assert Component(c.name, c.props, c.comps[..i]) == c && lcEnd == lc;
      assert ChildrenText(c, i) + t == t;
    } else {
      var lcAfter := lc + ReadLines(c.comps[i]);
      ChildRead(c, i, t, lc, depth, lcAfter, foldNames);
      ReadChildren(c, i + 1, t, lcAfter, depth, lcEnd, foldNames);
    }
  }

  /** The text of child i, split into its BEGIN line, its body and what follows. */
  lemma ChildText(c: Component, i: nat, t: string, depth: nat)
    requires WfTree(c, depth) && i < |c.comps|
    requires NextOk(t)
    ensures WfTree(c.comps[i], depth + 1)
    ensures NextOk(ChildrenText(c, i + 1) + t)
    ensures NextOk(BodyText(c.comps[i]) + (ChildrenText(c, i + 1) + t))
    ensures ChildrenText(c, i) + t
         == BeginLine(c.comps[i].name) + (BodyText(c.comps[i]) + (ChildrenText(c, i + 1) + t))
  {
    var ch := c.comps[i];
    assert WfTree(ch, depth + 1);
    assert |ch.props| == 0 || WfMember(ch.props[0]);
    ChildrenTextStart(c, i + 1, t);
    ChildrenTextSplit(c, i, t);
    BodyTextStart(ch, ChildrenText(c, i + 1) + t);
  }

  /** Child i of a written component is read back and added to the component being read. */
  lemma ChildRead(c: Component, i: nat, t: string, lc: int, depth: nat, lcAfter: int, foldNames: bool)
    requires WfTree(c, depth) && i < |c.comps|
    requires NextOk(t)
    requires lcAfter == lc + ReadLines(c.comps[i])
    ensures ReadBody(ChildrenText(c, i) + t, lc, Component(c.name, c.props, c.comps[..i]), depth, foldNames)
         == ReadBody(ChildrenText(c, i + 1) + t, lcAfter, Component(c.name, c.props, c.comps[..i + 1]), depth, foldNames)
    decreases c, 0, 0
  {
    ChildText(c, i, t, depth);
    TakeNext(c.comps, i);
    NestedRead(c.comps[i], ChildrenText(c, i + 1) + t, lc, Component(c.name, c.props, c.comps[..i]), depth, lcAfter,
      Component(c.name, c.props, c.comps[..i + 1]), foldNames);
  }

  /** A written nested component is read back and added to its parent. */
  lemma NestedRead(ch: Component, after: string, lc: int, comp: Component, depth: nat, lcAfter: int, grown: Component, foldNames: bool)
    requires 1 <= depth < MAX_DEPTH
    requires WfTree(ch, depth + 1) && NextOk(after) && NextOk(BodyText(ch) + after)
    requires lcAfter == lc + ReadLines(ch)
    requires grown == comp.(comps := comp.comps + [ch])
    ensures ReadBody(BeginLine(ch.name) + (BodyText(ch) + after), lc, comp, depth, foldNames) == ReadBody(after, lcAfter, grown, depth, foldNames)
    decreases ch, 2
  {
    ReadComponent(ch, depth + 1, after, lc + 1, lcAfter, foldNames);
    BeginStep(ch, BodyText(ch) + after, lc, comp, depth, after, lcAfter, grown, foldNames);
  }

  /**
   * The body of a well-formed component, followed by anything that starts
   * a new line, is read back as exactly that component, ending on the line
   * of its END.
   */
  lemma {:induction false} ReadComponent(c: Component, depth: nat, rest: string, lc: int, lcEnd: int, foldNames: bool)
    requires WfTree(c, depth) && NextOk(rest)
    requires lcEnd == lc + ReadLines(c) - 1
    ensures ReadBody(BodyText(c) + rest, lc, Component(c.name, [], []), depth, foldNames)
         == Built(StatusAt(OK, lcEnd), c, rest, lcEnd)
    decreases c, 1
  {
    var tail := EndLine(c.name) + rest;
    assert EndLine(c.name)[0] == 'E';
    var lc1 := lc + PropsLines(c.props);
    var lc2 := lc1 + ChildrenReadLines(c, 0);
    BodyTextSplit(c, rest);
    ChildrenTextStart(c, 0, tail);
    assert c.props[..0] == [] && c.props[0..] == c.props;
    ReadProps(c, 0, ChildrenText(c, 0) + tail, lc, depth, lc1, foldNames);
    assert c.comps[..0] == [];
    ReadChildren(c, 0, tail, lc1, depth, lc2, foldNames);
    EndStep(c, rest, lc2, depth, lcEnd, foldNames);
  }

  /** The first line of a written calendar is its BEGIN line. */
  lemma WrittenFirstLine(cal: Component)
    requires WfTree(cal, 1)
    ensures var r := ReadCalLine(CompText(cal), 0);
      r.line == Some("BEGIN:" + cal.name) && r.rest == BodyText(cal) && r.lineCount == 1
    ensures ParseCalProp("BEGIN:" + cal.name) == Some(Property("BEGIN", [], cal.name))
    ensures FirstLineNotEnd(CompText(cal))
  {
    Assoc4(BeginLine(cal.name), PropsText(cal.props), ChildrenText(cal, 0), EndLine(cal.name));
    if |cal.props| > 0 {
      assert WfMember(cal.props[0]);
    }
    BodyTextStart(cal, []);
    assert BodyText(cal) + [] == BodyText(cal);
    ReadBeginLine(cal.name, BodyText(cal), 0);
  }

  /** A well-formed tree is one readCalComp can have finished, with upper-case names. */
  lemma {:induction false} WfTreeFinished(c: Component, depth: nat)
    requires WfTree(c, depth)
    ensures Finished(c, depth) && UpperNames(c)
    decreases c
  {
    WfNameIsUpper(c.name);
    forall k | 0 <= k < |c.props|
      ensures ParsedProp(c.props[k])
    {
      assert WfMember(c.props[k]);
      WfNameIsUpper(c.props[k].name);
      WfParamsValid(c.props[k].params);
    }
    forall k | 0 <= k < |c.comps|
      ensures Finished(c.comps[k], depth + 1) && UpperNames(c.comps[k])
    {
      WfTreeFinished(c.comps[k], depth + 1);
    }
  }

  /** The whole-calendar checks pass on a well-formed calendar with nothing after it. */
  lemma CheckWritten(cal: Component, lcEnd: int, foldNames: bool)
    requires WfCalendar(cal) && Finished(cal, 1) && UpperNames(cal) && lcEnd >= 0
    ensures CheckCalendar(Built(StatusAt(OK, lcEnd), cal, [], lcEnd), foldNames) == ReadOutcome(StatusAt(OK, lcEnd), Some(cal))
  {
  }

  /**
   * readCalFile, with or without the child-name fix, reads back every
   * well-formed calendar writeCalComp writes, ending with status OK on the
   * last line.
   */
  lemma DocumentWritten(cal: Component, foldNames: bool)
    requires WfCalendar(cal)
    ensures FirstLineNotEnd(CompText(cal))
    ensures ReadDocument(CompText(cal), foldNames) == ReadOutcome(StatusAt(OK, ReadLines(cal)), Some(cal))
  {
    WrittenFirstLine(cal);
    ReadComponent(cal, 1, [], 1, ReadLines(cal), foldNames);
    assert BodyText(cal) + [] == BodyText(cal);
    var b := ReadBody(BodyText(cal), 1, Component("VCALENDAR", [], []), 1, foldNames);
    WfTreeFinished(cal, 1);
    assert ReadDocument(CompText(cal), foldNames) == CheckCalendar(b, foldNames);
    CheckWritten(cal, ReadLines(cal), foldNames);
  }

  /**
   * Both readCalFile as written and the name-fixed reader return the very
   * calendar that was written: names of a well-formed tree are already in
   * upper case, so the fix never comes into play here.
   */
  lemma ReadWritten(cal: Component)
    requires WfCalendar(cal)
    ensures FirstLineNotEnd(CompText(cal))
    ensures ReadCalFile(CompText(cal)) == ReadOutcome(StatusAt(OK, ReadLines(cal)), Some(cal))
    ensures ReadCalFileAsWritten(CompText(cal)) == ReadOutcome(StatusAt(OK, ReadLines(cal)), Some(cal))
  {
    DocumentWritten(cal, true);
    DocumentWritten(cal, false);
  }
}
