/*
 * readCalComp and readCalFile: build the component tree from content
 * lines, then apply the whole-calendar checks checkNoCal, checkBadVer and
 * checkProd, and finally reject text after the last END.
 *
 * readCalComp keeps its nesting depth in a static variable; here it is an
 * argument.  Every status it returns carries the current line count as
 * both ends of its range.
 */
module TreeBuilder {
  import opened CalTypes
  import opened LineReader
  import opened PropParser

  /** The deepest nesting readCalComp accepts: VCALENDAR, a component, a subcomponent. */
  const MAX_DEPTH: nat := 3

  /** What one readCalComp invocation leaves behind. */
  datatype Built = Built(status: CalStatus, comp: Component, rest: string, lineCount: int)

  // -----------------------------------------------------------------------
  // The shape of what readCalComp builds
  // -----------------------------------------------------------------------

  /** A property as parseCalProp returns it, other than BEGIN or END. */
  predicate ParsedProp(p: Property) {
    && |p.name| > 0
    && IsUpper(p.name)
    && ValidateParams(p.params)
    && p.name != "BEGIN"
    && p.name != "END"
  }

  /**
   * A component being filled in at the given depth: its properties are
   * parsed ones and its children are finished components one level down.
   */
  predicate Partial(c: Component, depth: nat)
    decreases c, 0
  {
    && depth <= MAX_DEPTH
    && (forall k :: 0 <= k < |c.props| ==> ParsedProp(c.props[k]))
    && (forall k :: 0 <= k < |c.comps| ==> Finished(c.comps[k], depth + 1))
  }

  /** A component closed by its END: not empty (else NODATA). */
  predicate Finished(c: Component, depth: nat)
    decreases c, 1
  {
    && Partial(c, depth)
    && (|c.props| > 0 || |c.comps| > 0)
  }

  /** Component names, as readCalComp stores them, with the fix applied. */
  predicate UpperNames(c: Component)
    decreases c
  {
    && IsUpper(c.name)
    && forall k :: 0 <= k < |c.comps| ==> UpperNames(c.comps[k])
  }

  // -----------------------------------------------------------------------
  // readCalComp
  // -----------------------------------------------------------------------

  /**
   * The name given to a nested component.  As written, readCalComp copies
   * the BEGIN value verbatim but upper-cases END values before comparing;
   * foldNames applies toupper() to both.
   */
  function ChildName(value: string, foldNames: bool): (n: string)
    ensures foldNames ==> IsUpper(n) && n == Upper(value)
    ensures !foldNames ==> n == value
  {
    if foldNames then
      UpperIsUpper(value);
      Upper(value)
    else value
  }

  /** What ReadBody promises about reading the body of comp at the given depth. */
  predicate BodyResult(input: string, lc: int, comp: Component, depth: nat, foldNames: bool, b: Built) {
    && IsSuffix(b.rest, input)
    && b.lineCount >= lc && b.status == StatusAt(b.status.code, b.lineCount)
    && b.status.code in {OK, BEGEND, NODATA, SUBCOM, SYNTAX}
    && (b.status.code == OK ==>
          && Finished(b.comp, depth)
          && b.comp.name == comp.name
          && |b.comp.props| >= |comp.props| && b.comp.props[..|comp.props|] == comp.props
          && |b.comp.comps| >= |comp.comps| && b.comp.comps[..|comp.comps|] == comp.comps)
    && (b.status.code == OK && foldNames && UpperNames(comp) ==> UpperNames(b.comp))
  }

  /**
   * The body of one component after its BEGIN line: properties are
   * appended in order, BEGIN opens a child one level down, and the
   * matching END closes the component.  A missing line (end of input or
   * NOCRNL) is BEGEND; a line parseCalProp rejects is SYNTAX.
   */
  function ReadBody(input: string, lc: int, comp: Component, depth: nat, foldNames: bool): (b: Built)
    requires 1 <= depth <= MAX_DEPTH
    ensures |b.rest| <= |input|
    ensures var r := ReadCalLine(input, lc);
      r.line.None? ==> b.status == StatusAt(BEGEND, r.lineCount) && b.comp == comp
    ensures var r := ReadCalLine(input, lc);
      r.line.Some? && ParseCalProp(r.line.value).None? ==> b.status == StatusAt(SYNTAX, r.lineCount) && b.comp == comp
    decreases |input|, 3
  {
    var r := ReadCalLine(input, lc);
    if r.line.None? then
      Built(StatusAt(BEGEND, r.lineCount), comp, r.rest, r.lineCount)
    else
      var parsed := ParseCalProp(r.line.value);
      if parsed.None? then
        Built(StatusAt(SYNTAX, r.lineCount), comp, r.rest, r.lineCount)
      else
        OnProperty(input, r.rest, r.lineCount, parsed.value, comp, depth, foldNames)
  }

  /** One parsed content line inside a component: BEGIN, END or an ordinary property. */
  function OnProperty(input: string, rest: string, lc: int, p: Property, comp: Component, depth: nat, foldNames: bool): (b: Built)
    requires 1 <= depth <= MAX_DEPTH
    requires |rest| < |input|
    ensures |b.rest| <= |rest|
    decreases |input|, 2
  {
    if p.name == "BEGIN" then OnBegin(input, rest, lc, p.value, comp, depth, foldNames)
    else if p.name == "END" then OnEnd(rest, lc, p.value, comp)
    else OnOrdinary(input, rest, lc, p, comp, depth, foldNames)
  }

  /** BEGIN: a child one level down, unless the nesting is already at its limit. */
  function OnBegin(input: string, rest: string, lc: int, value: string, comp: Component, depth: nat, foldNames: bool): (b: Built)
    requires 1 <= depth <= MAX_DEPTH
    requires |rest| < |input|
    ensures |b.rest| <= |rest|
    ensures depth == MAX_DEPTH ==> b == Built(StatusAt(SUBCOM, lc), comp, rest, lc)
    ensures depth < MAX_DEPTH ==>
      var child := ReadBody(rest, lc, Component(ChildName(value, foldNames), [], []), depth + 1, foldNames);
      child.status.code != OK ==> b.status == child.status
    decreases |input|, 1
  {
    if depth == MAX_DEPTH then
      Built(StatusAt(SUBCOM, lc), comp, rest, lc)
    else
      var child := ReadBody(rest, lc, Component(ChildName(value, foldNames), [], []), depth + 1, foldNames);
      if child.status.code != OK then
        Built(child.status, comp.(comps := comp.comps + [child.comp]), child.rest, child.lineCount)
      else
        AfterChild(rest, child, comp, depth, foldNames)
  }

  /** END: closes the component when its value names it; an empty component is NODATA. */
  function OnEnd(rest: string, lc: int, value: string, comp: Component): (b: Built)
    ensures b.rest == rest && b.comp == comp && b.status == StatusAt(b.status.code, lc)
    ensures b.status.code == OK <==> Upper(value) == comp.name && (|comp.props| > 0 || |comp.comps| > 0)
    ensures Upper(value) != comp.name ==> b.status.code == BEGEND
    ensures Upper(value) == comp.name && |comp.props| == 0 && |comp.comps| == 0 ==> b.status.code == NODATA
  {
    if Upper(value) == comp.name then
      if |comp.comps| == 0 && |comp.props| == 0 then
        Built(StatusAt(NODATA, lc), comp, rest, lc)
      else
        Built(StatusAt(OK, lc), comp, rest, lc)
    else
      Built(StatusAt(BEGEND, lc), comp, rest, lc)
  }

  /** Any other property is appended to the component. */
  function OnOrdinary(input: string, rest: string, lc: int, p: Property, comp: Component, depth: nat, foldNames: bool): (b: Built)
    requires 1 <= depth <= MAX_DEPTH
    requires |rest| < |input|
    ensures |b.rest| <= |rest|
    decreases |input|, 1
  {
    ReadBody(rest, lc, comp.(props := comp.props + [p]), depth, foldNames)
  }

  /** After a child closed with OK, the parent goes on reading. */
  function AfterChild(rest: string, child: Built, comp: Component, depth: nat, foldNames: bool): (b: Built)
    requires 1 <= depth < MAX_DEPTH
    requires |child.rest| <= |rest|
    ensures |b.rest| <= |rest|
    decreases |rest|, 4
  {
    ReadBody(child.rest, child.lineCount, comp.(comps := comp.comps + [child.comp]), depth, foldNames)
  }

  // -----------------------------------------------------------------------
  // What readCalComp guarantees
  // -----------------------------------------------------------------------

  /**
   * Reading a body stops at a suffix of the input, never moves the line
   * count backwards, and ends in one of readCalComp's statuses; with OK it
   * has closed a non-empty component of the same name that extends the
   * one it started from, every property a parsed one and every child
   * itself finished.
   */
  lemma {:induction false} ReadBodyResult(input: string, lc: int, comp: Component, depth: nat, foldNames: bool)
    requires 1 <= depth <= MAX_DEPTH
    requires Partial(comp, depth)
    ensures BodyResult(input, lc, comp, depth, foldNames, ReadBody(input, lc, comp, depth, foldNames))
    decreases |input|, 3
  {
    var r := ReadCalLine(input, lc);
    if r.line.Some? {
      var parsed := ParseCalProp(r.line.value);
      if parsed.Some? {
        UpperIsUpper(r.line.value[..FirstSep(r.line.value)]);
        OnPropertyResult(input, r.rest, r.lineCount, parsed.value, comp, depth, foldNames);
        SuffixOfSuffix(ReadBody(input, lc, comp, depth, foldNames).rest, r.rest, input);
      }
    }
  }

  lemma {:induction false} OnPropertyResult(input: string, rest: string, lc: int, p: Property, comp: Component, depth: nat, foldNames: bool)
    requires 1 <= depth <= MAX_DEPTH
    requires Partial(comp, depth)
    requires |rest| < |input|
    requires |p.name| > 0 && IsUpper(p.name) && ValidateParams(p.params)
    ensures BodyResult(rest, lc, comp, depth, foldNames, OnProperty(input, rest, lc, p, comp, depth, foldNames))
    decreases |input|, 2
  {
    if p.name == "BEGIN" {
      OnBeginResult(input, rest, lc, p.value, comp, depth, foldNames);
    } else if p.name == "END" {
      assert IsSuffix(rest, rest);
    } else {
      OnOrdinaryResult(input, rest, lc, p, comp, depth, foldNames);
    }
  }

  lemma {:induction false} OnBeginResult(input: string, rest: string, lc: int, value: string, comp: Component, depth: nat, foldNames: bool)
    requires 1 <= depth <= MAX_DEPTH
    requires Partial(comp, depth)
    requires |rest| < |input|
    ensures BodyResult(rest, lc, comp, depth, foldNames, OnBegin(input, rest, lc, value, comp, depth, foldNames))
    decreases |input|, 1
  {
    if depth == MAX_DEPTH {
      assert IsSuffix(rest, rest);
    } else {
      var start := Component(ChildName(value, foldNames), [], []);
      var child := ReadBody(rest, lc, start, depth + 1, foldNames);
      ReadBodyResult(rest, lc, start, depth + 1, foldNames);
      if child.status.code == OK {
        AfterChildResult(rest, child, comp, depth, foldNames);
      }
    }
  }

  lemma {:induction false} OnOrdinaryResult(input: string, rest: string, lc: int, p: Property, comp: Component, depth: nat, foldNames: bool)
    requires 1 <= depth <= MAX_DEPTH
    requires Partial(comp, depth)
    requires |rest| < |input|
    requires |p.name| > 0 && IsUpper(p.name) && ValidateParams(p.params)
    requires p.name != "BEGIN" && p.name != "END"
    ensures BodyResult(rest, lc, comp, depth, foldNames, OnOrdinary(input, rest, lc, p, comp, depth, foldNames))
    decreases |input|, 1
  {
    var grown := comp.(props := comp.props + [p]);
    assert Partial(grown, depth) by {
      assert forall k :: 0 <= k < |comp.props| ==> grown.props[k] == comp.props[k];
    }
    ReadBodyResult(rest, lc, grown, depth, foldNames);
    var b := ReadBody(rest, lc, grown, depth, foldNames);
    PrefixOfPrefix(b.comp.props, grown.props, comp.props, b.status.code == OK);
  }

  lemma {:induction false} AfterChildResult(rest: string, child: Built, comp: Component, depth: nat, foldNames: bool)
    requires 1 <= depth < MAX_DEPTH
    requires Partial(comp, depth)
    requires BodyResult(rest, child.lineCount, Component(child.comp.name, [], []), depth + 1, foldNames, child)
    requires child.status.code == OK
    requires foldNames ==> IsUpper(child.comp.name)
    ensures BodyResult(rest, child.lineCount, comp, depth, foldNames, AfterChild(rest, child, comp, depth, foldNames))
    decreases |rest|, 4
  {
    var grown := comp.(comps := comp.comps + [child.comp]);
    assert Partial(grown, depth) by {
      assert forall k :: 0 <= k < |comp.comps| ==> grown.comps[k] == comp.comps[k];
    }
    ReadBodyResult(child.rest, child.lineCount, grown, depth, foldNames);
    var b := ReadBody(child.rest, child.lineCount, grown, depth, foldNames);
    PrefixOfPrefix(b.comp.comps, grown.comps, comp.comps, b.status.code == OK);
    SuffixOfSuffix(b.rest, child.rest, rest);
  }

  lemma SuffixOfSuffix(a: string, b: string, c: string)
    requires IsSuffix(a, b) && IsSuffix(b, c)
    ensures IsSuffix(a, c)
  {
  }

  lemma PrefixOfPrefix<T>(s: seq<T>, mid: seq<T>, short: seq<T>, cond: bool)
    requires cond ==> |s| >= |mid| && s[..|mid|] == mid
    requires |mid| >= |short| && mid[..|short|] == short
    ensures cond ==> |s| >= |short| && s[..|short|] == short
  {
    if cond {
      assert s[..|short|] == s[..|mid|][..|short|];
    }
  }

  // -----------------------------------------------------------------------
  // The whole-calendar checks
  // -----------------------------------------------------------------------

  /** How many properties satisfy a test. */
  function CountProps(props: seq<Property>, f: Property -> bool): (n: nat)
    ensures n <= |props|
  {
    if |props| == 0 then 0
    else (if f(props[0]) then 1 else 0) + CountProps(props[1..], f)
  }

  predicate IsGoodVersion(p: Property) {
    p.name == "VERSION" && p.value == VCAL_VER
  }

  predicate IsProdId(p: Property) {
    p.name == "PRODID"
  }

  /** The component's name, or one of its children's, starts with 'V'. */
  predicate VNamed(c: Component) {
    StartsWithV(c.name) || exists y :: 0 <= y < |c.comps| && StartsWithV(c.comps[y].name)
  }

  /** Some top-level component or subcomponent has a name starting with 'V'. */
  predicate HasVComponent(cal: Component) {
    exists i :: 0 <= i < |cal.comps| && VNamed(cal.comps[i])
  }

  /** The inner loop of checkNoCal over one component's children. */
  function AnyChildV(comps: seq<Component>, j: nat): (found: bool)
    requires j <= |comps|
    ensures found <==> exists y :: j <= y < |comps| && StartsWithV(comps[y].name)
    decreases |comps| - j
  {
    if j == |comps| then false
    else if StartsWithV(comps[j].name) then true
    else AnyChildV(comps, j + 1)
  }

  /** The outer loop of checkNoCal, from top-level component i on. */
  function CheckNoCalFrom(cal: Component, i: nat): (found: bool)
    requires i <= |cal.comps|
    ensures found <==> exists x :: i <= x < |cal.comps| && VNamed(cal.comps[x])
    decreases |cal.comps| - i
  {
    if i == |cal.comps| then false
    else if StartsWithV(cal.comps[i].name) then true
    else if AnyChildV(cal.comps[i].comps, 0) then true
    else CheckNoCalFrom(cal, i + 1)
  }

  /** checkNoCal: true when some component or subcomponent name starts with 'V'. */
  function CheckNoCal(cal: Component): (ok: bool)
    ensures ok <==> HasVComponent(cal)
  {
    CheckNoCalFrom(cal, 0)
  }

  /**
   * The loop of checkBadVer: a second VERSION:2.0 fails at once, a
   * VERSION with any other value is passed over.
   */
  function CheckBadVerLoop(props: seq<Property>, found: bool): (ok: bool)
    ensures ok <==> (if found then CountProps(props, IsGoodVersion) == 0 else CountProps(props, IsGoodVersion) == 1)
  {
    if |props| == 0 then found
    else if IsGoodVersion(props[0]) then
      if found then false else CheckBadVerLoop(props[1..], true)
    else CheckBadVerLoop(props[1..], found)
  }

  /** checkBadVer: exactly one VERSION property with value 2.0. */
  function CheckBadVer(props: seq<Property>): (ok: bool)
    ensures ok <==> CountProps(props, IsGoodVersion) == 1
  {
    CheckBadVerLoop(props, false)
  }

  function CheckProdLoop(props: seq<Property>, found: bool): (ok: bool)
    ensures ok <==> (if found then CountProps(props, IsProdId) == 0 else CountProps(props, IsProdId) == 1)
  {
    if |props| == 0 then found
    else if IsProdId(props[0]) then
      if found then false else CheckProdLoop(props[1..], true)
    else CheckProdLoop(props[1..], found)
  }

  /** checkProd: exactly one PRODID property. */
  function CheckProd(props: seq<Property>): (ok: bool)
    ensures ok <==> CountProps(props, IsProdId) == 1
  {
    CheckProdLoop(props, false)
  }

  /** Everything readCalFile guarantees of a calendar it returns. */
  predicate ValidCalendar(cal: Component) {
    && cal.name == "VCALENDAR"
    && Finished(cal, 1)
    && HasVComponent(cal)
    && CountProps(cal.props, IsGoodVersion) == 1
    && CountProps(cal.props, IsProdId) == 1
  }

  // -----------------------------------------------------------------------
  // readCalFile
  // -----------------------------------------------------------------------

  /** The status, and the tree when the status is OK. */
  datatype ReadOutcome = ReadOutcome(status: CalStatus, tree: Option<Component>)

  function Fail(s: CalStatus): ReadOutcome {
    ReadOutcome(s, None)
  }

  /**
   * readCalComp compares an END with the name of a component that has not
   * been started when END is the very first content line; the model does
   * not follow it there.
   */
  predicate FirstLineNotEnd(input: string) {
    var r := ReadCalLine(input, 0);
    r.line.Some? && ParseCalProp(r.line.value).Some? ==> ParseCalProp(r.line.value).value.name != "END"
  }

  /** What readCalFile promises about its outcome. */
  predicate Outcome(o: ReadOutcome, foldNames: bool) {
    && (o.tree.Some? <==> o.status.code == OK)
    && o.status.linefrom == o.status.lineto >= 0
    && o.status.code in {OK, AFTEND, BADVER, BEGEND, NOCAL, NODATA, NOPROD, SUBCOM, SYNTAX}
    && (o.tree.Some? ==> ValidCalendar(o.tree.value))
    && (o.tree.Some? && foldNames ==> UpperNames(o.tree.value))
  }

  /**
   * How readCalFile treats the first content line: none at all is NOCAL,
   * one parseCalProp rejects is SYNTAX, anything but BEGIN:VCALENDAR is
   * NOCAL, and BEGIN:VCALENDAR goes on to read the calendar's body.
   */
  predicate FirstLineOutcome(input: string, foldNames: bool, o: ReadOutcome) {
    var r := ReadCalLine(input, 0);
    if r.line.None? then o == Fail(StatusAt(NOCAL, r.lineCount))
    else if ParseCalProp(r.line.value).None? then o == Fail(StatusAt(SYNTAX, r.lineCount))
    else
      var p := ParseCalProp(r.line.value).value;
      if p.name == "BEGIN" && p.value == "VCALENDAR" then r.lineCount >= 0 && o == ReadRoot(r.rest, r.lineCount, foldNames)
      else o == Fail(StatusAt(NOCAL, r.lineCount))
  }

  /** readCalFile, with or without the child-name fix. */
  function ReadDocument(input: string, foldNames: bool): (o: ReadOutcome)
    requires FirstLineNotEnd(input)
    ensures Outcome(o, foldNames)
    ensures FirstLineOutcome(input, foldNames, o)
  {
    var r := ReadCalLine(input, 0);
    if r.line.None? then Fail(StatusAt(NOCAL, r.lineCount))
    else
      var parsed := ParseCalProp(r.line.value);
      if parsed.None? then Fail(StatusAt(SYNTAX, r.lineCount))
      else if parsed.value.name == "BEGIN" && parsed.value.value == "VCALENDAR" then
        ReadRoot(r.rest, r.lineCount, foldNames)
      else Fail(StatusAt(NOCAL, r.lineCount))
  }

  /** The body of VCALENDAR after its BEGIN line, then the whole-calendar checks. */
  function ReadRoot(rest: string, lc: int, foldNames: bool): (o: ReadOutcome)
    requires lc >= 0
    ensures Outcome(o, foldNames)
    ensures var b := ReadBody(rest, lc, Component("VCALENDAR", [], []), 1, foldNames);
      if b.status.code != OK then o == Fail(b.status)
      else (RootRead(rest, lc, foldNames); o == CheckCalendar(b, foldNames))
  {
    var root := Component("VCALENDAR", [], []);
    RootRead(rest, lc, foldNames);
    var b := ReadBody(rest, lc, root, 1, foldNames);
    if b.status.code != OK then Fail(b.status)
    else CheckCalendar(b, foldNames)
  }

  /** What reading the body of VCALENDAR leaves for the whole-calendar checks. */
  lemma RootRead(rest: string, lc: int, foldNames: bool)
    ensures IsUpper("VCALENDAR")
    ensures BodyResult(rest, lc, Component("VCALENDAR", [], []), 1, foldNames,
                       ReadBody(rest, lc, Component("VCALENDAR", [], []), 1, foldNames))
  {
    var root := Component("VCALENDAR", [], []);
    assert IsUpper(root.name) by {
      assert forall i :: 0 <= i < |root.name| ==> root.name[i] in "VCALENDAR";
    }
    ReadBodyResult(rest, lc, root, 1, foldNames);
  }

  /**
   * The checks readCalFile applies once the tree is complete, in order,
   * then one more readCalLine: any further line is AFTEND.
   */
  function CheckCalendar(b: Built, foldNames: bool): (o: ReadOutcome)
    requires b.status.code == OK && b.lineCount >= 0
    requires Finished(b.comp, 1) && b.comp.name == "VCALENDAR"
    requires foldNames ==> UpperNames(b.comp)
    ensures Outcome(o, foldNames)
    ensures o.tree.Some? ==> o.tree.value == b.comp
    ensures !HasVComponent(b.comp) ==> o == Fail(StatusAt(NOCAL, b.lineCount))
    ensures HasVComponent(b.comp) && CountProps(b.comp.props, IsGoodVersion) != 1 ==> o == Fail(StatusAt(BADVER, b.lineCount))
    ensures HasVComponent(b.comp) && CountProps(b.comp.props, IsGoodVersion) == 1 && CountProps(b.comp.props, IsProdId) != 1
      ==> o == Fail(StatusAt(NOPROD, b.lineCount))
    ensures ValidCalendar(b.comp) ==>
      var t := ReadCalLine(b.rest, b.lineCount);
      && (t.line.Some? ==> o == Fail(StatusAt(AFTEND, t.lineCount)))
      && (t.line.None? ==> o == ReadOutcome(StatusAt(OK, t.lineCount), Some(b.comp)))
  {
    if !CheckNoCal(b.comp) then Fail(StatusAt(NOCAL, b.lineCount))
    else if !CheckBadVer(b.comp.props) then Fail(StatusAt(BADVER, b.lineCount))
    else if !CheckProd(b.comp.props) then Fail(StatusAt(NOPROD, b.lineCount))
    else
      var t := ReadCalLine(b.rest, b.lineCount);
      if t.line.Some? then Fail(StatusAt(AFTEND, t.lineCount))
      else ReadOutcome(StatusAt(OK, t.lineCount), Some(b.comp))
  }

  /** readCalFile with component names upper-cased when they are opened. */
  function ReadCalFile(input: string): (o: ReadOutcome)
    requires FirstLineNotEnd(input)
    ensures o.tree.Some? <==> o.status.code == OK
    ensures o.tree.Some? ==> ValidCalendar(o.tree.value) && UpperNames(o.tree.value)
    ensures FirstLineOutcome(input, true, o)
  {
    ReadDocument(input, true)
  }

  /** readCalFile as written: nested component names are kept as spelled. */
  function ReadCalFileAsWritten(input: string): (o: ReadOutcome)
    requires FirstLineNotEnd(input)
    ensures o.tree.Some? <==> o.status.code == OK
    ensures o.tree.Some? ==> ValidCalendar(o.tree.value)
    ensures FirstLineOutcome(input, false, o)
  {
    ReadDocument(input, false)
  }

  /**
   * As written, a nested component opened with a name that is not all
   * upper case can never be closed: END compares the upper-cased value
   * with the name as it was spelled, so every END line gives BEGEND.
   */
  lemma LowerChildNeverClosesAsWritten(rest: string, lc: int, spelled: string, endValue: string, comp: Component)
    requires Upper(spelled) != spelled
    requires comp.name == ChildName(spelled, false)
    ensures OnEnd(rest, lc, endValue, comp).status.code == BEGEND
  {
    UpperIsUpper(endValue);
    if Upper(endValue) == spelled {
      UpperOfUpper(spelled);
    }
  }

  /**
   * With the opened name upper-cased, an END line closes a non-empty
   * nested component exactly when its value names it up to case.
   */
  lemma ChildClosesWithFoldedNames(rest: string, lc: int, spelled: string, endValue: string, comp: Component)
    requires comp.name == ChildName(spelled, true)
    requires |comp.props| > 0 || |comp.comps| > 0
    ensures OnEnd(rest, lc, endValue, comp).status.code == OK <==> Upper(endValue) == Upper(spelled)
  {
  }
}
