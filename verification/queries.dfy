/*
 * caltool's read-only queries: the counts and wording of calInfo, the date
 * range and organizer list of sortedCommonNames, and the X-property mode
 * of calExtract.  Every printed piece of text is returned; the status
 * carries the module-level line counter, which each successful fprintf
 * advances by one.
 */
module Queries {
  import opened CalTypes
  import opened SortedNames

  // -----------------------------------------------------------------------
  // countVEvent, countToDo, countOther, countSubComponents, countProperties
  // -----------------------------------------------------------------------

  /** How many of the components pass a test. */
  function CountComps(comps: seq<Component>, f: Component -> bool): (n: nat)
    ensures n <= |comps|
    ensures n == 0 <==> forall i :: 0 <= i < |comps| ==> !f(comps[i])
    ensures n == |comps| <==> forall i :: 0 <= i < |comps| ==> f(comps[i])
  {
    if |comps| == 0 then 0
    else
      assert forall i :: 0 < i < |comps| ==> comps[1..][i - 1] == comps[i];
      (if f(comps[0]) then 1 else 0) + CountComps(comps[1..], f)
  }

  predicate IsEvent(c: Component) {
    c.name == "VEVENT"
  }

  predicate IsToDo(c: Component) {
    c.name == "VTODO"
  }

  predicate IsOther(c: Component) {
    c.name != "VTODO" && c.name != "VEVENT"
  }

  /** countVEvent: top-level components named exactly VEVENT. */
  function CountVEvent(comp: Component): (n: nat)
    ensures n <= |comp.comps|
    ensures n == 0 <==> forall i :: 0 <= i < |comp.comps| ==> comp.comps[i].name != "VEVENT"
  {
    CountComps(comp.comps, IsEvent)
  }

  /** countToDo: top-level components named exactly VTODO. */
  function CountToDo(comp: Component): (n: nat)
    ensures n <= |comp.comps|
    ensures n == 0 <==> forall i :: 0 <= i < |comp.comps| ==> comp.comps[i].name != "VTODO"
  {
    CountComps(comp.comps, IsToDo)
  }

  /** countOther: top-level components named neither VTODO nor VEVENT. */
  function CountOther(comp: Component): (n: nat)
    ensures n <= |comp.comps|
    ensures n == 0 <==> forall i :: 0 <= i < |comp.comps| ==> comp.comps[i].name in {"VTODO", "VEVENT"}
  {
    CountComps(comp.comps, IsOther)
  }

  lemma {:induction false} KindsPartition(comps: seq<Component>)
    ensures CountComps(comps, IsEvent) + CountComps(comps, IsToDo) + CountComps(comps, IsOther) == |comps|
  {
    if |comps| > 0 {
      KindsPartition(comps[1..]);
    }
  }

  /** Every top-level component is counted by exactly one of the three. */
  lemma CountKinds(comp: Component)
    ensures CountVEvent(comp) + CountToDo(comp) + CountOther(comp) == |comp.comps|
  {
    KindsPartition(comp.comps);
  }

  lemma {:induction false} CountCompsAppend(a: seq<Component>, b: seq<Component>, f: Component -> bool)
    ensures CountComps(a + b, f) == CountComps(a, f) + CountComps(b, f)
  {
    if |a| == 0 {
      assert a + b == b;
    } else {
      assert (a + b)[1..] == a[1..] + b;
      CountCompsAppend(a[1..], b, f);
    }
  }

  /** The loop of countSubComponents over the top-level components. */
  function SubCount(comps: seq<Component>): (n: nat)
    ensures n == 0 <==> forall i :: 0 <= i < |comps| ==> |comps[i].comps| == 0
    ensures forall i :: 0 <= i < |comps| ==> |comps[i].comps| <= n
  {
    if |comps| == 0 then 0
    else
      assert forall i :: 0 < i < |comps| ==> comps[1..][i - 1] == comps[i];
      (if |comps[0].comps| != 0 then |comps[0].comps| else 0) + SubCount(comps[1..])
  }

  /** countSubComponents: the subcomponents of all top-level components. */
  function CountSubComponents(comp: Component): (n: nat)
    ensures n == 0 <==> forall i :: 0 <= i < |comp.comps| ==> |comp.comps[i].comps| == 0
    ensures forall i :: 0 <= i < |comp.comps| ==> |comp.comps[i].comps| <= n
  {
    SubCount(comp.comps)
  }

  /** No component in the list, nor any below it, has a property. */
  predicate NoPropsIn(comps: seq<Component>)
    decreases comps
  {
    forall i :: 0 <= i < |comps| ==> |comps[i].props| == 0 && NoPropsIn(comps[i].comps)
  }

  /** The recursion of countProperties over a list of components. */
  function PropsBelow(comps: seq<Component>): (n: nat)
    ensures n == 0 <==> NoPropsIn(comps)
    decreases comps
  {
    if |comps| == 0 then 0
    else
      assert forall i :: 0 < i < |comps| ==> comps[1..][i - 1] == comps[i];
      |comps[0].props| + PropsBelow(comps[0].comps) + PropsBelow(comps[1..])
  }

  /** countProperties: the properties of every component below the root. */
  function CountProperties(comp: Component): (n: nat)
    ensures n == 0 <==> NoPropsIn(comp.comps)
  {
    PropsBelow(comp.comps)
  }

  lemma {:induction false} PropsBelowAppend(a: seq<Component>, b: seq<Component>)
    ensures PropsBelow(a + b) == PropsBelow(a) + PropsBelow(b)
  {
    if |a| == 0 {
      assert a + b == b;
    } else {
      assert (a + b)[0] == a[0];
      assert (a + b)[1..] == a[1..] + b;
      PropsBelowAppend(a[1..], b);
    }
  }

  // -----------------------------------------------------------------------
  // calInfo: the count lines
  // -----------------------------------------------------------------------

  function Digit(d: nat): (c: char)
    requires d < 10
    ensures '0' <= c <= '9' && c as int - '0' as int == d
  {
    ('0' as int + d) as char
  }

  /** printf's %d for a count. */
  function Decimal(n: nat): (s: string)
    ensures |s| > 0
    ensures forall i :: 0 <= i < |s| ==> '0' <= s[i] <= '9'
    ensures |s| > 1 ==> s[0] != '0'
  {
    if n < 10 then [Digit(n)] else Decimal(n / 10) + [Digit(n % 10)]
  }

  /** The number a string of decimal digits denotes. */
  function DecimalValue(s: string): nat
    requires forall i :: 0 <= i < |s| ==> '0' <= s[i] <= '9'
  {
    if |s| == 0 then 0 else DecimalValue(s[..|s| - 1]) * 10 + (s[|s| - 1] as int - '0' as int)
  }

  /** The printed count reads back as the count. */
  lemma {:induction false} DecimalRoundTrip(n: nat)
    ensures DecimalValue(Decimal(n)) == n
  {
    if n >= 10 {
      DecimalRoundTrip(n / 10);
      var s := Decimal(n);
      assert s[..|s| - 1] == Decimal(n / 10);
    }
  }

  /** Different counts are printed differently. */
  lemma DecimalInjective(a: nat, b: nat)
    requires Decimal(a) == Decimal(b)
    ensures a == b
  {
    DecimalRoundTrip(a);
    DecimalRoundTrip(b);
  }

  const Singulars: seq<string> := ["line", "component", "event", "todo", "other", "subcomponent", "property"]
  const Plurals: seq<string> := ["lines", "components", "events", "todos", "others", "subcomponents", "properties"]
  const Tails: seq<string> := ["\n", ": ", ", ", ", ", "\n", "\n", "\n"]

  /** The noun of count line k for the count n. */
  function Noun(n: nat, k: nat): string
    requires k < 7
  {
    if n != 1 then Plurals[k] else Singulars[k]
  }

  /** Each plural is longer than its singular, so the two never coincide. */
  lemma PluralsLonger(k: nat)
    requires k < 7
    ensures |Plurals[k]| > |Singulars[k]|
  {
  }

  /** calInfo's grammar: the singular noun is printed exactly when the count is 1. */
  lemma NounAgrees(n: nat, k: nat)
    requires k < 7
    ensures Noun(n, k) == Singulars[k] <==> n == 1
    ensures Noun(n, k) == Plurals[k] <==> n != 1
  {
    PluralsLonger(k);
  }

  /**
   * The seven counts calInfo prints, in order: the lines read, the
   * top-level components, then events, todos and others among them, the
   * subcomponents, and all properties including the calendar's own.
   */
  datatype Tally = Tally(lines: nat, comps: nat, events: nat, todos: nat, others: nat, subs: nat, props: nat)

  /** Count k of a tally, in printing order. */
  function Nth(t: Tally, k: nat): nat
    requires k < 7
  {
    match k
    case 0 => t.lines
    case 1 => t.comps
    case 2 => t.events
    case 3 => t.todos
    case 4 => t.others
    case 5 => t.subs
    case _ => t.props
  }

  function InfoCounts(comp: Component, lines: nat): (t: Tally)
    ensures t.lines == lines && t.comps == |comp.comps|
    ensures t.events + t.todos + t.others == t.comps
    ensures t.subs == CountSubComponents(comp)
    ensures t.props == CountProperties(comp) + |comp.props|
  {
    CountKinds(comp);
    Tally(lines, |comp.comps|, CountVEvent(comp), CountToDo(comp), CountOther(comp),
          CountSubComponents(comp), CountProperties(comp) + |comp.props|)
  }

  /** Count line k: the number, a space, the noun, then a newline or a separator. */
  function CountText(n: nat, k: nat): string
    requires k < 7
  {
    Decimal(n) + " " + Noun(n, k) + Tails[k]
  }

  /** The count lines from k on. */
  function CountsText(t: Tally, k: nat): string
    requires k <= 7
    decreases 7 - k
  {
    if k == 7 then [] else CountText(Nth(t, k), k) + CountsText(t, k + 1)
  }

  // -----------------------------------------------------------------------
  // Walking the tree as sortedCommonNames and calExtract do
  // -----------------------------------------------------------------------

  /** What a collector takes from the subcomponents' properties, in order. */
  function Grand(comps: seq<Component>, f: seq<Property> -> seq<string>): seq<string> {
    if |comps| == 0 then [] else f(comps[0].props) + Grand(comps[1..], f)
  }

  /**
   * What a collector takes from each top-level component's properties,
   * followed each time by its subcomponents'.
   */
  function Below(comps: seq<Component>, f: seq<Property> -> seq<string>): seq<string> {
    if |comps| == 0 then [] else f(comps[0].props) + Grand(comps[0].comps, f) + Below(comps[1..], f)
  }

  /** s comes from the properties of a subcomponent. */
  ghost predicate InGrand(comps: seq<Component>, f: seq<Property> -> seq<string>, s: string) {
    exists y :: 0 <= y < |comps| && s in f(comps[y].props)
  }

  /** s comes from a top-level component or one of its subcomponents. */
  ghost predicate InBelow(comps: seq<Component>, f: seq<Property> -> seq<string>, s: string) {
    exists i :: 0 <= i < |comps| && (s in f(comps[i].props) || InGrand(comps[i].comps, f, s))
  }

  lemma {:induction false} GrandMembers(comps: seq<Component>, f: seq<Property> -> seq<string>, s: string)
    ensures s in Grand(comps, f) <==> InGrand(comps, f, s)
  {
    if |comps| > 0 {
      GrandMembers(comps[1..], f, s);
      if InGrand(comps[1..], f, s) {
        var y :| 0 <= y < |comps[1..]| && s in f(comps[1..][y].props);
        assert comps[y + 1] == comps[1..][y];
      }
      if InGrand(comps, f, s) && s !in f(comps[0].props) {
        var y :| 0 <= y < |comps| && s in f(comps[y].props);
        assert comps[1..][y - 1] == comps[y];
      }
    }
  }

  lemma {:induction false} BelowMembers(comps: seq<Component>, f: seq<Property> -> seq<string>, s: string)
    ensures s in Below(comps, f) <==> InBelow(comps, f, s)
  {
    if |comps| > 0 {
      GrandMembers(comps[0].comps, f, s);
      BelowMembers(comps[1..], f, s);
      if InBelow(comps[1..], f, s) {
        var i :| 0 <= i < |comps[1..]| && (s in f(comps[1..][i].props) || InGrand(comps[1..][i].comps, f, s));
        assert comps[i + 1] == comps[1..][i];
      }
      if InBelow(comps, f, s) && s !in f(comps[0].props) && !InGrand(comps[0].comps, f, s) {
        var i :| 0 <= i < |comps| && (s in f(comps[i].props) || InGrand(comps[i].comps, f, s));
        assert comps[1..][i - 1] == comps[i];
      }
    }
  }

  // -----------------------------------------------------------------------
  // sortedCommonNames: the date range
  // -----------------------------------------------------------------------

  /** The date properties sortedCommonNames looks at. */
  predicate IsDateProp(p: Property) {
    p.name in {"COMPLETED", "DTEND", "DUE", "DTSTART", "CREATED", "DTSTAMP", "LAST-MODIFIED"}
  }

  /** The values of the date properties, in order. */
  function DatesOf(props: seq<Property>): seq<string> {
    if |props| == 0 then []
    else (if IsDateProp(props[0]) then [props[0].value] else []) + DatesOf(props[1..])
  }

  /**
   * The dates sortedCommonNames scans: those of the top-level components
   * and their subcomponents (not the calendar's own), in the order met.
   */
  function DateValues(cal: Component): seq<string> {
    Below(cal.comps, DatesOf)
  }

  /** What the scan has found: nothing yet, one date, or an oldest and a newest. */
  datatype Span = NoDates | OnlyOldest(oldest: string) | Both(oldest: string, newest: string)

  /**
   * One date met by the scan as written.  With only an oldest date found,
   * an earlier date replaces it and the one it replaces is dropped.
   */
  function StepAsWritten(s: Span, v: string, key: string -> int): Span {
    match s
    case NoDates => OnlyOldest(v)
    case OnlyOldest(o) =>
      if key(v) > key(o) then Both(o, v)
      else if key(v) < key(o) then OnlyOldest(v)
      else s
    case Both(o, n) =>
      if key(v) > key(n) then Both(o, v)
      else if key(v) < key(o) then Both(v, n)
      else s
  }

  function ScanAsWritten(vals: seq<string>, key: string -> int, s: Span): Span {
    if |vals| == 0 then s else ScanAsWritten(vals[1..], key, StepAsWritten(s, vals[0], key))
  }

  /** One date met by the scan, with the replaced oldest date kept as the newest. */
  function Step(s: Span, v: string, key: string -> int): Span {
    match s
    case NoDates => OnlyOldest(v)
    case OnlyOldest(o) =>
      if key(v) > key(o) then Both(o, v)
      else if key(v) < key(o) then Both(v, o)
      else s
    case Both(o, n) =>
      if key(v) > key(n) then Both(o, v)
      else if key(v) < key(o) then Both(v, n)
      else s
  }

  function Scan(vals: seq<string>, key: string -> int, s: Span): Span {
    if |vals| == 0 then s else Scan(vals[1..], key, Step(s, vals[0], key))
  }

  /** The span describes exactly the dates seen so far. */
  predicate SpanOf(s: Span, seen: seq<string>, key: string -> int) {
    match s
    case NoDates => |seen| == 0
    case OnlyOldest(o) =>
      o in seen && forall k :: 0 <= k < |seen| ==> key(seen[k]) == key(o)
    case Both(o, n) =>
      && o in seen && n in seen && key(o) < key(n)
      && forall k :: 0 <= k < |seen| ==> key(o) <= key(seen[k]) <= key(n)
  }

  lemma StepKeeps(s: Span, seen: seq<string>, v: string, key: string -> int)
    requires SpanOf(s, seen, key)
    ensures SpanOf(Step(s, v, key), seen + [v], key)
  {
    var seen' := seen + [v];
    assert forall k :: 0 <= k < |seen| ==> seen'[k] == seen[k];
    match s
    case NoDates =>
    case OnlyOldest(o) =>
    case Both(o, n) =>
  }

  lemma {:induction false} ScanKeeps(vals: seq<string>, key: string -> int, s: Span, seen: seq<string>)
    requires SpanOf(s, seen, key)
    ensures SpanOf(Scan(vals, key, s), seen + vals, key)
  {
    if |vals| == 0 {
      assert seen + vals == seen;
    } else {
      StepKeeps(s, seen, vals[0], key);
      ScanKeeps(vals[1..], key, Step(s, vals[0], key), seen + [vals[0]]);
      assert seen + [vals[0]] + vals[1..] == seen + vals;
    }
  }

  /**
   * The corrected scan finds the earliest and the latest date: none when
   * there are no dates, one when all dates have the same key.
   */
  lemma ScanFindsRange(vals: seq<string>, key: string -> int)
    ensures SpanOf(Scan(vals, key, NoDates), vals, key)
  {
    ScanKeeps(vals, key, NoDates, []);
    assert [] + vals == vals;
  }

  /** The scan as written does keep the earliest date. */
  lemma {:induction false} ScanAsWrittenOldest(vals: seq<string>, key: string -> int, s: Span, seen: seq<string>)
    requires s.NoDates? <==> |seen| == 0
    requires !s.NoDates? ==> s.oldest in seen && forall k :: 0 <= k < |seen| ==> key(s.oldest) <= key(seen[k])
    requires s.Both? ==> key(s.oldest) <= key(s.newest)
    ensures var r := ScanAsWritten(vals, key, s);
      && (r.NoDates? <==> |seen + vals| == 0)
      && (!r.NoDates? ==> r.oldest in seen + vals && forall k :: 0 <= k < |seen + vals| ==> key(r.oldest) <= key((seen + vals)[k]))
  {
    if |vals| == 0 {
      assert seen + vals == seen;
    } else {
      var seen' := seen + [vals[0]];
      StepAsWrittenOldest(s, seen, vals[0], key);
      ScanAsWrittenOldest(vals[1..], key, StepAsWritten(s, vals[0], key), seen');
      assert seen' + vals[1..] == seen + vals;
    }
  }

  lemma StepAsWrittenOldest(s: Span, seen: seq<string>, v: string, key: string -> int)
    requires s.NoDates? <==> |seen| == 0
    requires !s.NoDates? ==> s.oldest in seen && forall k :: 0 <= k < |seen| ==> key(s.oldest) <= key(seen[k])
    requires s.Both? ==> key(s.oldest) <= key(s.newest)
    ensures var r := StepAsWritten(s, v, key);
      && !r.NoDates? && r.oldest in seen + [v]
      && (r.Both? ==> key(r.oldest) <= key(r.newest))
      && forall k :: 0 <= k < |seen + [v]| ==> key(r.oldest) <= key((seen + [v])[k])
  {
    var seen' := seen + [v];
    assert forall k :: 0 <= k < |seen| ==> seen'[k] == seen[k];
    assert seen'[|seen|] == v;
  }

  /**
   * The scan as written can lose the latest date: with a date and then an
   * earlier one, it reports the earlier one as the whole range.
   */
  lemma ScanAsWrittenLosesNewest()
    ensures var key := (v: string) => |v|;
      && ScanAsWritten(["20240105", "2024"], key, NoDates) == OnlyOldest("2024")
      && Scan(["20240105", "2024"], key, NoDates) == Both("2024", "20240105")
  {
    var key := (v: string) => |v|;
    assert ["20240105", "2024"][1..] == ["2024"];
  }

  /** The span found starts with the earliest of the dates (and is NoDates only without dates). */
  predicate OldestOf(s: Span, vals: seq<string>, key: string -> int) {
    && (s.NoDates? <==> |vals| == 0)
    && (!s.NoDates? ==> s.oldest in vals && forall k :: 0 <= k < |vals| ==> key(s.oldest) <= key(vals[k]))
  }

  /** Whatever else it loses, the scan as written finds the earliest date. */
  lemma ScanAsWrittenFindsOldest(vals: seq<string>, key: string -> int)
    ensures OldestOf(ScanAsWritten(vals, key, NoDates), vals, key)
  {
    ScanAsWrittenOldest(vals, key, NoDates, []);
    assert [] + vals == vals;
  }

  /** So does the corrected scan. */
  lemma SpanOfOldest(s: Span, vals: seq<string>, key: string -> int)
    requires SpanOf(s, vals, key)
    ensures OldestOf(s, vals, key)
  {
  }

  /**
   * The range sortedCommonNames reports: the scan as written, or with
   * fixScan the corrected one.
   */
  function DateSpan(cal: Component, key: string -> int, fixScan: bool): Span {
    if fixScan then Scan(DateValues(cal), key, NoDates) else ScanAsWritten(DateValues(cal), key, NoDates)
  }

  /** Either scan starts the range with the earliest date; the corrected one ends it with the latest. */
  lemma DateSpanFinds(cal: Component, key: string -> int, fixScan: bool)
    ensures OldestOf(DateSpan(cal, key, fixScan), DateValues(cal), key)
    ensures fixScan ==> SpanOf(DateSpan(cal, key, fixScan), DateValues(cal), key)
  {
    if fixScan {
      ScanFindsRange(DateValues(cal), key);
      SpanOfOldest(DateSpan(cal, key, fixScan), DateValues(cal), key);
    } else {
      ScanAsWrittenFindsOldest(DateValues(cal), key);
    }
  }

  /** The date line, with strftime("%Y-%b-%d") of a date value passed in as show. */
  function DateText(s: Span, show: string -> string): string {
    match s
    case NoDates => "No dates\n"
    case OnlyOldest(o) => "From " + show(o) + " " + "to " + show(o) + "\n"
    case Both(o, n) => "From " + show(o) + " " + "to " + show(n) + "\n"
  }

  /** How many fprintf calls the date line takes. */
  function DateWrites(s: Span): nat {
    if s.NoDates? then 1 else 3
  }

  // -----------------------------------------------------------------------
  // sortedCommonNames: the organizers
  // -----------------------------------------------------------------------

  /** The values of the CN parameters, in order. */
  function CNValues(params: seq<Param>): (r: seq<string>)
    ensures forall s :: s in r <==> exists j :: 0 <= j < |params| && params[j].name == "CN" && s in params[j].values
  {
    if |params| == 0 then []
    else
      assert forall j :: 0 < j < |params| ==> params[1..][j - 1] == params[j];
      (if params[0].name == "CN" then params[0].values else []) + CNValues(params[1..])
  }

  /** The CN values of the ORGANIZER properties, in order. */
  function OrganizersOf(props: seq<Property>): (r: seq<string>)
    ensures forall s :: s in r <==> exists k :: 0 <= k < |props| && props[k].name == "ORGANIZER" && s in CNValues(props[k].params)
  {
    if |props| == 0 then []
    else
      assert forall k :: 0 < k < |props| ==> props[1..][k - 1] == props[k];
      (if props[0].name == "ORGANIZER" then CNValues(props[0].params) else []) + OrganizersOf(props[1..])
  }

  /**
   * Every organizer name sortedCommonNames collects: the calendar's own,
   * then those of each top-level component and its subcomponents.
   */
  function Organizers(cal: Component): seq<string> {
    OrganizersOf(cal.props) + Below(cal.comps, OrganizersOf)
  }

  /** The name is the CN of an ORGANIZER at one of the three levels. */
  ghost predicate OrganizerAt(cal: Component, s: string) {
    s in OrganizersOf(cal.props) || InBelow(cal.comps, OrganizersOf, s)
  }

  function LinesText(ls: seq<string>): string {
    if |ls| == 0 then [] else ls[0] + "\n" + LinesText(ls[1..])
  }

  /** The organizer part of the output, for the names as printed. */
  function OrganizerText(names: seq<string>, printed: seq<string>): string {
    if |names| == 0 then "No organizers\n" else "Organizers:\n" + LinesText(printed)
  }

  function OrganizerWrites(names: seq<string>, printed: seq<string>): nat {
    if |names| == 0 then 1 else 1 + |printed|
  }

  /**
   * What sortedCommonNames prints: the date line for the scanned range,
   * then "No organizers" or each organizer name once, in strcmp order.
   */
  function CommonNamesText(cal: Component, key: string -> int, show: string -> string, fixScan: bool, printed: seq<string>): string {
    DateText(DateSpan(cal, key, fixScan), show) + OrganizerText(Organizers(cal), printed)
  }

  /** The fprintf calls sortedCommonNames makes. */
  function CommonNamesWrites(cal: Component, key: string -> int, fixScan: bool, printed: seq<string>): nat {
    DateWrites(DateSpan(cal, key, fixScan)) + OrganizerWrites(Organizers(cal), printed)
  }

  ghost predicate CommonNamesOut(cal: Component, key: string -> int, show: string -> string, fixScan: bool, lc: int,
                                 printed: seq<string>, out: string, status: CalStatus) {
    && StrictlySorted(printed)
    && (forall s :: s in printed <==> OrganizerAt(cal, s))
    && out == CommonNamesText(cal, key, show, fixScan, printed)
    && status == StatusAt(OK, lc + CommonNamesWrites(cal, key, fixScan, printed))
  }

  /**
   * sortedCommonNames: the date range, then the organizers, each
   * organizer name once and in strcmp order.  key stands for
   * mktime(strptime(value)) and show for strftime of the parsed value;
   * printed is the list of organizer names in the order they are printed.
   * The date range comes from the scan as written, or with fixScan from
   * the corrected scan, which also finds the latest date.
   */
  method SortedCommonNames(cal: Component, key: string -> int, show: string -> string, fixScan: bool, lc: int)
    returns (out: string, status: CalStatus, printed: seq<string>)
    ensures OldestOf(DateSpan(cal, key, fixScan), DateValues(cal), key)
    ensures fixScan ==> SpanOf(DateSpan(cal, key, fixScan), DateValues(cal), key)
    ensures CommonNamesOut(cal, key, show, fixScan, lc, printed, out, status)
  {
    var span := DateSpan(cal, key, fixScan);
    DateSpanFinds(cal, key, fixScan);
    var names := Organizers(cal);
    if |names| == 0 {
      printed := [];
    } else {
      printed := PrintDistinct(Sort(names), false);
    }
    OrganizersListed(cal, printed);
    out := DateText(span, show) + OrganizerText(names, printed);
    status := StatusAt(OK, lc + DateWrites(span) + OrganizerWrites(names, printed));
  }

  /** The printed organizer names are each collected name once, ascending. */
  lemma OrganizersListed(cal: Component, printed: seq<string>)
    requires |Organizers(cal)| == 0 ==> printed == []
    requires |Organizers(cal)| > 0 ==> printed == Visible(Distinct(Sort(Organizers(cal))), false)
    ensures StrictlySorted(printed)
    ensures forall s :: s in printed <==> OrganizerAt(cal, s)
  {
    var names := Organizers(cal);
    SortSorted(names);
    if |names| > 0 {
      ShownSorted(Sort(names), false);
    }
    forall s
      ensures s in printed <==> OrganizerAt(cal, s)
    {
      BelowMembers(cal.comps, OrganizersOf, s);
      assert s in names <==> s in multiset(Sort(names));
    }
  }

  // -----------------------------------------------------------------------
  // calExtract, X-property mode
  // -----------------------------------------------------------------------

  /** The names of the X- properties, in order. */
  function XNamesOf(props: seq<Property>): (r: seq<string>)
    ensures forall s :: s in r <==> exists k :: 0 <= k < |props| && props[k].name == s && IsXName(s)
  {
    if |props| == 0 then []
    else
      assert forall k :: 0 < k < |props| ==> props[1..][k - 1] == props[k];
      (if IsXName(props[0].name) then [props[0].name] else []) + XNamesOf(props[1..])
  }

  /**
   * calExtract adds an empty name after a component whenever it has
   * collected any name at all (it then holds more names than DTSTART
   * times, of which there are none in this mode).
   */
  function Placeholder(acc: seq<string>): seq<string> {
    if |acc| != 0 then acc + [""] else acc
  }

  function XGrand(acc: seq<string>, comps: seq<Component>): seq<string>
    decreases |comps|
  {
    if |comps| == 0 then acc else XGrand(Placeholder(acc + XNamesOf(comps[0].props)), comps[1..])
  }

  function XChildren(acc: seq<string>, comps: seq<Component>): seq<string>
    decreases |comps|
  {
    if |comps| == 0 then acc
    else XChildren(XGrand(Placeholder(acc + XNamesOf(comps[0].props)), comps[0].comps), comps[1..])
  }

  /** Everything calExtract collects, placeholders included, in order. */
  function XCollected(cal: Component): seq<string> {
    XChildren(XNamesOf(cal.props), cal.comps)
  }

  /** The name is that of an X- property at one of the three levels. */
  ghost predicate XPropAt(cal: Component, s: string) {
    s in XNamesOf(cal.props) || InBelow(cal.comps, XNamesOf, s)
  }

  /** Placeholders aside, the collected names are the X- property names. */
  ghost predicate SameNames(got: seq<string>, want: seq<string>) {
    forall s :: s != "" ==> (s in got <==> s in want)
  }

  lemma SameNamesPlaceholder(acc: seq<string>, want: seq<string>)
    requires SameNames(acc, want)
    ensures SameNames(Placeholder(acc), want)
  {
  }

  lemma {:induction false} XGrandNames(acc: seq<string>, comps: seq<Component>, want: seq<string>)
    requires SameNames(acc, want)
    ensures SameNames(XGrand(acc, comps), want + Grand(comps, XNamesOf))
    decreases |comps|
  {
    if |comps| > 0 {
      var acc' := Placeholder(acc + XNamesOf(comps[0].props));
      SameNamesPlaceholder(acc + XNamesOf(comps[0].props), want + XNamesOf(comps[0].props));
      XGrandNames(acc', comps[1..], want + XNamesOf(comps[0].props));
      Assoc(want, XNamesOf(comps[0].props), Grand(comps[1..], XNamesOf));
    } else {
      assert want + [] == want;
    }
  }

  lemma {:induction false} XChildrenNames(acc: seq<string>, comps: seq<Component>, want: seq<string>)
    requires SameNames(acc, want)
    ensures SameNames(XChildren(acc, comps), want + Below(comps, XNamesOf))
    decreases |comps|
  {
    if |comps| > 0 {
      var own := XNamesOf(comps[0].props);
      var acc' := Placeholder(acc + own);
      SameNamesPlaceholder(acc + own, want + own);
      XGrandNames(acc', comps[0].comps, want + own);
      var grand := Grand(comps[0].comps, XNamesOf);
      XChildrenNames(XGrand(acc', comps[0].comps), comps[1..], want + own + grand);
      Assoc4(want, own, grand, Below(comps[1..], XNamesOf));
    } else {
      assert want + [] == want;
    }
  }

  /** What calExtract prints for OPROP: one line per X- property name. */

  /**
   * calExtract with kind OPROP: each X- property name of the calendar,
   * its top-level components and their subcomponents, printed once, in
   * strcmp order; the empty placeholders are not printed.  printed is
   * the list of names in the order they are printed, one per line.
   */
  method ExtractXProps(cal: Component, lc: int) returns (out: string, status: CalStatus, printed: seq<string>)
    ensures StrictlySorted(printed)
    ensures forall s :: s in printed <==> XPropAt(cal, s)
    ensures out == LinesText(printed) && status == StatusAt(OK, lc + |printed|)
  {
    var sorted := Sort(XCollected(cal));
    printed := PrintDistinct(sorted, true);
    out := LinesText(printed);
    status := StatusAt(OK, lc + |printed|);
    XPropsListed(cal, printed);
  }

  /** The printed names are each X- property name once, ascending. */
  lemma XPropsListed(cal: Component, printed: seq<string>)
    requires printed == Visible(Distinct(Sort(XCollected(cal))), true)
    ensures StrictlySorted(printed)
    ensures forall s :: s in printed <==> XPropAt(cal, s)
  {
    SortSorted(XCollected(cal));
    ShownSorted(Sort(XCollected(cal)), true);
    forall s
      ensures s in printed <==> XPropAt(cal, s)
    {
      XPropListed(cal, printed, s);
    }
  }

  lemma XPropListed(cal: Component, printed: seq<string>, s: string)
    requires printed == Visible(Distinct(Sort(XCollected(cal))), true)
    ensures s in printed <==> XPropAt(cal, s)
  {
    var names := XCollected(cal);
    SortSorted(names);
    ShownSorted(Sort(names), true);
    assert s in names <==> s in multiset(Sort(names));
    if s != "" {
      CollectedNames(cal, s);
    }
  }

  /** A name other than the placeholder is collected exactly when it names an X- property. */
  lemma CollectedNames(cal: Component, s: string)
    requires s != ""
    ensures s in XCollected(cal) <==> XPropAt(cal, s)
  {
    XChildrenNames(XNamesOf(cal.props), cal.comps, XNamesOf(cal.props));
    BelowMembers(cal.comps, XNamesOf, s);
  }

  // -----------------------------------------------------------------------
  // calInfo
  // -----------------------------------------------------------------------

  /**
   * calInfo: the seven count lines, then sortedCommonNames.  lines is the
   * number of lines readCalFile read.
   */
  method CalInfo(cal: Component, lines: nat, key: string -> int, show: string -> string, fixScan: bool, lc: int)
    returns (out: string, status: CalStatus, printed: seq<string>)
    ensures StrictlySorted(printed)
    ensures forall s :: s in printed <==> OrganizerAt(cal, s)
    ensures out == CountsText(InfoCounts(cal, lines), 0) + CommonNamesText(cal, key, show, fixScan, printed)
    ensures status == StatusAt(OK, lc + 7 + CommonNamesWrites(cal, key, fixScan, printed))
  {
    var counts := CountsText(InfoCounts(cal, lines), 0);
    var rest, st, names := SortedCommonNames(cal, key, show, fixScan, lc + 7);
    out := counts + rest;
    status := st;
    printed := names;
  }
}
