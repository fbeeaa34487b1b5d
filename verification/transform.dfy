/*
 * calFilter and calCombine.  Both edit a shallow copy of the calendar's
 * component array (and calCombine, for a while, the property lists) and
 * then write the copy with writeCalComp; the trees passed in are left as
 * they were.  Here the trees are values, so the copy is simply a new
 * Component.
 */
module Transform {
  import opened CalTypes
  import opened TreeBuilder
  import opened Writer
  import opened Queries
  import opened RoundTrip

  // -----------------------------------------------------------------------
  // Keeping the components that pass a test
  // -----------------------------------------------------------------------

  /** The components that pass a test, in their original order. */
  function Keep(comps: seq<Component>, f: Component -> bool): (r: seq<Component>)
    ensures |r| == CountComps(comps, f)
  {
    if |comps| == 0 then []
    else (if f(comps[0]) then [comps[0]] else []) + Keep(comps[1..], f)
  }

  /** Exactly the components that pass are kept. */
  lemma {:induction false} KeepMembers(comps: seq<Component>, f: Component -> bool)
    ensures forall c :: c in Keep(comps, f) <==> c in comps && f(c)
  {
    if |comps| > 0 {
      KeepMembers(comps[1..], f);
      assert forall c :: c in comps <==> c == comps[0] || c in comps[1..];
    }
  }

  lemma {:induction false} KeepAppend(a: seq<Component>, b: seq<Component>, f: Component -> bool)
    ensures Keep(a + b, f) == Keep(a, f) + Keep(b, f)
  {
    if |a| == 0 {
      assert a + b == b;
    } else {
      assert (a + b)[0] == a[0];
      assert (a + b)[1..] == a[1..] + b;
      KeepAppend(a[1..], b, f);
    }
  }

  /** Keep of one more component. */
  lemma KeepNext(comps: seq<Component>, k: nat, f: Component -> bool)
    requires k < |comps|
    ensures Keep(comps[..k + 1], f) == Keep(comps[..k], f) + (if f(comps[k]) then [comps[k]] else [])
  {
    assert comps[..k + 1] == comps[..k] + [comps[k]];
    KeepAppend(comps[..k], [comps[k]], f);
  }

  /**
   * The array shift calFilter does to drop element i of the first n:
   * elements i+1 .. n-1 move down by one; the last slot keeps its value.
   */
  method ShiftDown(arr: seq<Component>, i: nat, n: nat) returns (arr': seq<Component>)
    requires i < n <= |arr|
    ensures |arr'| == |arr|
    ensures arr'[..i] == arr[..i]
    ensures arr'[i..n - 1] == arr[i + 1..n]
  {
    arr' := arr;
    var y := i;
    while y < n
      invariant i <= y <= n
      invariant |arr'| == |arr|
      invariant arr'[..i] == arr[..i]
      invariant forall m :: i <= m < y && m < n - 1 ==> arr'[m] == arr[m + 1]
      invariant forall m :: y <= m < |arr| ==> arr'[m] == arr[m]
    {
      if y != n - 1 {
        arr' := arr'[y := arr'[y + 1]];
      }
      y := y + 1;
    }
  }

  /**
   * The removal loop's invariant: the first i slots hold what the first k
   * inputs keep, and slots i .. n-1 hold the inputs not yet looked at.
   */
  predicate Removing(comps: seq<Component>, f: Component -> bool, arr: seq<Component>, i: nat, n: nat, k: nat) {
    && i <= n <= |arr| && k <= |comps|
    && arr[..i] == Keep(comps[..k], f)
    && arr[i..n] == comps[k..]
  }

  /** The component at the loop index is the next one of the input. */
  lemma AtHead(comps: seq<Component>, f: Component -> bool, arr: seq<Component>, i: nat, n: nat, k: nat)
    requires Removing(comps, f, arr, i, n, k) && i < n
    ensures k < |comps| && arr[i] == comps[k]
  {
    assert arr[i..n][0] == arr[i];
  }

  /** Shifting out a failing component keeps the removal loop's invariant. */
  lemma DropAt(comps: seq<Component>, f: Component -> bool, arr: seq<Component>, arr': seq<Component>, i: nat, n: nat, k: nat)
    requires Removing(comps, f, arr, i, n, k) && i < n && k < |comps|
    requires !f(comps[k])
    requires |arr'| == |arr| && arr'[..i] == arr[..i] && arr'[i..n - 1] == arr[i + 1..n]
    ensures Removing(comps, f, arr', i, n - 1, k + 1)
  {
    KeepNext(comps, k, f);
    assert arr[i + 1..n] == arr[i..n][1..];
  }

  /** Stepping over a passing component keeps the removal loop's invariant. */
  lemma PassAt(comps: seq<Component>, f: Component -> bool, arr: seq<Component>, i: nat, n: nat, k: nat)
    requires Removing(comps, f, arr, i, n, k) && i < n && k < |comps|
    requires f(comps[k])
    ensures Removing(comps, f, arr, i + 1, n, k + 1)
  {
    KeepNext(comps, k, f);
    assert arr[i] == arr[i..n][0];
    assert arr[..i + 1] == arr[..i] + [arr[i]];
    assert arr[i + 1..n] == arr[i..n][1..];
  }

  /** At the start nothing is looked at; at the end the kept prefix is the result. */
  lemma RemovingStart(comps: seq<Component>, f: Component -> bool)
    ensures Removing(comps, f, comps, 0, |comps|, 0)
  {
    assert comps[..0] == [];
  }

  lemma RemovingEnd(comps: seq<Component>, f: Component -> bool, arr: seq<Component>, n: nat, k: nat)
    requires Removing(comps, f, arr, n, n, k)
    ensures arr[..n] == Keep(comps, f)
  {
    assert comps[k..] == [];
    assert comps[..k] == comps;
  }

  /**
   * One turn of calFilter's removal loop: component i is dropped when it
   * fails the test, by shifting the rest down (the C then steps i back
   * and forward again, so the same index is looked at next); otherwise i
   * moves on.
   */
  method RemoveStep(comps: seq<Component>, f: Component -> bool, arr: seq<Component>, i: nat, n: nat, ghost k: nat)
    returns (arr': seq<Component>, i': nat, n': nat)
    requires Removing(comps, f, arr, i, n, k) && i < n
    ensures Removing(comps, f, arr', i', n', k + 1)
    ensures n' - i' == n - i - 1
  {
    AtHead(comps, f, arr, i, n, k);
    if !f(arr[i]) {
      arr' := ShiftDown(arr, i, n);
      DropAt(comps, f, arr, arr', i, n, k);
      i', n' := i, n - 1;
    } else {
      PassAt(comps, f, arr, i, n, k);
      arr', i', n' := arr, i + 1, n;
    }
  }

  /** The removal loop of calFilter over the copied component array. */
  method RemoveFailing(comps: seq<Component>, f: Component -> bool) returns (kept: seq<Component>)
    ensures kept == Keep(comps, f)
  {
    var arr := comps;
    var n: nat := |comps|;
    var i: nat := 0;
    ghost var k: nat := 0;
    RemovingStart(comps, f);
    while i < n
      invariant Removing(comps, f, arr, i, n, k)
      decreases n - i
    {
      arr, i, n := RemoveStep(comps, f, arr, i, n, k);
      k := k + 1;
    }
    RemovingEnd(comps, f, arr, n, k);
    kept := arr[..n];
  }

  // -----------------------------------------------------------------------
  // calFilter
  // -----------------------------------------------------------------------

  /** The dates calFilter looks at. */
  predicate IsFilterDate(p: Property) {
    p.name in {"COMPLETED", "DTEND", "DUE", "DTSTART"}
  }

  /**
   * A date within the bounds: both bounds inclusive, a bound of 0 meaning
   * no bound on that side.
   */
  predicate InBounds(date: int, from: int, to: int) {
    && (from != 0 ==> from <= date)
    && (to != 0 ==> date <= to)
  }

  /** The property loop: true at the first date property within the bounds. */
  function DateInRange(props: seq<Property>, key: string -> int, from: int, to: int): (found: bool)
    ensures found <==> exists k :: 0 <= k < |props| && IsFilterDate(props[k]) && InBounds(key(props[k].value), from, to)
  {
    if |props| == 0 then false
    else if IsFilterDate(props[0]) && InBounds(key(props[0].value), from, to) then true
    else
      assert forall k :: 0 < k < |props| ==> props[1..][k - 1] == props[k];
      DateInRange(props[1..], key, from, to)
  }

  /** The subcomponent loop, from subcomponent y on. */
  function ChildDateInRange(comps: seq<Component>, y: nat, key: string -> int, from: int, to: int): (found: bool)
    requires y <= |comps|
    ensures found <==> exists m :: y <= m < |comps| && DateInRange(comps[m].props, key, from, to)
    decreases |comps| - y
  {
    if y == |comps| then false
    else DateInRange(comps[y].props, key, from, to) || ChildDateInRange(comps, y + 1, key, from, to)
  }

  /** A component survives the date filter through its own dates or its subcomponents'. */
  predicate HasDateIn(c: Component, key: string -> int, from: int, to: int) {
    DateInRange(c.props, key, from, to) || ChildDateInRange(c.comps, 0, key, from, to)
  }

  /** The kind filter: VTODO for OTODO, VEVENT for OEVENT, none otherwise. */
  predicate KindKept(content: CalOpt, c: Component) {
    match content
    case OTODO => c.name == "VTODO"
    case OEVENT => c.name == "VEVENT"
    case OPROP => true
  }

  function KindTest(content: CalOpt): Component -> bool {
    c => KindKept(content, c)
  }

  function DateTest(key: string -> int, from: int, to: int): Component -> bool {
    c => HasDateIn(c, key, from, to)
  }

  /** The components calFilter keeps: by kind, then by date when a bound is given. */
  function FilterComps(comps: seq<Component>, content: CalOpt, from: int, to: int, key: string -> int): seq<Component> {
    var byKind := Keep(comps, KindTest(content));
    if from == 0 && to == 0 then byKind else Keep(byKind, DateTest(key, from, to))
  }

  /** The calendar calFilter writes: same name and properties, fewer components. */
  function Filtered(comp: Component, content: CalOpt, from: int, to: int, key: string -> int): Component {
    Component(comp.name, comp.props, FilterComps(comp.comps, content, from, to, key))
  }

  /** The two removal loops of calFilter on the copied component array. */
  method RemoveFiltered(comps: seq<Component>, content: CalOpt, from: int, to: int, key: string -> int)
    returns (kept: seq<Component>)
    ensures kept == FilterComps(comps, content, from, to, key)
  {
    kept := RemoveFailing(comps, KindTest(content));
    if from != 0 || to != 0 {
      kept := RemoveFailing(kept, DateTest(key, from, to));
    }
  }

  /**
   * calFilter: the kind filter, then the date filter when a bound is
   * given, then writeCalComp on the copy; when no component is left the
   * status becomes NOCAL at lines 0..0, after the calendar was written.
   * key stands for mktime(strptime(value)).
   */
  method CalFilter(comp: Component, content: CalOpt, from: int, to: int, key: string -> int, lc: int)
    returns (out: string, status: CalStatus)
    ensures out == CompText(Filtered(comp, content, from, to, key))
    ensures |Filtered(comp, content, from, to, key).comps| == 0 ==> status == CalStatus(NOCAL, 0, 0)
    ensures |Filtered(comp, content, from, to, key).comps| > 0 ==>
      status == StatusAt(OK, lc + WrittenLines(Filtered(comp, content, from, to, key)))
  {
    var comps := RemoveFiltered(comp.comps, content, from, to, key);
    var copy := Component(comp.name, comp.props, comps);
    out, status := WriteCalComp(copy, lc);
    if |copy.comps| == 0 {
      status := CalStatus(NOCAL, 0, 0);
    }
  }

  /** What survives: a top-level component of the right kind with a date in the bounds. */
  lemma FilteredMembers(comp: Component, content: CalOpt, from: int, to: int, key: string -> int, c: Component)
    ensures c in Filtered(comp, content, from, to, key).comps <==>
      && c in comp.comps
      && KindKept(content, c)
      && ((from == 0 && to == 0) || HasDateIn(c, key, from, to))
  {
    var byKind := Keep(comp.comps, KindTest(content));
    KeepMembers(comp.comps, KindTest(content));
    KeepMembers(byKind, DateTest(key, from, to));
  }

  /** Filtering by kind leaves only that kind: the event count is unchanged, no todo or other remains. */
  lemma FilterEventsCounts(comp: Component, key: string -> int)
    ensures var f := Filtered(comp, OEVENT, 0, 0, key);
      && CountVEvent(f) == |f.comps| == CountVEvent(comp)
      && CountToDo(f) == 0 && CountOther(f) == 0
  {
    var f := Filtered(comp, OEVENT, 0, 0, key);
    CountKinds(f);
    KeepCountsSame(comp.comps, KindTest(OEVENT), IsEvent);
  }

  lemma FilterToDosCounts(comp: Component, key: string -> int)
    ensures var f := Filtered(comp, OTODO, 0, 0, key);
      && CountToDo(f) == |f.comps| == CountToDo(comp)
      && CountVEvent(f) == 0 && CountOther(f) == 0
  {
    var f := Filtered(comp, OTODO, 0, 0, key);
    CountKinds(f);
    KeepCountsSame(comp.comps, KindTest(OTODO), IsToDo);
  }

  /** Keeping by a test that agrees with g keeps exactly what g counts. */
  lemma {:induction false} KeepCountsSame(comps: seq<Component>, f: Component -> bool, g: Component -> bool)
    requires forall c :: f(c) == g(c)
    ensures |Keep(comps, f)| == CountComps(comps, g)
    ensures forall k :: 0 <= k < |Keep(comps, f)| ==> g(Keep(comps, f)[k])
  {
    if |comps| > 0 {
      KeepCountsSame(comps[1..], f, g);
    }
  }

  // -----------------------------------------------------------------------
  // calCombine
  // -----------------------------------------------------------------------

  predicate IsVersionOrProdId(p: Property) {
    p.name == "VERSION" || p.name == "PRODID"
  }

  predicate IsVersion(p: Property) {
    p.name == "VERSION"
  }

  /** The second calendar's properties without its VERSION and PRODID. */
  function DropVersionProdId(props: seq<Property>): (r: seq<Property>)
    ensures |r| == |props| - CountProps(props, IsVersion) - CountProps(props, IsProdId)
  {
    if |props| == 0 then []
    else (if IsVersionOrProdId(props[0]) then [] else [props[0]]) + DropVersionProdId(props[1..])
  }

  /** Exactly the properties other than VERSION and PRODID remain. */
  lemma {:induction false} DropMembers(props: seq<Property>)
    ensures forall p :: p in DropVersionProdId(props) <==> p in props && !IsVersionOrProdId(p)
  {
    if |props| > 0 {
      DropMembers(props[1..]);
      assert forall p :: p in props <==> p == props[0] || p in props[1..];
    }
  }

  /**
   * The calendar calCombine writes: the first calendar's name and
   * properties, the second's properties other than VERSION and PRODID,
   * then the components of both in order.
   */
  function Combine(c1: Component, c2: Component): Component {
    Component(c1.name, c1.props + DropVersionProdId(c2.props), c1.comps + c2.comps)
  }

  lemma {:induction false} DropAppend(a: seq<Property>, b: seq<Property>)
    ensures DropVersionProdId(a + b) == DropVersionProdId(a) + DropVersionProdId(b)
  {
    if |a| == 0 {
      assert a + b == b;
    } else {
      assert (a + b)[0] == a[0];
      assert (a + b)[1..] == a[1..] + b;
      DropAppend(a[1..], b);
    }
  }

  lemma DropStep(props2: seq<Property>, k: nat)
    requires k < |props2|
    ensures DropVersionProdId(props2[..k + 1]) ==
      DropVersionProdId(props2[..k]) + (if IsVersionOrProdId(props2[k]) then [] else [props2[k]])
  {
    assert props2[..k + 1] == props2[..k] + [props2[k]];
    DropAppend(props2[..k], [props2[k]]);
    assert [props2[k]][1..] == [];
  }

  /** Unlinking a VERSION or PRODID node keeps the splice loop's invariant. */
  lemma UnlinkAt(props1: seq<Property>, props2: seq<Property>, props: seq<Property>, i: nat, k: nat)
    requires i < |props| && k < |props2|
    requires props[..i] == props1 + DropVersionProdId(props2[..k]) && props[i..] == props2[k..]
    requires IsVersionOrProdId(props2[k])
    ensures var after := props[..i] + props[i + 1..];
      after[..i] == props1 + DropVersionProdId(props2[..k + 1]) && after[i..] == props2[k + 1..]
  {
    DropStep(props2, k);
    var after := props[..i] + props[i + 1..];
    assert after[..i] == props[..i];
    assert after[i..] == props[i + 1..] == props[i..][1..];
    assert props[..i] + [] == props[..i];
  }

  /** Stepping over any other node keeps the splice loop's invariant. */
  lemma SkipAt(props1: seq<Property>, props2: seq<Property>, props: seq<Property>, i: nat, k: nat)
    requires i < |props| && k < |props2|
    requires props[..i] == props1 + DropVersionProdId(props2[..k]) && props[i..] == props2[k..]
    requires !IsVersionOrProdId(props2[k])
    ensures props[..i + 1] == props1 + DropVersionProdId(props2[..k + 1]) && props[i + 1..] == props2[k + 1..]
  {
    DropStep(props2, k);
    assert props[i] == props[i..][0];
    assert props[..i + 1] == props[..i] + [props[i]];
    assert props[i + 1..] == props[i..][1..];
  }

  lemma PropAtHead(props2: seq<Property>, props: seq<Property>, i: nat, k: nat)
    requires i < |props| && k <= |props2|
    requires props[i..] == props2[k..]
    ensures k < |props2| && props[i] == props2[k]
  {
    assert props[i..][0] == props[i];
  }

  /**
   * The property splice of calCombine: the second list is appended to the
   * first (addPropNode), then VERSION and PRODID nodes past the first
   * list's end are unlinked.
   */
  method CombineProps(props1: seq<Property>, props2: seq<Property>) returns (props: seq<Property>)
    ensures props == props1 + DropVersionProdId(props2)
  {
    props := props1 + props2;
    var i := |props1|;
    ghost var k := 0;
    assert props[..i] == props1 + DropVersionProdId(props2[..0]);
    while i < |props|
      invariant i <= |props| && 0 <= k <= |props2|
      invariant props[..i] == props1 + DropVersionProdId(props2[..k])
      invariant props[i..] == props2[k..]
      decreases |props| - i
    {
      PropAtHead(props2, props, i, k);
      if IsVersionOrProdId(props[i]) {
        UnlinkAt(props1, props2, props, i, k);
        props := props[..i] + props[i + 1..];
      } else {
        SkipAt(props1, props2, props, i, k);
        i := i + 1;
      }
      k := k + 1;
    }
    assert props2[..k] == props2;
    assert props[..i] == props;
  }

  /**
   * calCombine: the merged calendar written by writeCalComp.  The status
   * is writeCalComp's.
   */
  method CalCombine(c1: Component, c2: Component, lc: int) returns (out: string, status: CalStatus)
    ensures out == CompText(Combine(c1, c2))
    ensures status == StatusAt(OK, lc + WrittenLines(Combine(c1, c2)))
  {
    var props := CombineProps(c1.props, c2.props);
    var copy := Component(c1.name, props, c1.comps + c2.comps);
    out, status := WriteCalComp(copy, lc);
  }

  lemma {:induction false} CountPropsAppend(a: seq<Property>, b: seq<Property>, f: Property -> bool)
    ensures CountProps(a + b, f) == CountProps(a, f) + CountProps(b, f)
  {
    if |a| == 0 {
      assert a + b == b;
    } else {
      assert (a + b)[1..] == a[1..] + b;
      CountPropsAppend(a[1..], b, f);
    }
  }

  /** No VERSION or PRODID is left among the second calendar's properties. */
  lemma {:induction false} DroppedNone(props: seq<Property>, f: Property -> bool)
    requires forall p :: f(p) ==> IsVersionOrProdId(p)
    ensures CountProps(DropVersionProdId(props), f) == 0
  {
    if |props| > 0 {
      DroppedNone(props[1..], f);
      var rest := DropVersionProdId(props[1..]);
      if !IsVersionOrProdId(props[0]) {
        assert DropVersionProdId(props) == [props[0]] + rest;
        assert ([props[0]] + rest)[1..] == rest;
      } else {
        assert DropVersionProdId(props) == [] + rest == rest;
      }
    }
  }

  /**
   * The counts calCombine sets: with one VERSION and one PRODID in the
   * second calendar, n1 + n2 - 2 properties and c1 + c2 components, each
   * kind of component and every property below the root counted once.
   */
  lemma CombineCounts(c1: Component, c2: Component)
    requires CountProps(c2.props, IsVersion) == 1 && CountProps(c2.props, IsProdId) == 1
    ensures |Combine(c1, c2).props| == |c1.props| + |c2.props| - 2
    ensures |Combine(c1, c2).comps| == |c1.comps| + |c2.comps|
    ensures CountVEvent(Combine(c1, c2)) == CountVEvent(c1) + CountVEvent(c2)
    ensures CountToDo(Combine(c1, c2)) == CountToDo(c1) + CountToDo(c2)
    ensures CountOther(Combine(c1, c2)) == CountOther(c1) + CountOther(c2)
    ensures CountProperties(Combine(c1, c2)) == CountProperties(c1) + CountProperties(c2)
  {
    CountCompsAppend(c1.comps, c2.comps, IsEvent);
    CountCompsAppend(c1.comps, c2.comps, IsToDo);
    CountCompsAppend(c1.comps, c2.comps, IsOther);
    PropsBelowAppend(c1.comps, c2.comps);
  }

  /**
   * Combining two calendars readCalFile accepts gives one it accepts too:
   * the first calendar's VERSION and PRODID are the only ones left.
   */
  lemma CombineValid(c1: Component, c2: Component)
    requires WfCalendar(c1) && WfCalendar(c2)
    ensures WfCalendar(Combine(c1, c2))
  {
    var c := Combine(c1, c2);
    var dropped := DropVersionProdId(c2.props);
    CountPropsAppend(c1.props, dropped, IsGoodVersion);
    CountPropsAppend(c1.props, dropped, IsProdId);
    DroppedNone(c2.props, IsGoodVersion);
    DroppedNone(c2.props, IsProdId);
    forall k | 0 <= k < |c.props|
      ensures WfMember(c.props[k])
    {
      if k >= |c1.props| {
        assert c.props[k] == dropped[k - |c1.props|];
        DropMembers(c2.props);
        assert c.props[k] in c2.props;
      }
    }
    forall k | 0 <= k < |c.comps|
      ensures WfTree(c.comps[k], 2)
    {
      if k >= |c1.comps| {
        assert c.comps[k] == c2.comps[k - |c1.comps|];
      }
    }
    var i :| 0 <= i < |c1.comps| && VNamed(c1.comps[i]);
    assert c.comps[i] == c1.comps[i];
  }

  /**
   * What calCombine writes reads back as the merged calendar, with status
   * OK, through readCalFile as written and with the child-name fix.
   */
  lemma CombineReadsBack(c1: Component, c2: Component)
    requires WfCalendar(c1) && WfCalendar(c2)
    ensures FirstLineNotEnd(CompText(Combine(c1, c2)))
    ensures var o := ReadCalFile(CompText(Combine(c1, c2)));
      o.status.code == OK && o.tree == Some(Combine(c1, c2))
    ensures var o := ReadCalFileAsWritten(CompText(Combine(c1, c2)));
      o.status.code == OK && o.tree == Some(Combine(c1, c2))
  {
    CombineValid(c1, c2);
    ReadWritten(Combine(c1, c2));
  }

  /**
   * Filtering a calendar by kind leaves a calendar readCalFile accepts, as
   * long as some component survives: every survivor is named VTODO or
   * VEVENT, so checkNoCal passes.
   */
  lemma FilterValid(cal: Component, content: CalOpt, from: int, to: int, key: string -> int)
    requires WfCalendar(cal) && content != OPROP
    requires |Filtered(cal, content, from, to, key).comps| > 0
    ensures WfCalendar(Filtered(cal, content, from, to, key))
  {
    var f := Filtered(cal, content, from, to, key);
    forall k | 0 <= k < |f.comps|
      ensures WfTree(f.comps[k], 2) && KindKept(content, f.comps[k])
    {
      FilteredMembers(cal, content, from, to, key, f.comps[k]);
      var j :| 0 <= j < |cal.comps| && cal.comps[j] == f.comps[k];
    }
    assert KindKept(content, f.comps[0]);
    assert StartsWithV(f.comps[0].name);
    assert VNamed(f.comps[0]);
  }

  /**
   * What calFilter writes reads back as the filtered calendar, with status
   * OK, through readCalFile as written and with the child-name fix.
   */
  lemma FilterReadsBack(cal: Component, content: CalOpt, from: int, to: int, key: string -> int)
    requires WfCalendar(cal) && content != OPROP
    requires |Filtered(cal, content, from, to, key).comps| > 0
    ensures FirstLineNotEnd(CompText(Filtered(cal, content, from, to, key)))
    ensures var o := ReadCalFile(CompText(Filtered(cal, content, from, to, key)));
      o.status.code == OK && o.tree == Some(Filtered(cal, content, from, to, key))
    ensures var o := ReadCalFileAsWritten(CompText(Filtered(cal, content, from, to, key)));
      o.status.code == OK && o.tree == Some(Filtered(cal, content, from, to, key))
  {
    FilterValid(cal, content, from, to, key);
    ReadWritten(Filtered(cal, content, from, to, key));
  }
}
