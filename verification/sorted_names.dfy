/*
 * The name lists calInfo and calExtract print: sorted with qsort() under
 * strcmp(), then walked so that each run of equal names is printed once.
 */
module SortedNames {

  // -----------------------------------------------------------------------
  // strcmp()
  // -----------------------------------------------------------------------

  /**
   * strcmp(): the sign of the first differing character; a proper prefix
   * comes first.  Characters are compared by code point, which is also the
   * order of their UTF-8 encodings byte by byte.
   */
  function Strcmp(a: string, b: string): (r: int)
    ensures -1 <= r <= 1
    ensures r == 0 <==> a == b
    decreases |a|
  {
    if |a| == 0 then (if |b| == 0 then 0 else -1)
    else if |b| == 0 then 1
    else if a[0] < b[0] then -1
    else if a[0] > b[0] then 1
    else
      assert a == [a[0]] + a[1..] && b == [b[0]] + b[1..];
      Strcmp(a[1..], b[1..])
  }

  /** a comes no later than b in strcmp order. */
  predicate NotAfter(a: string, b: string) {
    Strcmp(a, b) <= 0
  }

  lemma {:induction false} StrcmpFlip(a: string, b: string)
    ensures Strcmp(b, a) == -Strcmp(a, b)
    decreases |a|
  {
    if |a| > 0 && |b| > 0 && a[0] == b[0] {
      StrcmpFlip(a[1..], b[1..]);
    }
  }

  lemma {:induction false} StrcmpTrans(a: string, b: string, c: string)
    requires Strcmp(a, b) < 0 && Strcmp(b, c) < 0
    ensures Strcmp(a, c) < 0
    decreases |a|
  {
    if |a| > 0 && |b| > 0 && |c| > 0 && a[0] == b[0] && b[0] == c[0] {
      StrcmpTrans(a[1..], b[1..], c[1..]);
    }
  }

  /** strcmp order is a total order, so qsort() has one answer. */
  lemma NotAfterTrans(a: string, b: string, c: string)
    requires NotAfter(a, b) && NotAfter(b, c)
    ensures NotAfter(a, c)
  {
    if a != b && b != c {
      StrcmpTrans(a, b, c);
    }
  }

  lemma NotAfterTotal(a: string, b: string)
    ensures NotAfter(a, b) || NotAfter(b, a)
  {
    StrcmpFlip(a, b);
  }

  lemma NotAfterAntisym(a: string, b: string)
    requires NotAfter(a, b) && NotAfter(b, a)
    ensures a == b
  {
    StrcmpFlip(a, b);
  }

  /** The empty string comes before every other string. */
  lemma EmptyFirst(s: string)
    ensures NotAfter("", s)
    ensures Strcmp(s, "") < 0 ==> false
  {
  }

  // -----------------------------------------------------------------------
  // qsort(..., compareStrings)
  // -----------------------------------------------------------------------

  predicate Sorted(t: seq<string>) {
    forall i, j :: 0 <= i < j < |t| ==> NotAfter(t[i], t[j])
  }

  predicate StrictlySorted(t: seq<string>) {
    forall i, j :: 0 <= i < j < |t| ==> Strcmp(t[i], t[j]) < 0
  }

  function Insert(x: string, t: seq<string>): seq<string> {
    if |t| == 0 || NotAfter(x, t[0]) then [x] + t else [t[0]] + Insert(x, t[1..])
  }

  /** The names in strcmp order (any sorting algorithm gives the same list). */
  function Sort(t: seq<string>): seq<string> {
    if |t| == 0 then [] else Insert(t[0], Sort(t[1..]))
  }

  /** Every element of t comes no earlier than x. */
  lemma AllAfter(x: string, t: seq<string>, y: string)
    requires forall k :: 0 <= k < |t| ==> NotAfter(x, t[k])
    requires NotAfter(x, y)
    ensures forall e :: e in multiset(t) + multiset{y} ==> NotAfter(x, e)
  {
    forall e | e in multiset(t) + multiset{y}
      ensures NotAfter(x, e)
    {
      if e != y {
        assert e in t;
      }
    }
  }

  /** Insert adds exactly x. */
  lemma {:induction false} InsertPerm(x: string, t: seq<string>)
    ensures multiset(Insert(x, t)) == multiset(t) + multiset{x}
    decreases |t|
  {
    if |t| > 0 && !NotAfter(x, t[0]) {
      InsertPerm(x, t[1..]);
      assert t == [t[0]] + t[1..];
    }
  }

  /** A head no later than every element keeps a sorted list sorted. */
  lemma SortedCons(h: string, r: seq<string>)
    requires Sorted(r)
    requires forall j :: 0 <= j < |r| ==> NotAfter(h, r[j])
    ensures Sorted([h] + r)
  {
    var t := [h] + r;
    forall i, j | 0 <= i < j < |t|
      ensures NotAfter(t[i], t[j])
    {
      assert t[j] == r[j - 1];
      if i > 0 {
        assert t[i] == r[i - 1];
      }
    }
  }

  lemma {:induction false} InsertSorted(x: string, t: seq<string>)
    requires Sorted(t)
    ensures Sorted(Insert(x, t))
    decreases |t|
  {
    if |t| == 0 {
    } else if NotAfter(x, t[0]) {
      forall j | 0 <= j < |t|
        ensures NotAfter(x, t[j])
      {
        if j > 0 {
          NotAfterTrans(x, t[0], t[j]);
        }
      }
      SortedCons(x, t);
    } else {
      NotAfterTotal(x, t[0]);
      var tail := t[1..];
      assert forall j :: 0 <= j < |tail| ==> tail[j] == t[j + 1];
      InsertSorted(x, tail);
      InsertPerm(x, tail);
      var r := Insert(x, tail);
      AllAfter(t[0], tail, x);
      forall j | 0 <= j < |r|
        ensures NotAfter(t[0], r[j])
      {
        assert r[j] in multiset(r);
      }
      SortedCons(t[0], r);
    }
  }

  lemma {:induction false} SortSorted(t: seq<string>)
    ensures Sorted(Sort(t))
    ensures multiset(Sort(t)) == multiset(t)
  {
    if |t| > 0 {
      SortSorted(t[1..]);
      InsertSorted(t[0], Sort(t[1..]));
      InsertPerm(t[0], Sort(t[1..]));
      assert t == [t[0]] + t[1..];
    }
  }

  /**
   * Two sorted arrangements of the same names are the same list: whatever
   * order qsort() leaves equal names in, the printed result is determined.
   */
  lemma SortedTail(a: seq<string>)
    requires Sorted(a) && |a| > 0
    ensures Sorted(a[1..])
  {
    var t := a[1..];
    forall i, j | 0 <= i < j < |t|
      ensures NotAfter(t[i], t[j])
    {
      assert t[i] == a[i + 1] && t[j] == a[j + 1];
    }
  }

  lemma StrictTail(a: seq<string>)
    requires StrictlySorted(a) && |a| > 0
    ensures StrictlySorted(a[1..])
  {
    var t := a[1..];
    forall i, j | 0 <= i < j < |t|
      ensures Strcmp(t[i], t[j]) < 0
    {
      assert t[i] == a[i + 1] && t[j] == a[j + 1];
    }
  }

  lemma TailMultiset(a: seq<string>)
    requires |a| > 0
    ensures multiset(a[1..]) == multiset(a) - multiset{a[0]}
  {
    assert a == [a[0]] + a[1..];
  }

  /** Two sorted arrangements of the same names start with the same name. */
  lemma SortedHeads(a: seq<string>, b: seq<string>)
    requires Sorted(a) && Sorted(b)
    requires multiset(a) == multiset(b) && |a| > 0
    ensures |b| > 0 && a[0] == b[0]
  {
    assert |b| == |multiset(b)| == |multiset(a)| == |a|;
    assert a[0] in multiset(b);
    var k :| 0 <= k < |b| && b[k] == a[0];
    assert b[0] in multiset(a);
    var m :| 0 <= m < |a| && a[m] == b[0];
    NotAfterAntisym(a[0], b[0]);
  }

  lemma {:induction false} SortedUnique(a: seq<string>, b: seq<string>)
    requires Sorted(a) && Sorted(b)
    requires multiset(a) == multiset(b)
    ensures a == b
    decreases |a|
  {
    if |a| > 0 {
      SortedHeads(a, b);
      TailMultiset(a);
      TailMultiset(b);
      var ta, tb := a[1..], b[1..];
      SortedTail(a);
      SortedTail(b);
      SortedUnique(ta, tb);
      assert a == [a[0]] + ta;
      assert b == [b[0]] + tb;
    } else {
      assert |b| == |multiset(b)| == |multiset(a)| == 0;
    }
  }

  // -----------------------------------------------------------------------
  // Printing each run of equal names once
  // -----------------------------------------------------------------------

  /** The first index from y on whose name differs from t[i], or |t|. */
  function NextDifferent(t: seq<string>, i: nat, y: nat): (n: nat)
    requires i < |t| && i < y <= |t|
    ensures y <= n <= |t|
    ensures forall k :: y <= k < n ==> t[k] == t[i]
    ensures n < |t| ==> t[n] != t[i]
    decreases |t| - y
  {
    if y == |t| then |t|
    else if t[y] != t[i] then y
    else NextDifferent(t, i, y + 1)
  }

  /** The first name of each run of equal names, from index i on. */
  function DistinctFrom(t: seq<string>, i: nat): seq<string>
    decreases |t| - i
  {
    if i >= |t| then [] else [t[i]] + DistinctFrom(t, NextDifferent(t, i, i + 1))
  }

  function Distinct(t: seq<string>): seq<string> {
    DistinctFrom(t, 0)
  }

  /** The names a print loop shows: all, or all but the empty ones. */
  function Visible(ds: seq<string>, skipEmpty: bool): seq<string> {
    if |ds| == 0 then []
    else (if skipEmpty && |ds[0]| == 0 then [] else [ds[0]]) + Visible(ds[1..], skipEmpty)
  }

  /** On a sorted list the runs give each name once, in strcmp order. */
  lemma {:induction false} DistinctFromSorted(t: seq<string>, i: nat)
    requires Sorted(t) && i <= |t|
    ensures StrictlySorted(DistinctFrom(t, i))
    ensures forall s :: s in DistinctFrom(t, i) <==> s in t[i..]
    decreases |t| - i
  {
    if i < |t| {
      var n := NextDifferent(t, i, i + 1);
      DistinctFromSorted(t, n);
      var rest := DistinctFrom(t, n);
      forall e | e in rest
        ensures Strcmp(t[i], e) < 0
      {
        assert e in t[n..];
        var k :| n <= k < |t| && t[k] == e;
        if e == t[i] {
          NotAfterAntisym(t[i], t[n]);
        }
      }
      forall s
        ensures s in t[i..] <==> s == t[i] || s in t[n..]
      {
        if s in t[i..] {
          var k :| i <= k < |t| && t[k] == s;
          if k >= n {
            assert t[n..][k - n] == s;
          }
        }
        if s in t[n..] {
          var k :| n <= k < |t| && t[k] == s;
          assert t[i..][k - i] == s;
        }
        if s == t[i] {
          assert t[i..][0] == s;
        }
      }
      forall p, q | 0 <= p < q < |[t[i]] + rest|
        ensures Strcmp(([t[i]] + rest)[p], ([t[i]] + rest)[q]) < 0
      {
        if p == 0 {
          assert rest[q - 1] in rest;
        }
      }
    }
  }

  /** Lists holding the same names are empty together. */
  lemma EmptyTogether(a: seq<string>, b: seq<string>)
    requires forall s :: s in a <==> s in b
    ensures |a| == 0 <==> |b| == 0
  {
    if |a| > 0 {
      assert a[0] in b;
    }
    if |b| > 0 {
      assert b[0] in a;
    }
  }

  /** Two strictly sorted lists of the same names start with the same name. */
  lemma StrictHeads(a: seq<string>, b: seq<string>)
    requires StrictlySorted(a) && StrictlySorted(b)
    requires forall s :: s in a <==> s in b
    requires |a| > 0
    ensures |b| > 0 && a[0] == b[0]
  {
    assert a[0] in a;
    var k :| 0 <= k < |b| && b[k] == a[0];
    assert b[0] in b;
    var m :| 0 <= m < |a| && a[m] == b[0];
    assert NotAfter(a[0], a[m]);
    assert NotAfter(b[0], b[k]);
    NotAfterAntisym(a[0], b[0]);
  }

  /** With the same first name, the rest of the lists hold the same names. */
  lemma StrictTails(a: seq<string>, b: seq<string>)
    requires StrictlySorted(a) && StrictlySorted(b)
    requires forall s :: s in a <==> s in b
    requires |a| > 0 && |b| > 0 && a[0] == b[0]
    ensures forall s :: s in a[1..] <==> s in b[1..]
  {
    forall s
      ensures s in a[1..] <==> s in b[1..]
    {
      if s in a[1..] {
        var p :| 1 <= p < |a| && a[p] == s;
        assert s in a;
        var q :| 0 <= q < |b| && b[q] == s;
        assert q != 0;
        assert b[1..][q - 1] == s;
      }
      if s in b[1..] {
        var q :| 1 <= q < |b| && b[q] == s;
        assert s in b;
        var p :| 0 <= p < |a| && a[p] == s;
        assert p != 0;
        assert a[1..][p - 1] == s;
      }
    }
  }

  /** A strictly sorted list is determined by which names it holds. */
  lemma {:induction false} StrictlySortedUnique(a: seq<string>, b: seq<string>)
    requires StrictlySorted(a) && StrictlySorted(b)
    requires forall s :: s in a <==> s in b
    ensures a == b
    decreases |a|
  {
    if |a| == 0 || |b| == 0 {
      EmptyTogether(a, b);
    } else {
      StrictHeads(a, b);
      StrictTails(a, b);
      var ta, tb := a[1..], b[1..];
      StrictTail(a);
      StrictTail(b);
      StrictlySortedUnique(ta, tb);
      assert a == [a[0]] + ta;
      assert b == [b[0]] + tb;
    }
  }

  /** Only the first name of a strictly sorted list can be empty. */
  lemma {:induction false} VisibleSorted(ds: seq<string>, skipEmpty: bool)
    requires StrictlySorted(ds)
    ensures StrictlySorted(Visible(ds, skipEmpty))
    ensures forall s :: s in Visible(ds, skipEmpty) <==> s in ds && !(skipEmpty && s == "")
  {
    if |ds| > 0 {
      forall j | 0 < j < |ds|
        ensures ds[j] != ""
      {
        if ds[j] == "" {
          EmptyFirst(ds[0]);
        }
      }
      NothingHidden(ds[1..], skipEmpty);
      assert ds == [ds[0]] + ds[1..];
    }
  }

  lemma {:induction false} NothingHidden(ds: seq<string>, skipEmpty: bool)
    requires forall j :: 0 <= j < |ds| ==> ds[j] != ""
    ensures Visible(ds, skipEmpty) == ds
  {
    if |ds| > 0 {
      NothingHidden(ds[1..], skipEmpty);
      assert ds == [ds[0]] + ds[1..];
    }
  }

  lemma {:induction false} VisibleAppend(a: seq<string>, b: seq<string>, skipEmpty: bool)
    ensures Visible(a + b, skipEmpty) == Visible(a, skipEmpty) + Visible(b, skipEmpty)
  {
    if |a| > 0 {
      assert (a + b)[1..] == a[1..] + b;
      VisibleAppend(a[1..], b, skipEmpty);
    } else {
      assert a + b == b;
    }
  }

  /** What the print loop shows for a sorted list: each name once, ascending. */
  lemma ShownSorted(t: seq<string>, skipEmpty: bool)
    requires Sorted(t)
    ensures StrictlySorted(Visible(Distinct(t), skipEmpty))
    ensures forall s :: s in Visible(Distinct(t), skipEmpty) <==> s in t && !(skipEmpty && s == "")
  {
    DistinctFromSorted(t, 0);
    assert t[0..] == t;
    VisibleSorted(Distinct(t), skipEmpty);
  }

  /** Printing name i, then moving to the first index of the next run. */
  lemma PrintStep(t: seq<string>, i: nat, printed: seq<string>, skipEmpty: bool, target: seq<string>)
    requires i < |t|
    requires printed + Visible(DistinctFrom(t, i), skipEmpty) == target
    ensures (printed + (if skipEmpty && |t[i]| == 0 then [] else [t[i]]))
            + Visible(DistinctFrom(t, NextDifferent(t, i, i + 1)), skipEmpty) == target
  {
    var rest := DistinctFrom(t, NextDifferent(t, i, i + 1));
    VisibleAppend([t[i]], rest, skipEmpty);
    assert [t[i]][1..] == [];
  }

  /** Past the last name there is nothing left to print. */
  lemma RunJump(t: seq<string>, i: nat, next: nat)
    requires i == next || (next == |t| && i == |t| + 1)
    ensures DistinctFrom(t, i) == DistinctFrom(t, next)
  {
  }

  /**
   * The print loop of sortedCommonNames and calExtract: print name i
   * (unless it is empty and empty names are skipped), then scan forward
   * over the names equal to it and continue at the first different one.
   */
  method PrintDistinct(t: seq<string>, skipEmpty: bool) returns (printed: seq<string>)
    ensures printed == Visible(Distinct(t), skipEmpty)
    ensures Sorted(t) ==> StrictlySorted(printed)
    ensures Sorted(t) ==> forall s :: s in printed <==> s in t && !(skipEmpty && s == "")
  {
    printed := [];
    var i := 0;
    while i < |t|
      invariant 0 <= i <= |t| + 1
      invariant printed + Visible(DistinctFrom(t, i), skipEmpty) == Visible(Distinct(t), skipEmpty)
      decreases |t| + 1 - i
    {
      PrintStep(t, i, printed, skipEmpty, Visible(Distinct(t), skipEmpty));
      ghost var next := NextDifferent(t, i, i + 1);
      if !(skipEmpty && |t[i]| == 0) {
        printed := printed + [t[i]];
      } else {
        assert printed + [] == printed;
      }
      var y := i + 1;
      while y < |t|
        invariant i + 1 <= y <= |t|
        invariant NextDifferent(t, i, y) == next
        invariant y == |t| ==> y == i + 1
      {
        if t[i] == t[y] && y == |t| - 1 {
          i := |t|;
          break;
        } else if t[i] == t[y] {
          y := y + 1;
        } else {
          i := y - 1;
          break;
        }
      }
      i := i + 1;
      RunJump(t, i, next);
    }
    if Sorted(t) {
      ShownSorted(t, skipEmpty);
    }
  }
}
