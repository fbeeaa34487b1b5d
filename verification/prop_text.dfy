/*
 * The text writeCalComp builds for a property (before folding), and the
 * proof that parseCalProp reads every well-formed property back unchanged.
 */
module PropText {
  import opened CalTypes
  import opened PropParser

  /** Values separated by ','. */
  function JoinComma(values: seq<string>): string {
    if |values| == 0 then []
    else if |values| == 1 then values[0]
    else values[0] + "," + JoinComma(values[1..])
  }

  /** NAME=v1,v2,... */
  function ParamText(p: Param): string {
    p.name + "=" + JoinComma(p.values)
  }

  /** Parameters separated by ';'. */
  function JoinParams(ps: seq<Param>): string {
    if |ps| == 0 then []
    else if |ps| == 1 then ParamText(ps[0])
    else ParamText(ps[0]) + ";" + JoinParams(ps[1..])
  }

  /** NAME[;params]:VALUE, the line writeCalComp hands to its folding loop. */
  function PropLine(p: Property): string {
    p.name + (if |p.params| == 0 then [] else ";" + JoinParams(p.params)) + ":" + p.value
  }

  // -----------------------------------------------------------------------
  // Which properties survive being written and read back
  // -----------------------------------------------------------------------

  /** Octets of an iana-token or x-name (section 3.1 of RFC 5545), upper case. */
  predicate NameChar(c: char) {
    ('A' <= c <= 'Z') || ('0' <= c <= '9') || c == '-'
  }

  predicate WfName(s: string) {
    |s| > 0 && forall i :: 0 <= i < |s| ==> NameChar(s[i])
  }

  /** Parameter value octets that need no quoting and end no line. */
  predicate ValueChar(c: char) {
    c != '"' && c != ',' && c != ';' && c != ':' && c != '=' && c != '\r' && c != '\n'
  }

  predicate PlainValue(v: string) {
    forall i :: 0 <= i < |v| ==> ValueChar(v[i])
  }

  /** Octets allowed between the quotes of a quoted-string (section 3.1 of RFC 5545), line ends aside. */
  predicate QSafe(c: char) {
    c != '"' && c != '\r' && c != '\n'
  }

  predicate QSafeText(s: string) {
    forall i :: 0 <= i < |s| ==> QSafe(s[i])
  }

  /** DQUOTE, any octets but DQUOTE and line ends, DQUOTE. */
  predicate QuotedValue(v: string) {
    |v| >= 2 && v[0] == '"' && v[|v| - 1] == '"' && QSafeText(v[1..|v| - 1])
  }

  /** A parameter value as writeCalComp writes it and createNode reads it back. */
  predicate WfParamValue(v: string) {
    PlainValue(v) || QuotedValue(v)
  }

  lemma WfParamValueNoCrLf(v: string)
    requires WfParamValue(v)
    ensures NoCrLf(v)
  {
    if QuotedValue(v) {
      forall i | 0 <= i < |v|
        ensures v[i] != '\r' && v[i] != '\n'
      {
        if 0 < i < |v| - 1 {
          assert v[i] == v[1..|v| - 1][i - 1];
        }
      }
    }
  }

  /** A quoted value split into its quotes and the octets between them. */
  lemma QuotedInner(v: string) returns (inner: string)
    requires QuotedValue(v)
    ensures v == ['"'] + inner + ['"'] && QSafeText(inner)
  {
    inner := v[1..|v| - 1];
  }

  /**
   * At least one value, and the last value non-empty when there are
   * several: createNode would read "A=x," back as the single value "x,".
   */
  predicate WfValues(vals: seq<string>) {
    && |vals| >= 1
    && (|vals| > 1 ==> |vals[|vals| - 1]| > 0)
    && forall k :: 0 <= k < |vals| ==> WfParamValue(vals[k])
  }

  predicate WfParam(p: Param) {
    WfName(p.name) && WfValues(p.values)
  }

  predicate WfProperty(p: Property) {
    && WfName(p.name)
    && (forall k :: 0 <= k < |p.params| ==> WfParam(p.params[k]))
    && NoCrLf(p.value)
  }

  lemma WfNameIsUpper(s: string)
    requires WfName(s)
    ensures IsUpper(s) && Upper(s) == s && ValidParamName(s)
  {
    UpperOfUpper(s);
  }

  // -----------------------------------------------------------------------
  // createNode
  // -----------------------------------------------------------------------

  predicate NodePlain(s: string) {
    forall i :: 0 <= i < |s| ==> s[i] != '"' && s[i] != '=' && s[i] != ','
  }

  lemma {:induction false} NodeLoopPlain(a: string, rest: string, q: bool, tok: string, ns: nat, vals: seq<string>)
    requires |rest| > 0 && NodePlain(a)
    ensures NodeLoop(a + rest, q, tok, ns, vals) == NodeLoop(rest, q, tok + a, ns, vals)
    decreases |a|
  {
    if |a| == 0 {
      assert a + rest == rest;
      assert tok + a == tok;
    } else {
      assert (a + rest)[1..] == a[1..] + rest;
      assert tok + [a[0]] + a[1..] == tok + a;
      NodeLoopPlain(a[1..], rest, q, tok + [a[0]], ns, vals);
    }
  }

  /** One octet that neither fixes the name nor ends a value is collected. */
  lemma NodeCollect(s: string, quote: bool, tok: string, ns: nat, vals: seq<string>)
    requires |s| > 1
    requires var q := if s[0] == '"' then !quote else quote;
      !(s[0] == '=' && !q) && !(s[0] == ',' && !q)
    ensures NodeLoop(s, quote, tok, ns, vals)
         == NodeLoop(s[1..], if s[0] == '"' then !quote else quote, tok + [s[0]], ns, vals)
  {
  }

  /** Inside quotes createNode collects every octet up to the closing '"'. */
  lemma {:induction false} NodeLoopInQuotes(a: string, rest: string, tok: string, ns: nat, vals: seq<string>)
    requires |rest| > 0 && QSafeText(a)
    ensures NodeLoop(a + rest, true, tok, ns, vals) == NodeLoop(rest, true, tok + a, ns, vals)
    decreases |a|
  {
    if |a| == 0 {
      assert a + rest == rest;
      assert tok + a == tok;
    } else {
      assert (a + rest)[0] == a[0];
      assert (a + rest)[1..] == a[1..] + rest;
      assert tok + [a[0]] + a[1..] == tok + a;
      NodeLoopInQuotes(a[1..], rest, tok + [a[0]], ns, vals);
    }
  }

  /** A value followed by more text is collected whole, quotes and all. */
  lemma {:induction false} NodeLoopValue(v: string, rest: string, ns: nat, acc: seq<string>)
    requires WfParamValue(v) && |rest| > 0
    ensures NodeLoop(v + rest, false, [], ns, acc) == NodeLoop(rest, false, v, ns, acc)
  {
    if PlainValue(v) {
      NodeLoopPlain(v, rest, false, [], ns, acc);
      assert [] + v == v;
    } else {
      var inner := QuotedInner(v);
      var s := v + rest;
      var close := ['"'] + rest;
      assert s[0] == '"' && s[1..] == inner + close;
      NodeCollect(s, false, [], ns, acc);
      assert [] + ['"'] == ['"'];
      NodeLoopInQuotes(inner, close, ['"'], ns, acc);
      assert close[0] == '"' && close[1..] == rest;
      assert NodeLoop(close, true, ['"'] + inner, ns, acc) == NodeLoop(rest, false, ['"'] + inner + ['"'], ns, acc);
    }
  }

  /** The last value: its final octet ends it. */
  lemma {:induction false} NodeLoopLast(v: string, ns: nat, acc: seq<string>)
    requires |v| > 0 && WfParamValue(v)
    ensures NodeLoop(v, false, [], ns, acc) == NodeScan(ns, acc + [v])
  {
    if PlainValue(v) {
      var init := v[..|v| - 1];
      assert v == init + [v[|v| - 1]];
      NodeLoopPlain(init, [v[|v| - 1]], false, [], ns, acc);
      assert [] + init == init;
    } else {
      var inner := QuotedInner(v);
      assert v[1..] == inner + ['"'];
      NodeCollect(v, false, [], ns, acc);
      assert [] + ['"'] == ['"'];
      NodeLoopInQuotes(inner, ['"'], ['"'], ns, acc);
      assert NodeLoop(['"'], true, ['"'] + inner, ns, acc) == NodeScan(ns, acc + [['"'] + inner + ['"']]);
    }
  }

  /** A value followed by ',': the comma ends it. */
  lemma {:induction false} NodeLoopComma(v: string, j: string, ns: nat, acc: seq<string>)
    requires WfParamValue(v) && |j| > 0
    ensures NodeLoop(v + ("," + j), false, [], ns, acc) == NodeLoop(j, false, [], ns, acc + [v])
  {
    NodeLoopValue(v, "," + j, ns, acc);
    assert ("," + j)[0] == ',' && ("," + j)[1..] == j;
  }

  lemma {:induction false} NodeLoopValues(vals: seq<string>, ns: nat, acc: seq<string>)
    requires |vals| >= 1 && |vals[|vals| - 1]| > 0
    requires forall k :: 0 <= k < |vals| ==> WfParamValue(vals[k])
    ensures |JoinComma(vals)| > 0
    ensures NodeLoop(JoinComma(vals), false, [], ns, acc) == NodeScan(ns, acc + vals)
    decreases |vals|
  {
    var v := vals[0];
    if |vals| == 1 {
      assert JoinComma(vals) == v;
      NodeLoopLast(v, ns, acc);
      assert [v] == vals;
    } else {
      var j := JoinComma(vals[1..]);
      NodeLoopValues(vals[1..], ns, acc + [v]);
      assert JoinComma(vals) == v + ("," + j);
      NodeLoopComma(v, j, ns, acc);
      assert acc + [v] + vals[1..] == acc + vals;
    }
  }

  /** NAME= with nothing after it: one empty value. */
  lemma {:induction false} NameThenEmpty(name: string)
    requires NodePlain(name)
    ensures NodeLoop(name + "=", false, [], 0, []) == NodeScan(|name|, [""])
  {
    NodeLoopPlain(name, "=", false, [], 0, []);
    assert [] + name == name;
  }

  /** NAME= followed by values separated by ','. */
  lemma {:induction false} NameThenValues(name: string, vals: seq<string>)
    requires NodePlain(name)
    requires |vals| >= 1 && |vals[|vals| - 1]| > 0
    requires forall k :: 0 <= k < |vals| ==> WfParamValue(vals[k])
    ensures NodeLoop(name + ("=" + JoinComma(vals)), false, [], 0, []) == NodeScan(|name|, vals)
  {
    var j := JoinComma(vals);
    NodeLoopValues(vals, |name|, []);
    NodeLoopPlain(name, "=" + j, false, [], 0, []);
    assert [] + name == name;
    assert ("=" + j)[1..] == j;
    assert [] + vals == vals;
  }

  /** The createNode loop over NAME=v1,v2,... finds the name's length and the values. */
  lemma {:induction false} NodeLoopSplit(name: string, vals: seq<string>)
    requires NodePlain(name) && WfValues(vals)
    ensures NodeLoop(name + "=" + JoinComma(vals), false, [], 0, []) == NodeScan(|name|, vals)
  {
    var j := JoinComma(vals);
    assert name + "=" + j == name + ("=" + j);
    if |vals| == 1 && |vals[0]| == 0 {
      assert j == [] && "=" + j == "=";
      NameThenEmpty(name);
      assert vals == [""];
    } else {
      NameThenValues(name, vals);
    }
  }

  /**
   * createNode on NAME=v1,v2,...: the name is the text before the '=',
   * upper-cased, and the values are the ','-separated pieces after it,
   * kept exactly as written, quotes included.
   */
  lemma {:induction false} CreateNodeSplit(name: string, vals: seq<string>)
    requires NodePlain(name) && WfValues(vals)
    ensures CreateNode(name + "=" + JoinComma(vals)) == Param(Upper(name), vals)
  {
    NodeLoopSplit(name, vals);
    assert (name + "=" + JoinComma(vals))[..|name|] == name;
  }

  /** Without '=' the values are all there is, and the name is empty. */
  lemma {:induction false} CreateNodeNoName(vals: seq<string>)
    requires WfValues(vals) && |vals[|vals| - 1]| > 0
    ensures CreateNode(JoinComma(vals)) == Param([], vals)
  {
    NodeLoopValues(vals, 0, []);
    assert [] + vals == vals;
  }

  /**
   * With a second unquoted '=', createNode takes as the name the first n
   * octets of the whole parameter, n being the length of the text between
   * the two '=' signs, and keeps only what follows the second one.
   */
  lemma {:induction false} CreateNodeSeveralEquals(n: string, a: string, v: string)
    requires NodePlain(n) && NodePlain(a) && |v| > 0 && PlainValue(v)
    ensures var text := n + "=" + a + "=" + v;
      CreateNode(text) == Param(Upper(text[..|a|]), [v])
  {
    var text := n + "=" + a + "=" + v;
    assert text == n + ("=" + (a + ("=" + v)));
    NodeLoopPlain(n, "=" + (a + ("=" + v)), false, [], 0, []);
    assert ("=" + (a + ("=" + v)))[0] == '=' && ("=" + (a + ("=" + v)))[1..] == a + ("=" + v);
    NodeLoopPlain(a, "=" + v, false, [], |n|, []);
    assert [] + a == a;
    assert ("=" + v)[0] == '=' && ("=" + v)[1..] == v;
    NodeLoopLast(v, |a|, []);
  }

  /** createNode reads a well-formed parameter's text back as that parameter. */
  lemma CreateNodeRoundTrip(p: Param)
    requires WfParam(p)
    ensures CreateNode(ParamText(p)) == p
  {
    CreateNodeSplit(p.name, p.values);
    WfNameIsUpper(p.name);
  }

  // -----------------------------------------------------------------------
  // parseParams
  // -----------------------------------------------------------------------

  /** Once a '"' has been seen, parseParams splits no more: the rest is one piece. */
  lemma {:induction false} PiecesQuoted(s: string, buf: string)
    ensures SemiPieces(s, true, buf) == (if |buf + s| == 0 then [] else [buf + s])
    decreases |s|
  {
    if |s| == 0 {
      assert buf + s == buf;
    } else {
      assert buf + [s[0]] + s[1..] == buf + s;
      PiecesQuoted(s[1..], buf + [s[0]]);
    }
  }

  /** Text that is one piece, or none when empty. */
  function OnePiece(t: string): seq<string> {
    if |t| == 0 then [] else [t]
  }

  /** A value starting with '"' ends the splitting: everything from it on joins the piece. */
  lemma {:induction false} PiecesFromQuote(s: string, buf: string)
    requires |s| > 0 && s[0] == '"'
    ensures SemiPieces(s, false, buf) == OnePiece(buf + s)
  {
    PiecesQuoted(s[1..], buf + ['"']);
    assert buf + ['"'] + s[1..] == buf + s;
  }

  lemma PlainNoSemiQuote(v: string)
    requires PlainValue(v)
    ensures NoSemiQuote(v) && NoSemiQuote(v + ",")
  {
    assert forall i :: 0 <= i < |v| ==> ValueChar(v[i]);
  }

  /** Values joined by ',' hold no ';' ahead of their first '"'. */
  lemma {:induction false} PiecesOfValues(vals: seq<string>, buf: string)
    requires forall k :: 0 <= k < |vals| ==> WfParamValue(vals[k])
    ensures SemiPieces(JoinComma(vals), false, buf) == OnePiece(buf + JoinComma(vals))
    decreases |vals|
  {
    if |vals| == 0 {
      assert buf + [] == buf;
    } else if |vals| == 1 {
      var v := vals[0];
      if PlainValue(v) {
        PlainNoSemiQuote(v);
        CollectPiece(v, [], buf);
        assert v + [] == v;
      } else {
        PiecesFromQuote(v, buf);
      }
    } else {
      var v := vals[0];
      var rest := JoinComma(vals[1..]);
      assert JoinComma(vals) == v + "," + rest;
      if PlainValue(v) {
        PlainNoSemiQuote(v);
        CollectPiece(v + ",", rest, buf);
        PiecesOfValues(vals[1..], buf + (v + ","));
        assert buf + (v + ",") + rest == buf + (v + "," + rest);
      } else {
        PiecesFromQuote(v + "," + rest, buf);
      }
    }
  }

  /** parseParams reads a well-formed parameter's text back as that one parameter. */
  lemma {:induction false} ParseParamsParam(p: Param)
    requires WfParam(p)
    ensures ParseParams(ParamText(p)) == [p]
  {
    var head := p.name + "=";
    assert NoSemiQuote(head) by {
      WfNameIsUpper(p.name);
      assert forall i :: 0 <= i < |p.name| ==> NameChar(p.name[i]);
    }
    ParseParamsPieces(ParamText(p));
    CollectPiece(head, JoinComma(p.values), []);
    assert [] + head == head;
    PiecesOfValues(p.values, head);
    assert Pieces(ParamText(p)) == [ParamText(p)];
    CreateNodeRoundTrip(p);
    assert CreateNodes([ParamText(p)]) == [CreateNode(ParamText(p))];
  }

  // -----------------------------------------------------------------------
  // parseCalProp
  // -----------------------------------------------------------------------

  /** Octets that are neither quotes nor separators are collected into cur. */
  lemma {:induction false} PropLoopPlain(a: string, rest: string, st: PropState)
    requires |rest| > 0 && SectionPlain(a)
    ensures PropLoop(a + rest, st) == PropLoop(rest, st.(cur := st.cur + a))
    decreases |a|
  {
    if |a| == 0 {
      assert a + rest == rest;
      assert st.cur + a == st.cur;
      assert st.(cur := st.cur) == st;
    } else {
      assert (a + rest)[0] == a[0];
      assert (a + rest)[1..] == a[1..] + rest;
      assert st.cur + [a[0]] + a[1..] == st.cur + a;
      PropLoopPlain(a[1..], rest, st.(cur := st.cur + [a[0]]));
    }
  }

  /** What parseCalProp does at a ':' or ';' outside quotes. */
  lemma SepStep(sep: char, rest: string, st: PropState)
    requires sep == ':' || sep == ';'
    ensures st.name.None? ==>
      PropLoop([sep] + rest, st) == PropLoop(rest, st.(name := Some(Upper(st.cur)), onlyVal := sep == ':', cur := []))
    ensures st.name.Some? && !st.onlyVal && !st.quote && !st.parsed ==>
      PropLoop([sep] + rest, st) == PropLoop(rest, st.(parsed := sep == ':', params := st.params + ParseParams(st.cur), cur := []))
  {
    assert ([sep] + rest)[0] == sep;
    assert ([sep] + rest)[1..] == rest;
  }

  /** The parameter phase of parseCalProp, outside quotes. */
  predicate InParams(st: PropState) {
    st.name.Some? && !st.onlyVal && !st.parsed && !st.quote
  }

  /** In the parameter phase, an octet that ends no segment is collected. */
  lemma PropCollect(s: string, st: PropState)
    requires |s| > 0 && st.name.Some? && !st.onlyVal && !st.parsed
    requires var q := if s[0] == '"' then !st.quote else st.quote;
      !((s[0] == ':' || s[0] == ';') && !q)
    ensures PropLoop(s, st)
         == PropLoop(s[1..], st.(quote := if s[0] == '"' then !st.quote else st.quote, cur := st.cur + [s[0]]))
  {
  }

  /** Inside quotes the parameter phase collects every octet up to the closing '"'. */
  lemma {:induction false} PropLoopInQuotes(a: string, rest: string, st: PropState)
    requires |rest| > 0 && QSafeText(a)
    requires st.name.Some? && !st.onlyVal && !st.parsed && st.quote
    ensures PropLoop(a + rest, st) == PropLoop(rest, st.(cur := st.cur + a))
    decreases |a|
  {
    if |a| == 0 {
      assert a + rest == rest;
      assert st.cur + a == st.cur;
      assert st.(cur := st.cur) == st;
    } else {
      assert (a + rest)[0] == a[0];
      assert (a + rest)[1..] == a[1..] + rest;
      assert st.cur + [a[0]] + a[1..] == st.cur + a;
      PropLoopInQuotes(a[1..], rest, st.(cur := st.cur + [a[0]]));
    }
  }

  /** A quoted value is collected whole and leaves the quotes closed. */
  lemma {:induction false} PropLoopQuoted(v: string, rest: string, st: PropState)
    requires QuotedValue(v) && |rest| > 0 && InParams(st)
    ensures PropLoop(v + rest, st) == PropLoop(rest, st.(cur := st.cur + v))
  {
    var inner := QuotedInner(v);
    assert v + rest == ['"'] + (inner + (['"'] + rest));
    QuoteOpens(inner + (['"'] + rest), st);
    var st1 := st.(quote := true, cur := st.cur + ['"']);
    PropLoopInQuotes(inner, ['"'] + rest, st1);
    QuoteCloses(rest, st1.(cur := st1.cur + inner));
    assert st.cur + ['"'] + inner + ['"'] == st.cur + v;
  }

  lemma {:induction false} QuoteOpens(t: string, st: PropState)
    requires InParams(st)
    ensures PropLoop(['"'] + t, st) == PropLoop(t, st.(quote := true, cur := st.cur + ['"']))
  {
    assert (['"'] + t)[0] == '"' && (['"'] + t)[1..] == t;
    PropCollect(['"'] + t, st);
  }

  lemma {:induction false} QuoteCloses(t: string, st: PropState)
    requires |t| > 0 && st.name.Some? && !st.onlyVal && !st.parsed && st.quote
    ensures PropLoop(['"'] + t, st) == PropLoop(t, st.(quote := false, cur := st.cur + ['"']))
  {
    assert (['"'] + t)[0] == '"' && (['"'] + t)[1..] == t;
    PropCollect(['"'] + t, st);
  }

  /** A parameter value, plain or quoted, is collected whole and leaves the quotes closed. */
  lemma {:induction false} PropLoopParamValue(v: string, rest: string, st: PropState)
    requires WfParamValue(v) && |rest| > 0 && InParams(st)
    ensures PropLoop(v + rest, st) == PropLoop(rest, st.(cur := st.cur + v))
  {
    if PlainValue(v) {
      assert SectionPlain(v) by {
        assert forall i :: 0 <= i < |v| ==> ValueChar(v[i]);
      }
      PropLoopPlain(v, rest, st);
    } else {
      PropLoopQuoted(v, rest, st);
    }
  }

  /** Values joined by ',' are collected whole. */
  lemma {:induction false} PropLoopValues(vals: seq<string>, rest: string, st: PropState)
    requires forall k :: 0 <= k < |vals| ==> WfParamValue(vals[k])
    requires |rest| > 0 && InParams(st)
    ensures PropLoop(JoinComma(vals) + rest, st) == PropLoop(rest, st.(cur := st.cur + JoinComma(vals)))
    decreases |vals|
  {
    if |vals| == 0 {
      assert JoinComma(vals) + rest == rest && st.cur + [] == st.cur;
      assert st.(cur := st.cur) == st;
    } else if |vals| == 1 {
      PropLoopParamValue(vals[0], rest, st);
    } else {
      var v := vals[0];
      var j := JoinComma(vals[1..]);
      Assoc(v + ",", j, rest);
      ValueThenComma(v, j + rest, st);
      var st2 := st.(cur := st.cur + (v + ","));
      PropLoopValues(vals[1..], rest, st2);
      Assoc(st.cur, v + ",", j);
    }
  }

  /** A value and the ',' after it are collected together. */
  lemma {:induction false} ValueThenComma(v: string, rest: string, st: PropState)
    requires WfParamValue(v) && |rest| > 0 && InParams(st)
    ensures PropLoop(v + "," + rest, st) == PropLoop(rest, st.(cur := st.cur + (v + ",")))
  {
    assert v + "," + rest == v + ("," + rest);
    PropLoopParamValue(v, "," + rest, st);
    var st1 := st.(cur := st.cur + v);
    PropLoopPlain(",", rest, st1);
    assert st1.cur + "," == st.cur + (v + ",");
  }

  /** The text of a well-formed parameter is collected whole. */
  lemma {:induction false} PropLoopParamText(p: Param, rest: string, st: PropState)
    requires WfParam(p) && |rest| > 0 && InParams(st)
    ensures PropLoop(ParamText(p) + rest, st) == PropLoop(rest, st.(cur := st.cur + ParamText(p)))
  {
    var head := p.name + "=";
    assert SectionPlain(head) by {
      assert forall i :: 0 <= i < |p.name| ==> NameChar(p.name[i]);
    }
    assert ParamText(p) + rest == head + (JoinComma(p.values) + rest);
    PropLoopPlain(head, JoinComma(p.values) + rest, st);
    PropLoopValues(p.values, rest, st.(cur := st.cur + head));
    assert st.cur + head + JoinComma(p.values) == st.cur + ParamText(p);
  }

  /** One parameter's text followed by ':' or ';' adds that parameter. */
  lemma {:induction false} OneParam(p: Param, sep: char, rest: string, st: PropState)
    requires WfParam(p) && (sep == ':' || sep == ';')
    requires InParams(st) && st.cur == []
    ensures PropLoop(ParamText(p) + [sep] + rest, st)
         == PropLoop(rest, st.(parsed := sep == ':', params := st.params + [p], cur := []))
  {
    var t := ParamText(p);
    ParseParamsParam(p);
    assert t + [sep] + rest == t + ([sep] + rest);
    PropLoopParamText(p, [sep] + rest, st);
    assert [] + t == t;
    SepStep(sep, rest, st.(cur := t));
  }

  /** The first of several parameters ends at its ';'. */
  lemma {:induction false} FirstOfParams(ps: seq<Param>, v: string, st: PropState)
    requires |ps| >= 2 && WfParam(ps[0])
    requires InParams(st) && st.cur == []
    ensures PropLoop(JoinParams(ps) + ":" + v, st)
         == PropLoop(JoinParams(ps[1..]) + ":" + v, st.(params := st.params + [ps[0]]))
  {
    var j := JoinParams(ps[1..]);
    assert JoinParams(ps) + ":" + v == ParamText(ps[0]) + [';'] + (j + ":" + v);
    OneParam(ps[0], ';', j + ":" + v, st);
  }

  /** The last parameter is read at the ':' that ends the parameters. */
  lemma {:induction false} LastOfParams(ps: seq<Param>, v: string, st: PropState)
    requires |ps| == 1 && WfParam(ps[0])
    requires InParams(st) && st.cur == []
    ensures PropLoop(JoinParams(ps) + ":" + v, st)
         == PropLoop(v, st.(parsed := true, params := st.params + ps, cur := []))
  {
    OneParam(ps[0], ':', v, st);
    assert JoinParams(ps) + ":" + v == ParamText(ps[0]) + [':'] + v;
    assert [ps[0]] == ps;
  }

  /** The parameters are read one by one at each ';', the last at ':'. */
  lemma {:induction false} PropLoopParams(ps: seq<Param>, v: string, st: PropState)
    requires |ps| >= 1 && forall k :: 0 <= k < |ps| ==> WfParam(ps[k])
    requires InParams(st) && st.cur == []
    ensures PropLoop(JoinParams(ps) + ":" + v, st)
         == PropLoop(v, st.(parsed := true, params := st.params + ps, cur := []))
    decreases |ps|
  {
    if |ps| == 1 {
      LastOfParams(ps, v, st);
    } else {
      FirstOfParams(ps, v, st);
      var st1 := st.(params := st.params + [ps[0]]);
      assert forall k :: 0 <= k < |ps[1..]| ==> WfParam(ps[1..][k]);
      PropLoopParams(ps[1..], v, st1);
      AppendHeadTail(st.params, ps);
      assert st1.(parsed := true, params := st1.params + ps[1..], cur := [])
          == st.(parsed := true, params := st.params + ps, cur := []);
    }
  }

  /** The content line split after the property name. */
  lemma PropLineShape(p: Property)
    ensures |p.params| == 0 ==> PropLine(p) == p.name + ([':'] + p.value)
    ensures |p.params| > 0 ==> PropLine(p) == p.name + ([';'] + (JoinParams(p.params) + ":" + p.value))
  {
  }

  /** The loop of parseCalProp over the line of a property without parameters. */
  lemma {:induction false} LoopNoParams(p: Property)
    requires WfProperty(p) && |p.params| == 0
    ensures var r := PropLoop(PropLine(p), StartState);
      r.name == Some(p.name) && r.params == [] && !r.parsed && ValueOr(r.value) == p.value
  {
    WfNameIsUpper(p.name);
    assert SectionPlain(p.name);
    PropLineShape(p);
    PropLoopPlain(p.name, [':'] + p.value, StartState);
    assert [] + p.name == p.name;
    SepStep(':', p.value, StartState.(cur := p.name));
    var st1 := StartState.(name := Some(p.name), onlyVal := true, cur := []);
    PropLoopValue(p.value, st1);
    assert [] + p.value == p.value;
  }

  /** The loop of parseCalProp over the line of a property with parameters. */
  lemma {:induction false} LoopWithParams(p: Property)
    requires WfProperty(p) && |p.params| > 0
    ensures var r := PropLoop(PropLine(p), StartState);
      r.name == Some(p.name) && r.params == p.params && ValueOr(r.value) == p.value
  {
    WfNameIsUpper(p.name);
    assert SectionPlain(p.name);
    PropLineShape(p);
    var rest := JoinParams(p.params) + ":" + p.value;
    PropLoopPlain(p.name, [';'] + rest, StartState);
    assert [] + p.name == p.name;
    SepStep(';', rest, StartState.(cur := p.name));
    var st1 := StartState.(name := Some(p.name), onlyVal := false, cur := []);
    PropLoopParams(p.params, p.value, st1);
    var st2 := st1.(parsed := true, params := p.params, cur := []);
    assert [] + p.params == p.params;
    PropLoopValue(p.value, st2);
    assert [] + p.value == p.value;
  }

  /** Well-formed parameter names pass validateParams. */
  lemma WfParamsValid(ps: seq<Param>)
    requires forall k :: 0 <= k < |ps| ==> WfParam(ps[k])
    ensures ValidateParams(ps)
  {
    forall k | 0 <= k < |ps|
      ensures ValidParamName(ps[k].name)
    {
      WfNameIsUpper(ps[k].name);
    }
  }

  /** parseCalProp reads every well-formed property's line back unchanged. */
  lemma ParseCalPropRoundTrip(p: Property)
    requires WfProperty(p)
    ensures ParseCalProp(PropLine(p)) == Some(p)
  {
    if |p.params| == 0 {
      LoopNoParams(p);
    } else {
      LoopWithParams(p);
      WfParamsValid(p.params);
    }
  }
}
