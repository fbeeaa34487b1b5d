/*
 * Splitting a content line into name, parameters and value: parseCalProp,
 * parseParams, createNode and validateParams.
 *
 * Each C loop walks the line one octet at a time, keeping a few flags; the
 * functions below do the same over the octets not yet seen, so "the last
 * octet" of the C is the case |s| == 1 here.
 */
module PropParser {
  import opened CalTypes

  // -----------------------------------------------------------------------
  // createNode: NAME=v1,v2,...
  // -----------------------------------------------------------------------

  /** What createNode has found: the length of the name and the values. */
  datatype NodeScan = NodeScan(nameSize: nat, values: seq<string>)

  /**
   * The createNode loop.  tok holds the octets since the last unquoted '='
   * or ','; an unquoted '=' fixes the name length at |tok|, an unquoted ','
   * ends a value, and the last octet always ends one.
   */
  function NodeLoop(s: string, quote: bool, tok: string, nameSize: nat, values: seq<string>): (r: NodeScan)
    ensures r.nameSize <= nameSize || r.nameSize < |tok| + |s|
    ensures |s| > 0 ==> |r.values| > |values|
    ensures |s| == 0 ==> r == NodeScan(nameSize, values)
    ensures r.values[..|values|] == values
    decreases |s|
  {
    if |s| == 0 then NodeScan(nameSize, values)
    else
      var c := s[0];
      var q := if c == '"' then !quote else quote;
      if c == '=' && !q then
        if |s| == 1 then NodeScan(|tok|, values + [""])
        else NodeLoop(s[1..], q, [], |tok|, values)
      else if |s| == 1 then NodeScan(nameSize, values + [tok + [c]])
      else if c == ',' && !q then NodeLoop(s[1..], q, [], nameSize, values + [tok])
      else NodeLoop(s[1..], q, tok + [c], nameSize, values)
  }

  /**
   * createNode: the name is the first nameSize octets of the parameter,
   * upper-cased; the values are kept exactly as written.
   */
  function CreateNode(parameter: string): (p: Param)
    ensures IsUpper(p.name) && |p.name| <= |parameter|
    ensures |parameter| == 0 <==> |p.values| == 0
    ensures |parameter| == 0 ==> p == Param([], [])
  {
    var r := NodeLoop(parameter, false, [], 0, []);
    UpperIsUpper(parameter[..r.nameSize]);
    Param(Upper(parameter[..r.nameSize]), r.values)
  }

  // -----------------------------------------------------------------------
  // parseParams: one or more parameters separated by ';'
  // -----------------------------------------------------------------------

  /**
   * The parseParams loop.  Any '"' switches quoting on for the rest of the
   * text; before that, ';' ends a parameter.  With no ';' seen, the last
   * octet hands the whole text to createNode.
   */
  function ParamsLoop(s: string, quote: bool, buf: string, multiple: bool, whole: string): (r: seq<Param>)
    ensures |s| > 0 ==> |r| >= 1
    decreases |s|
  {
    if |s| == 0 then []
    else
      var c := s[0];
      var q := quote || c == '"';
      if c == ';' && !q then [CreateNode(buf)] + ParamsLoop(s[1..], q, [], true, whole)
      else if |s| == 1 then
        if multiple then [CreateNode(buf + [c])] else [CreateNode(whole)]
      else ParamsLoop(s[1..], q, buf + [c], multiple, whole)
  }

  /** parseParams; the empty text gives no parameter (NULL). */
  function ParseParams(text: string): (r: seq<Param>)
    ensures |text| == 0 <==> |r| == 0
  {
    ParamsLoop(text, false, [], false, text)
  }

  /** validateParams: every name is non-empty and holds no space. */
  predicate ValidateParams(params: seq<Param>) {
    forall k :: 0 <= k < |params| ==> ValidParamName(params[k].name)
  }

  predicate ValidParamName(name: string) {
    |name| > 0 && forall i :: 0 <= i < |name| ==> name[i] != ' '
  }

  /** The loop of validateParams, node by node. */
  function ValidateLoop(params: seq<Param>): (ok: bool)
    ensures ok <==> ValidateParams(params)
  {
    if |params| == 0 then true
    else if !ValidParamName(params[0].name) then false
    else
      assert forall k :: 1 <= k < |params| ==> params[k] == params[1..][k - 1];
      ValidateLoop(params[1..])
  }

  // -----------------------------------------------------------------------
  // parseCalProp
  // -----------------------------------------------------------------------

  /** The flags and partial results of the parseCalProp loop. */
  datatype PropState = PropState(
    quote: bool,                // inside "..."
    name: Option<string>,       // prop->name
    onlyVal: bool,              // the name ended with ':'
    parsed: bool,               // the parameters ended with ':'
    cur: string,                // currentString
    value: Option<string>,      // prop->value
    params: seq<Param>)         // prop->param

  const StartState := PropState(false, None, false, false, [], None, [])

  function PropLoop(s: string, st: PropState): (r: PropState)
    ensures st.name.Some? ==> r.name == st.name
    ensures |r.params| >= |st.params| && r.params[..|st.params|] == st.params
    ensures st.parsed ==> r.params == st.params
    decreases |s|
  {
    if |s| == 0 then st
    else
      var c := s[0];
      var q := if c == '"' then !st.quote else st.quote;
      if (c == ';' || c == ':') && st.name.None? then
        PropLoop(s[1..], st.(quote := q, name := Some(Upper(st.cur)), onlyVal := c == ':', cur := []))
      else if !st.onlyVal && st.name.Some? && (c == ':' || c == ';') && !q && !st.parsed then
        PropLoop(s[1..], st.(quote := q, parsed := c == ':', params := st.params + ParseParams(st.cur), cur := []))
      else if (st.onlyVal || st.parsed) && |s| == 1 then
        st.(quote := q, value := Some(st.cur + [c]), cur := [])
      else
        PropLoop(s[1..], st.(quote := q, cur := st.cur + [c]))
  }

  /** Before the name is found, an octet other than ':' or ';' is collected. */
  lemma NameOctet(s: string, st: PropState)
    requires |s| > 0 && s[0] != ':' && s[0] != ';'
    requires st.name.None? && !st.onlyVal && !st.parsed
    ensures PropLoop(s, st)
         == PropLoop(s[1..], st.(quote := if s[0] == '"' then !st.quote else st.quote, cur := st.cur + [s[0]]))
  {
  }

  /** Index of the first ':' or ';', which ends the property name. */
  function FirstSep(line: string): (k: nat)
    ensures k <= |line|
    ensures k < |line| ==> line[k] == ':' || line[k] == ';'
    ensures forall j :: 0 <= j < k ==> line[j] != ':' && line[j] != ';'
  {
    if |line| == 0 then 0
    else if line[0] == ':' || line[0] == ';' then 0
    else 1 + FirstSep(line[1..])
  }

  /**
   * parseCalProp: None is the SYNTAX error.  A property is only returned
   * with a non-empty upper-case name taken from the text before the first
   * ':' or ';', and with parameters that pass validateParams.
   */
  function ParseCalProp(line: string): (r: Option<Property>)
    ensures r.Some? ==> FirstSep(line) < |line| && 0 < FirstSep(line)
    ensures r.Some? ==> r.value.name == Upper(line[..FirstSep(line)])
    ensures r.Some? ==> ValidateParams(r.value.params)
    ensures FirstSep(line) == 0 || FirstSep(line) == |line| ==> r.None?
  {
    var st := PropLoop(line, StartState);
    NameFromFirstSep(line, StartState);
    if st.name.None? || |st.name.value| == 0 then None
    else if |st.params| > 0 then
      if ValidateLoop(st.params) then Some(Property(st.name.value, st.params, ValueOr(st.value)))
      else None
    else if st.parsed then None
    else Some(Property(st.name.value, [], ValueOr(st.value)))
  }

  /** A value never found is the empty string. */
  function ValueOr(v: Option<string>): string {
    if v.Some? then v.value else []
  }

  /** The name is whatever was collected up to the first ':' or ';'. */
  lemma {:induction false} NameFromFirstSep(s: string, st: PropState)
    requires st.name.None? && !st.onlyVal && !st.parsed
    ensures var r := PropLoop(s, st);
      r.name.Some? <==> FirstSep(s) < |s|
    ensures var r := PropLoop(s, st);
      r.name.Some? ==> r.name.value == Upper(st.cur + s[..FirstSep(s)])
    decreases |s|
  {
    if |s| > 0 && s[0] != ':' && s[0] != ';' {
      var c := s[0];
      var st' := st.(quote := if c == '"' then !st.quote else st.quote, cur := st.cur + [c]);
      NameOctet(s, st);
      NameFromFirstSep(s[1..], st');
      assert FirstSep(s) == 1 + FirstSep(s[1..]);
      assert st.cur + [c] + s[1..][..FirstSep(s[1..])] == st.cur + s[..FirstSep(s)];
    } else if |s| > 0 {
      assert s[..0] == [];
      assert st.cur + [] == st.cur;
    }
  }
  // -----------------------------------------------------------------------
  // parseParams, piece by piece
  // -----------------------------------------------------------------------

  /**
   * The pieces parseParams hands to createNode: the text split at every
   * ';' that comes before the first '"' anywhere in it, with an empty
   * final piece left out.
   */
  function SemiPieces(s: string, quote: bool, buf: string): (ts: seq<string>)
    decreases |s|
  {
    if |s| == 0 then (if |buf| == 0 then [] else [buf])
    else
      var q := quote || s[0] == '"';
      if s[0] == ';' && !q then [buf] + SemiPieces(s[1..], q, [])
      else SemiPieces(s[1..], q, buf + [s[0]])
  }

  function Pieces(text: string): seq<string> {
    SemiPieces(text, false, [])
  }

  /** createNode applied to each piece in turn. */
  function CreateNodes(ts: seq<string>): (ps: seq<Param>)
    ensures |ps| == |ts|
  {
    if |ts| == 0 then [] else [CreateNode(ts[0])] + CreateNodes(ts[1..])
  }

  lemma {:induction false} ParamsLoopPieces(s: string, quote: bool, buf: string, multiple: bool, whole: string)
    requires |s| == 0 ==> |buf| == 0
    requires !multiple ==> whole == buf + s
    ensures ParamsLoop(s, quote, buf, multiple, whole) == CreateNodes(SemiPieces(s, quote, buf))
    decreases |s|
  {
    if |s| > 0 {
      var c := s[0];
      var q := quote || c == '"';
      if c == ';' && !q {
        ParamsLoopPieces(s[1..], q, [], true, whole);
        var t := SemiPieces(s[1..], q, []);
        assert ([buf] + t)[1..] == t;
      } else if |s| == 1 {
        assert s[1..] == [];
        assert !multiple ==> whole == buf + [c];
      } else {
        assert buf + [c] + s[1..] == buf + s;
        ParamsLoopPieces(s[1..], q, buf + [c], multiple, whole);
      }
    }
  }

  /**
   * parseParams creates one parameter per piece: the text is split at
   * ';' up to the first '"', and each piece goes to createNode.
   */
  lemma ParseParamsPieces(text: string)
    ensures ParseParams(text) == CreateNodes(Pieces(text))
  {
    ParamsLoopPieces(text, false, [], false, text);
  }

  /** Pieces joined with ';', as a writer would put them. */
  function JoinSemi(ts: seq<string>): string {
    if |ts| == 0 then []
    else if |ts| == 1 then ts[0]
    else ts[0] + ";" + JoinSemi(ts[1..])
  }

  predicate NoSemiQuote(t: string) {
    forall i :: 0 <= i < |t| ==> t[i] != ';' && t[i] != '"'
  }

  lemma {:induction false} CollectPiece(a: string, rest: string, buf: string)
    requires NoSemiQuote(a)
    ensures SemiPieces(a + rest, false, buf) == SemiPieces(rest, false, buf + a)
    decreases |a|
  {
    if |a| == 0 {
      assert a + rest == rest && buf + a == buf;
    } else {
      assert (a + rest)[0] == a[0];
      assert (a + rest)[1..] == a[1..] + rest;
      assert buf + [a[0]] + a[1..] == buf + a;
      CollectPiece(a[1..], rest, buf + [a[0]]);
    }
  }

  /**
   * Pieces free of ';' and '"', the last one not empty, come back out of
   * their ';'-joined text one by one.
   */
  lemma {:induction false} PiecesOfJoin(ts: seq<string>)
    requires forall k :: 0 <= k < |ts| ==> NoSemiQuote(ts[k])
    requires |ts| > 0 ==> |ts[|ts| - 1]| > 0
    ensures Pieces(JoinSemi(ts)) == ts
    decreases |ts|
  {
    if |ts| == 1 {
      CollectPiece(ts[0], [], []);
      assert ts[0] + [] == ts[0] && [] + ts[0] == ts[0];
    } else if |ts| > 1 {
      var j := JoinSemi(ts[1..]);
      assert JoinSemi(ts) == ts[0] + (";" + j);
      CollectPiece(ts[0], ";" + j, []);
      assert [] + ts[0] == ts[0];
      assert (";" + j)[0] == ';' && (";" + j)[1..] == j;
      PiecesOfJoin(ts[1..]);
      assert [ts[0]] + ts[1..] == ts;
    }
  }

  // -----------------------------------------------------------------------
  // parseCalProp, section by section
  // -----------------------------------------------------------------------

  /** Whether a '"' is open after the given octets, starting from quote. */
  function QuoteAfter(s: string, quote: bool): bool
    decreases |s|
  {
    if |s| == 0 then quote else QuoteAfter(s[1..], if s[0] == '"' then !quote else quote)
  }

  /**
   * The parameter section of a line, after the ';' that ends the name:
   * the parameters found, whether an unquoted ':' closed the section, and
   * the value after that ':'.
   */
  datatype Section = Section(params: seq<Param>, closed: bool, value: string)

  /**
   * Segments end at ';' or ':' outside double quotes and each goes to
   * parseParams; ':' closes the section and everything after it is the
   * value, verbatim.  A segment still open at the end of the line is
   * dropped.
   */
  function ParamSection(s: string, quote: bool, cur: string): (sec: Section)
    decreases |s|
  {
    if |s| == 0 then Section([], false, [])
    else
      var q := if s[0] == '"' then !quote else quote;
      if s[0] == ':' && !q then Section(ParseParams(cur), true, s[1..])
      else if s[0] == ';' && !q then
        var t := ParamSection(s[1..], q, []);
        Section(ParseParams(cur) + t.params, t.closed, t.value)
      else ParamSection(s[1..], q, cur + [s[0]])
  }

  /**
   * What parseCalProp makes of a line: the name is the text before the
   * first ':' or ';', upper-cased, and must not be empty.  After ':' the
   * rest of the line is the value and there are no parameters.  After ';'
   * comes the parameter section: parameters that fail validateParams, or
   * a section closed by ':' with no parameter in it, are a SYNTAX error
   * (None); a section never closed leaves the value empty.
   */
  function PropSpec(line: string): Option<Property> {
    var k := FirstSep(line);
    if k == 0 || k == |line| then None
    else if line[k] == ':' then Some(Property(Upper(line[..k]), [], line[k + 1..]))
    else
      var sec := ParamSection(line[k + 1..], QuoteAfter(line[..k], false), []);
      if |sec.params| > 0 then
        if ValidateParams(sec.params) then Some(Property(Upper(line[..k]), sec.params, sec.value)) else None
      else if sec.closed then None
      else Some(Property(Upper(line[..k]), [], sec.value))
  }

  /** After the name, or after the parameters, the rest of the line is the value. */
  lemma {:induction false} PropLoopValue(v: string, st: PropState)
    requires st.name.Some? && (st.onlyVal || st.parsed)
    ensures var r := PropLoop(v, st);
      && r.name == st.name && r.params == st.params && r.parsed == st.parsed
      && ValueOr(r.value) == (if |v| == 0 then ValueOr(st.value) else st.cur + v)
    decreases |v|
  {
    if |v| > 1 {
      var q := if v[0] == '"' then !st.quote else st.quote;
      PropLoopValue(v[1..], st.(quote := q, cur := st.cur + [v[0]]));
      assert st.cur + [v[0]] + v[1..] == st.cur + v;
    } else if |v| == 1 {
      assert v == [v[0]];
    }
  }

  /** Octets of the name are collected, '"' only toggling the quote flag. */
  lemma {:induction false} NameOctets(a: string, rest: string, st: PropState)
    requires |rest| > 0 && forall i :: 0 <= i < |a| ==> a[i] != ':' && a[i] != ';'
    requires st.name.None? && !st.onlyVal && !st.parsed
    ensures PropLoop(a + rest, st) == PropLoop(rest, st.(quote := QuoteAfter(a, st.quote), cur := st.cur + a))
    decreases |a|
  {
    if |a| == 0 {
      assert a + rest == rest && st.cur + a == st.cur;
    } else {
      var q := if a[0] == '"' then !st.quote else st.quote;
      assert (a + rest)[0] == a[0];
      assert (a + rest)[1..] == a[1..] + rest;
      assert st.cur + [a[0]] + a[1..] == st.cur + a;
      NameOctets(a[1..], rest, st.(quote := q, cur := st.cur + [a[0]]));
    }
  }

  /** Up to the first ':' or ';' the loop only collects the name. */
  lemma NamePhase(s: string, st: PropState)
    requires st.name.None? && !st.onlyVal && !st.parsed && st.params == [] && st.value.None?
    requires FirstSep(s) < |s|
    ensures var k := FirstSep(s);
      PropLoop(s, st) == PropLoop(s[k + 1..], PropState(QuoteAfter(s[..k], st.quote), Some(Upper(st.cur + s[..k])), s[k] == ':', false, [], None, []))
  {
    var k := FirstSep(s);
    assert s == s[..k] + s[k..];
    NameOctets(s[..k], s[k..], st);
    assert s[k..][0] == s[k] && s[k..][1..] == s[k + 1..];
  }

  /** Between the name and the value, the loop reads the parameter section. */
  lemma {:induction false} ParamPhase(s: string, st: PropState)
    requires st.name.Some? && !st.onlyVal && !st.parsed && st.value.None?
    ensures var r := PropLoop(s, st);
      var sec := ParamSection(s, st.quote, st.cur);
      r.params == st.params + sec.params && r.parsed == sec.closed && ValueOr(r.value) == sec.value
    decreases |s|
  {
    if |s| == 0 {
      assert st.params + [] == st.params;
    } else {
      var c := s[0];
      var q := if c == '"' then !st.quote else st.quote;
      if (c == ':' || c == ';') && !q {
        var st' := st.(quote := q, parsed := c == ':', params := st.params + ParseParams(st.cur), cur := []);
        if c == ':' {
          PropLoopValue(s[1..], st');
          assert [] + s[1..] == s[1..];
        } else {
          ParamPhase(s[1..], st');
          var t := ParamSection(s[1..], q, []);
          assert st.params + ParseParams(st.cur) + t.params == st.params + (ParseParams(st.cur) + t.params);
        }
      } else {
        ParamPhase(s[1..], st.(quote := q, cur := st.cur + [c]));
      }
    }
  }

  /** parseCalProp reads every line as PropSpec describes. */
  lemma ParseCalPropSpec(line: string)
    ensures ParseCalProp(line) == PropSpec(line)
  {
    var k := FirstSep(line);
    if 0 < k < |line| {
      NamePhase(line, StartState);
      assert [] + line[..k] == line[..k];
      var st1 := PropState(QuoteAfter(line[..k], false), Some(Upper(line[..k])), line[k] == ':', false, [], None, []);
      if line[k] == ':' {
        PropLoopValue(line[k + 1..], st1);
        assert [] + line[k + 1..] == line[k + 1..];
      } else {
        ParamPhase(line[k + 1..], st1);
        assert [] + ParamSection(line[k + 1..], st1.quote, []).params == ParamSection(line[k + 1..], st1.quote, []).params;
      }
    }
  }
  /** Octets that are neither quotes nor separators. */
  predicate SectionPlain(s: string) {
    forall i :: 0 <= i < |s| ==> s[i] != '"' && s[i] != ':' && s[i] != ';'
  }

  lemma {:induction false} FirstSepAfter(a: string, rest: string)
    requires SectionPlain(a) && |rest| > 0 && (rest[0] == ':' || rest[0] == ';')
    ensures FirstSep(a + rest) == |a| && (a + rest)[..|a|] == a && (a + rest)[|a| + 1..] == rest[1..]
    decreases |a|
  {
    if |a| > 0 {
      assert (a + rest)[1..] == a[1..] + rest;
      FirstSepAfter(a[1..], rest);
    }
  }

  lemma {:induction false} QuoteAfterPlain(a: string, quote: bool)
    requires SectionPlain(a)
    ensures QuoteAfter(a, quote) == quote
    decreases |a|
  {
    if |a| > 0 {
      QuoteAfterPlain(a[1..], quote);
    }
  }

  lemma {:induction false} SectionCollect(a: string, rest: string, cur: string)
    requires SectionPlain(a)
    ensures ParamSection(a + rest, false, cur) == ParamSection(rest, false, cur + a)
    decreases |a|
  {
    if |a| == 0 {
      assert a + rest == rest && cur + a == cur;
    } else {
      assert (a + rest)[0] == a[0];
      assert (a + rest)[1..] == a[1..] + rest;
      assert cur + [a[0]] + a[1..] == cur + a;
      SectionCollect(a[1..], rest, cur + [a[0]]);
    }
  }

  /** The line split after a name free of quotes and separators, at its first ';'. */
  lemma AfterName(name: string, rest: string)
    requires |name| > 0 && SectionPlain(name)
    ensures PropSpec(name + ";" + rest)
         == var sec := ParamSection(rest, false, []);
            if |sec.params| > 0 then
              if ValidateParams(sec.params) then Some(Property(Upper(name), sec.params, sec.value)) else None
            else if sec.closed then None
            else Some(Property(Upper(name), [], sec.value))
  {
    assert name + ";" + rest == name + (";" + rest);
    FirstSepAfter(name, ";" + rest);
    assert (";" + rest)[1..] == rest;
    QuoteAfterPlain(name, false);
  }

  /** A parameter segment the line never closes with ':' is dropped, value and all. */
  lemma UnclosedSegmentDropped(name: string, seg: string)
    requires |name| > 0 && SectionPlain(name) && SectionPlain(seg)
    ensures ParseCalProp(name + ";" + seg) == Some(Property(Upper(name), [], ""))
  {
    ParseCalPropSpec(name + ";" + seg);
    AfterName(name, seg);
    SectionCollect(seg, [], []);
    assert seg + [] == seg;
  }

  /** ':' right after the name's ';' closes a section with no parameter: SYNTAX. */
  lemma EmptySectionSyntax(name: string, value: string)
    requires |name| > 0 && SectionPlain(name)
    ensures ParseCalProp(name + ";:" + value) == None
  {
    assert name + ";:" + value == name + ";" + (":" + value);
    ParseCalPropSpec(name + ";" + (":" + value));
    AfterName(name, ":" + value);
    assert (":" + value)[1..] == value;
  }

  /** A parameter with no '=' has an empty name, which validateParams rejects: SYNTAX. */
  lemma NamelessParamSyntax(name: string, seg: string, value: string)
    requires |name| > 0 && SectionPlain(name)
    requires |seg| > 0 && SectionPlain(seg) && forall i :: 0 <= i < |seg| ==> seg[i] != '='
    ensures ParseCalProp(name + ";" + seg + ":" + value) == None
  {
    assert name + ";" + seg + ":" + value == name + ";" + (seg + (":" + value));
    ParseCalPropSpec(name + ";" + (seg + (":" + value)));
    AfterName(name, seg + (":" + value));
    SectionCollect(seg, ":" + value, []);
    assert [] + seg == seg;
    assert (":" + value)[1..] == value;
    ParseParamsPieces(seg);
    CollectPiece(seg, [], []);
    assert seg + [] == seg;
    assert Pieces(seg) == [seg];
    NodeLoopNoName(seg, false, [], []);
  }

  /** Without an unquoted '=' createNode never fixes a name length. */
  lemma {:induction false} NodeLoopNoName(s: string, quote: bool, tok: string, values: seq<string>)
    requires forall i :: 0 <= i < |s| ==> s[i] != '=' && s[i] != '"'
    ensures NodeLoop(s, quote, tok, 0, values).nameSize == 0
    decreases |s|
  {
    if |s| > 1 {
      var q := quote;
      NodeLoopNoName(s[1..], q, [], values + [tok]);
      NodeLoopNoName(s[1..], q, tok + [s[0]], values);
    }
  }
}
