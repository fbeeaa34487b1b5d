/*
 * writeCalComp: the text written for a component, and the line counter
 * it advances.  The BEGIN line is written but not counted; every physical
 * line of a property and the END line are.
 */
module Writer {
  import opened CalTypes
  import opened Folding
  import opened PropText

  function BeginLine(name: string): string {
    "BEGIN:" + name + CRLF
  }

  function EndLine(name: string): string {
    "END:" + name + CRLF
  }

  /** The properties, each folded, in list order. */
  function PropsText(ps: seq<Property>): string {
    if |ps| == 0 then [] else FoldText(PropLine(ps[0])) + PropsText(ps[1..])
  }

  /** How many physical lines the properties take. */
  function PropsLines(ps: seq<Property>): nat {
    if |ps| == 0 then 0 else |FoldSegments(PropLine(ps[0]))| + PropsLines(ps[1..])
  }

  /** A component: BEGIN, its properties, its children in order, END. */
  function CompText(c: Component): string
    decreases c, 1
  {
    BeginLine(c.name) + PropsText(c.props) + ChildrenText(c, 0) + EndLine(c.name)
  }

  /** The text of children i, i+1, ... of c. */
  function ChildrenText(c: Component, i: nat): string
    requires i <= |c.comps|
    decreases c, 0, |c.comps| - i
  {
    if i == |c.comps| then [] else CompText(c.comps[i]) + ChildrenText(c, i + 1)
  }

  /** The lines writeCalComp counts for a component: all but the BEGIN lines. */
  function WrittenLines(c: Component): nat
    decreases c, 1
  {
    PropsLines(c.props) + ChildrenWrittenLines(c, 0) + 1
  }

  function ChildrenWrittenLines(c: Component, i: nat): nat
    requires i <= |c.comps|
    decreases c, 0, |c.comps| - i
  {
    if i == |c.comps| then 0 else WrittenLines(c.comps[i]) + ChildrenWrittenLines(c, i + 1)
  }

  /** What follows parameter k in the text of the parameter list. */
  function ParamsAfter(ps: seq<Param>, k: nat): string
    requires k < |ps|
  {
    if k + 1 < |ps| then ";" + JoinParams(ps[k + 1..]) else []
  }

  lemma JoinParamsStep(ps: seq<Param>, k: nat)
    requires k < |ps|
    ensures JoinParams(ps[k..]) == ParamText(ps[k]) + ParamsAfter(ps, k)
  {
    assert ps[k..][0] == ps[k];
    if k + 1 < |ps| {
      assert ps[k..][1..] == ps[k + 1..];
    }
  }

  lemma JoinCommaStep(vals: seq<string>, y: nat)
    requires y < |vals|
    ensures JoinComma(vals[y..]) == vals[y] + (if y + 1 < |vals| then "," + JoinComma(vals[y + 1..]) else [])
  {
    assert vals[y..][0] == vals[y];
    if y + 1 < |vals| {
      assert vals[y..][1..] == vals[y + 1..];
    }
  }

  /** Appending value y (and its comma) keeps the inner loop's invariant. */
  lemma ValueStep(buffer: string, vals: seq<string>, y: nat, after: string, target: string)
    requires y < |vals|
    requires buffer + JoinComma(vals[y..]) + after == target
    ensures (buffer + vals[y] + (if y != |vals| - 1 then "," else [])) + JoinComma(vals[y + 1..]) + after == target
  {
    JoinCommaStep(vals, y);
    if y + 1 < |vals| {
      Assoc(vals[y], ",", JoinComma(vals[y + 1..]));
      Assoc(buffer, vals[y] + ",", JoinComma(vals[y + 1..]));
      Assoc(buffer, vals[y], ",");
    } else {
      assert vals[y + 1..] == [];
      assert buffer + vals[y] + [] == buffer + vals[y];
      assert vals[y] + [] == vals[y];
    }
  }

  /** Starting parameter k: its name and '=' are written. */
  lemma ParamStart(buffer: string, ps: seq<Param>, k: nat, target: string)
    requires k < |ps|
    requires buffer + JoinParams(ps[k..]) == target
    ensures buffer + ps[k].name + "=" + JoinComma(ps[k].values[0..]) + ParamsAfter(ps, k) == target
  {
    JoinParamsStep(ps, k);
    assert ps[k].values[0..] == ps[k].values;
    Assoc4(buffer, ps[k].name, "=", JoinComma(ps[k].values));
    Assoc(buffer + ps[k].name + "=", JoinComma(ps[k].values), ParamsAfter(ps, k));
    Assoc(buffer, ParamText(ps[k]), ParamsAfter(ps, k));
  }

  /** Ending parameter k: a ';' is written unless it was the last. */
  lemma ParamEnd(buffer: string, ps: seq<Param>, k: nat, target: string)
    requires k < |ps|
    requires buffer + JoinComma(ps[k].values[|ps[k].values|..]) + ParamsAfter(ps, k) == target
    ensures (buffer + (if k != |ps| - 1 then ";" else [])) + JoinParams(ps[k + 1..]) == target
  {
    assert ps[k].values[|ps[k].values|..] == [];
    assert buffer + [] == buffer;
    if k + 1 < |ps| {
      Assoc(buffer, ";", JoinParams(ps[k + 1..]));
    } else {
      assert ps[k + 1..] == [];
      assert buffer + [] + [] == buffer;
    }
  }

  /**
   * The content line writeCalComp assembles for a property: the name, then
   * ';' and each parameter as NAME=v1,v2 separated by ';', then ':' and the
   * value.
   */
  method BuildPropLine(p: Property) returns (buffer: string)
    ensures buffer == PropLine(p)
  {
    buffer := p.name;
    if |p.params| != 0 {
      buffer := buffer + ";";
      ghost var target := p.name + ";" + JoinParams(p.params);
      assert p.params[0..] == p.params;
      var k := 0;
      while k < |p.params|
        invariant 0 <= k <= |p.params|
        invariant buffer + JoinParams(p.params[k..]) == target
      {
        var param := p.params[k];
        ParamStart(buffer, p.params, k, target);
        buffer := buffer + param.name + "=";
        var y := 0;
        while y < |param.values|
          invariant 0 <= y <= |param.values|
          invariant buffer + JoinComma(param.values[y..]) + ParamsAfter(p.params, k) == target
        {
          ValueStep(buffer, param.values, y, ParamsAfter(p.params, k), target);
          buffer := buffer + param.values[y];
          if y != |param.values| - 1 {
            buffer := buffer + ",";
          }
          y := y + 1;
        }
        ParamEnd(buffer, p.params, k, target);
        if k != |p.params| - 1 {
          buffer := buffer + ";";
        }
        k := k + 1;
      }
      PropLineHead(p, buffer, target);
    } else {
      assert buffer == p.name + [];
    }
    buffer := buffer + ":" + p.value;
  }

  /** After the parameter loop, the buffer holds the line up to the ':'. */
  lemma PropLineHead(p: Property, buffer: string, target: string)
    requires |p.params| > 0
    requires target == p.name + ";" + JoinParams(p.params)
    requires buffer + JoinParams(p.params[|p.params|..]) == target
    ensures buffer == p.name + (if |p.params| == 0 then [] else ";" + JoinParams(p.params))
  {
    assert p.params[|p.params|..] == [];
    assert buffer + [] == buffer;
    Assoc(p.name, ";", JoinParams(p.params));
  }

  /** Writing property i keeps the property loop's invariant. */
  lemma PropStep(props: seq<Property>, i: nat, out: string, folded: string)
    requires i < |props|
    requires folded == FoldText(PropLine(props[i]))
    requires out + PropsText(props[i..]) == PropsText(props)
    ensures (out + folded) + PropsText(props[i + 1..]) == PropsText(props)
    ensures PropsLines(props[i..]) == |FoldSegments(PropLine(props[i]))| + PropsLines(props[i + 1..])
  {
    assert props[i..][0] == props[i];
    assert props[i..][1..] == props[i + 1..];
    Assoc(out, folded, PropsText(props[i + 1..]));
  }

  /** The property loop of writeCalComp: build, fold and count each line. */
  method WriteProps(props: seq<Property>, lc: int) returns (out: string, lineCount: int)
    ensures out == PropsText(props)
    ensures lineCount == lc + PropsLines(props)
  {
    out := [];
    lineCount := lc;
    var i := 0;
    assert props[0..] == props;
    while i < |props|
      invariant 0 <= i <= |props|
      invariant out + PropsText(props[i..]) == PropsText(props)
      invariant lineCount + PropsLines(props[i..]) == lc + PropsLines(props)
    {
      var buffer := BuildPropLine(props[i]);
      var folded, lines := FoldLine(buffer);
      PropStep(props, i, out, folded);
      out := out + folded;
      lineCount := lineCount + lines;
      i := i + 1;
    }
    assert props[|props|..] == [];
  }

  /** Writing child j keeps the children loop's invariant. */
  lemma ChildStep(comp: Component, j: nat, out: string, head: string, childOut: string, lineCount: int, childLines: int, total: int)
    requires j < |comp.comps|
    requires childOut == CompText(comp.comps[j]) && childLines == lineCount + WrittenLines(comp.comps[j])
    requires out + ChildrenText(comp, j) == head + ChildrenText(comp, 0)
    requires lineCount + ChildrenWrittenLines(comp, j) == total
    ensures (out + childOut) + ChildrenText(comp, j + 1) == head + ChildrenText(comp, 0)
    ensures childLines + ChildrenWrittenLines(comp, j + 1) == total
  {
    assert ChildrenText(comp, j) == CompText(comp.comps[j]) + ChildrenText(comp, j + 1);
    Assoc(out, childOut, ChildrenText(comp, j + 1));
  }

  /** After the last child, the END line completes the component and its count. */
  lemma WriteEnd(comp: Component, out: string, lc: int, lineCount: int)
    requires out + ChildrenText(comp, |comp.comps|) == BeginLine(comp.name) + PropsText(comp.props) + ChildrenText(comp, 0)
    requires lineCount + ChildrenWrittenLines(comp, |comp.comps|) == lc + PropsLines(comp.props) + ChildrenWrittenLines(comp, 0)
    ensures out + EndLine(comp.name) == CompText(comp)
    ensures lineCount + 1 == lc + WrittenLines(comp)
  {
    assert out + [] == out;
  }

  /**
   * writeCalComp, with the output file as the returned text and the
   * module-level line counter as an argument and in the status.  Errors
   * of nested calls are not looked at, as in the C.
   */
  method WriteCalComp(comp: Component, lc: int) returns (out: string, status: CalStatus)
    ensures out == CompText(comp)
    ensures status == StatusAt(OK, lc + WrittenLines(comp))
    decreases comp
  {
    var propsOut, lineCount := WriteProps(comp.props, lc);
    out := BeginLine(comp.name) + propsOut;
    ghost var head := out;
    ghost var total := lc + PropsLines(comp.props) + ChildrenWrittenLines(comp, 0);
    var j := 0;
    while j < |comp.comps|
      invariant 0 <= j <= |comp.comps|
      invariant out + ChildrenText(comp, j) == head + ChildrenText(comp, 0)
      invariant lineCount + ChildrenWrittenLines(comp, j) == total
    {
      var childOut, childStatus := WriteCalComp(comp.comps[j], lineCount);
      ChildStep(comp, j, out, head, childOut, lineCount, childStatus.lineto, total);
      out := out + childOut;
      lineCount := childStatus.lineto;
      j := j + 1;
    }
    WriteEnd(comp, out, lc, lineCount);
    out := out + EndLine(comp.name);
    lineCount := lineCount + 1;
    status := StatusAt(OK, lineCount);
  }
}
