/** A decoder for the fingerprint's byte stream: the encoding is uniquely decodable. */
module Decoding {
  import opened Common
  import opened BackendIr
  import opened Deltas
  import opened Fnv1a
  import opened Fingerprints

  type Parsed<T> = Option<(T, seq<Byte>)>

  function DecodeWord(b: seq<Byte>): Parsed<Word> {
    if |b| < 8 then None
    else
      FromLittleEndianBound(b[..8]);
      EightBytes();
      Some((FromLittleEndian(b[..8]), b[8..]))
  }

  lemma WordBack(w: Word, rest: seq<Byte>)
    ensures DecodeWord(EncodeWord(w) + rest) == Some((w, rest))
  {
    EightBytes();
    LittleEndianRoundTrip(w, 8);
    assert (EncodeWord(w) + rest)[..8] == EncodeWord(w);
    assert (EncodeWord(w) + rest)[8..] == rest;
  }

  function DecodeBool(b: seq<Byte>): Parsed<bool> {
    if |b| == 0 || b[0] > 1 then None else Some((b[0] == 1, b[1..]))
  }

  function DecodeVarType(b: seq<Byte>): Parsed<VarType> {
    if |b| == 0 || b[0] > 2 then None
    else Some((if b[0] == 0 then Continuous else if b[0] == 1 then Integer else Binary, b[1..]))
  }

  function DecodeSense(b: seq<Byte>): Parsed<Sense> {
    if |b| == 0 || b[0] > 1 then None else Some((if b[0] == 0 then Minimize else Maximize, b[1..]))
  }

  lemma TagsBack(x: bool, t: VarType, s: Sense, rest: seq<Byte>)
    ensures DecodeBool(EncodeBool(x) + rest) == Some((x, rest))
    ensures DecodeVarType([VarTypeTag(t)] + rest) == Some((t, rest))
    ensures DecodeSense([SenseTag(s)] + rest) == Some((s, rest))
  {
    assert (EncodeBool(x) + rest)[1..] == rest;
    assert ([VarTypeTag(t)] + rest)[1..] == rest;
    assert ([SenseTag(s)] + rest)[1..] == rest;
  }

  function DecodeOption(b: seq<Byte>): Parsed<Option<Word>> {
    if |b| == 0 || b[0] > 1 then None
    else if b[0] == 0 then Some((None, b[1..]))
    else
      var w := DecodeWord(b[1..]);
      if w.None? then None else Some((Some(w.value.0), w.value.1))
  }

  lemma OptionBack(o: Option<Word>, rest: seq<Byte>)
    ensures DecodeOption(EncodeOption(o) + rest) == Some((o, rest))
  {
    if o.Some? {
      assert (EncodeOption(o) + rest)[1..] == EncodeWord(o.value) + rest;
      WordBack(o.value, rest);
    } else {
      assert (EncodeOption(o) + rest)[1..] == rest;
    }
  }

  // ---------------------------------------------------------------- coefficient expressions

  function Operator(tag: Byte, l: Expr, r: Expr): Expr
    requires 3 <= tag <= 6
  {
    if tag == 3 then Add(l, r) else if tag == 4 then Sub(l, r) else if tag == 5 then Mul(l, r) else Div(l, r)
  }

  /** A tag says how many expressions follow, so no length is needed. */
  function DecodeExpr(b: seq<Byte>): (r: Parsed<Expr>)
    ensures r.Some? ==> |r.value.1| < |b|
    decreases |b|
  {
    if |b| == 0 then None
    else
      var tag, tail := b[0], b[1..];
      if tag == 1 then
        var w := DecodeWord(tail);
        if w.None? then None else Some((Constant(w.value.0), w.value.1))
      else if tag == 2 then
        var w := DecodeWord(tail);
        if w.None? then None else Some((Param(w.value.0), w.value.1))
      else if 3 <= tag <= 6 then
        var l := DecodeExpr(tail);
        if l.None? then None
        else
          var r := DecodeExpr(l.value.1);
          if r.None? then None else Some((Operator(tag, l.value.0, r.value.0), r.value.1))
      else if tag == 7 then
        var x := DecodeExpr(tail);
        if x.None? then None else Some((Neg(x.value.0), x.value.1))
      else None
  }

  lemma {:induction false} ExprBack(e: Expr, rest: seq<Byte>)
    requires OrdinalsAreWords(e)
    ensures DecodeExpr(EncodeExpr(e) + rest) == Some((e, rest))
    decreases e
  {
    hide EncodeWord, DecodeWord;
    var b := EncodeExpr(e) + rest;
    match e {
      case Constant(x) =>
        assert b[1..] == EncodeWord(x) + rest;
        WordBack(x, rest);
      case Param(p) =>
        assert b[1..] == EncodeWord(p) + rest;
        WordBack(p, rest);
      case Neg(x) =>
        assert b[1..] == EncodeExpr(x) + rest;
        ExprBack(x, rest);
      case _ =>
        assert b[1..] == EncodeExpr(e.left) + (EncodeExpr(e.right) + rest);
        ExprBack(e.left, EncodeExpr(e.right) + rest);
        ExprBack(e.right, rest);
    }
  }

  // ---------------------------------------------------------------- records

  function DecodeVariable(b: seq<Byte>): Parsed<OrdVariable> {
    var lower := DecodeWord(b);
    if lower.None? then None else
    var upper := DecodeWord(lower.value.1);
    if upper.None? then None else
    var varType := DecodeVarType(upper.value.1);
    if varType.None? then None else
    var active := DecodeBool(varType.value.1);
    if active.None? then None else
    var semi := DecodeOption(active.value.1);
    if semi.None? then None else
    var fixing := DecodeOption(semi.value.1);
    if fixing.None? then None else
    Some((OrdVariable(lower.value.0, upper.value.0, varType.value.0, active.value.0, semi.value.0, fixing.value.0),
      fixing.value.1))
  }

  lemma VariableBack(v: OrdVariable, rest: seq<Byte>)
    ensures DecodeVariable(EncodeVariable(v) + rest) == Some((v, rest))
  {
    hide EncodeWord, EncodeBool, EncodeOption, VarTypeTag, DecodeWord, DecodeBool, DecodeOption, DecodeVarType;
    var tail5 := EncodeOption(v.fixing) + rest;
    var tail4 := EncodeOption(v.semicontinuous) + tail5;
    var tail3 := EncodeBool(v.active) + tail4;
    var tail2 := [VarTypeTag(v.varType)] + tail3;
    var tail1 := EncodeWord(v.upper) + tail2;
    assert EncodeVariable(v) + rest == EncodeWord(v.lower) + tail1;
    WordBack(v.lower, tail1);
    WordBack(v.upper, tail2);
    TagsBack(v.active, v.varType, Minimize, tail3);
    TagsBack(v.active, v.varType, Minimize, tail4);
    OptionBack(v.semicontinuous, tail5);
    OptionBack(v.fixing, rest);
  }

  function DecodeConstraint(b: seq<Byte>): Parsed<OrdConstraint> {
    var lower := DecodeWord(b);
    if lower.None? then None else
    var upper := DecodeWord(lower.value.1);
    if upper.None? then None else
    var active := DecodeBool(upper.value.1);
    if active.None? then None else
    Some((OrdConstraint(lower.value.0, upper.value.0, active.value.0), active.value.1))
  }

  lemma ConstraintBack(c: OrdConstraint, rest: seq<Byte>)
    ensures DecodeConstraint(EncodeConstraint(c) + rest) == Some((c, rest))
  {
    hide EncodeWord, EncodeBool, DecodeWord, DecodeBool;
    var tail2 := EncodeBool(c.active) + rest;
    var tail1 := EncodeWord(c.upper) + tail2;
    assert EncodeConstraint(c) + rest == EncodeWord(c.lower) + tail1;
    WordBack(c.lower, tail1);
    WordBack(c.upper, tail2);
    TagsBack(c.active, Continuous, Minimize, rest);
  }

  function DecodeObjective(b: seq<Byte>): Parsed<OrdObjective> {
    var sense := DecodeSense(b);
    if sense.None? then None else
    var active := DecodeBool(sense.value.1);
    if active.None? then None else
    var constant := DecodeWord(active.value.1);
    if constant.None? then None else
    Some((OrdObjective(sense.value.0, active.value.0, constant.value.0), constant.value.1))
  }

  lemma ObjectiveBack(o: OrdObjective, rest: seq<Byte>)
    ensures DecodeObjective(EncodeObjective(o) + rest) == Some((o, rest))
  {
    hide EncodeWord, EncodeBool, SenseTag, DecodeWord, DecodeBool, DecodeSense;
    var tail2 := EncodeWord(o.constant) + rest;
    var tail1 := EncodeBool(o.active) + tail2;
    assert EncodeObjective(o) + rest == [SenseTag(o.sense)] + tail1;
    TagsBack(o.active, Continuous, o.sense, tail1);
    TagsBack(o.active, Continuous, o.sense, tail2);
    WordBack(o.constant, rest);
  }

  function DecodeCell(b: seq<Byte>): Parsed<OrdCell> {
    if |b| == 0 then None else
    var target := DecodeWord(b[1..]);
    if target.None? then None else
    var variable := DecodeWord(target.value.1);
    if variable.None? then None else
    var expr := DecodeExpr(variable.value.1);
    if expr.None? then None else
    Some((OrdCell(b[0], target.value.0, variable.value.0, expr.value.0), expr.value.1))
  }

  lemma CellBack(c: OrdCell, rest: seq<Byte>)
    requires OrdinalsAreWords(c.expr)
    ensures DecodeCell(EncodeCell(c) + rest) == Some((c, rest))
  {
    hide EncodeWord, DecodeWord, EncodeExpr, DecodeExpr, OrdinalsAreWords;
    var tail2 := EncodeExpr(c.expr) + rest;
    var tail1 := EncodeWord(c.variable) + tail2;
    assert EncodeCell(c) + rest == [c.kind] + (EncodeWord(c.target) + tail1);
    assert (EncodeCell(c) + rest)[1..] == EncodeWord(c.target) + tail1;
    WordBack(c.target, tail1);
    WordBack(c.variable, tail2);
    ExprBack(c.expr, rest);
  }

  // ---------------------------------------------------------------- counted lists and sections

  function DecodeAll<T>(n: nat, b: seq<Byte>, decode: seq<Byte> -> Parsed<T>): Parsed<seq<T>> {
    if n == 0 then Some(([], b))
    else
      var first := decode(b);
      if first.None? then None
      else
        var others := DecodeAll(n - 1, first.value.1, decode);
        if others.None? then None else Some(([first.value.0] + others.value.0, others.value.1))
  }

  lemma {:induction false} AllBack<T(!new)>(
      items: seq<T>, encode: T --> seq<Byte>, decode: seq<Byte> -> Parsed<T>, rest: seq<Byte>)
    requires forall i :: 0 <= i < |items| ==> encode.requires(items[i])
    requires forall i, tail :: 0 <= i < |items| ==> decode(encode(items[i]) + tail) == Some((items[i], tail))
    ensures DecodeAll(|items|, EncodeAll(items, encode) + rest, decode) == Some((items, rest))
  {
    if |items| == 0 {
      assert EncodeAll(items, encode) + rest == rest;
      assert items == [];
    } else {
      var tail := EncodeAll(items[1..], encode) + rest;
      assert EncodeAll(items, encode) + rest == encode(items[0]) + tail;
      forall i, t | 0 <= i < |items[1..]|
        ensures decode(encode(items[1..][i]) + t) == Some((items[1..][i], t))
      {
        assert items[1..][i] == items[i + 1];
        assert decode(encode(items[i + 1]) + t) == Some((items[i + 1], t));
      }
      AllBack(items[1..], encode, decode, rest);
      assert decode(encode(items[0]) + tail) == Some((items[0], tail));
      assert [items[0]] + items[1..] == items;
    }
  }

  /** A section: its tag, a count, and that many items. */
  function DecodeSection<T>(tag: Byte, b: seq<Byte>, decode: seq<Byte> -> Parsed<T>): Parsed<seq<T>> {
    if |b| == 0 || b[0] != tag then None
    else
      var count := DecodeWord(b[1..]);
      if count.None? then None else DecodeAll(count.value.0, count.value.1, decode)
  }

  lemma SectionBack<T(!new)>(
      tag: Byte, items: seq<T>, encode: T --> seq<Byte>, decode: seq<Byte> -> Parsed<T>, rest: seq<Byte>)
    requires |items| < WORDS && forall i :: 0 <= i < |items| ==> encode.requires(items[i])
    requires forall i, tail :: 0 <= i < |items| ==> decode(encode(items[i]) + tail) == Some((items[i], tail))
    ensures DecodeSection(tag, [tag] + EncodeWord(|items|) + EncodeAll(items, encode) + rest, decode) ==
        Some((items, rest))
  {
    WordBack(|items|, EncodeAll(items, encode) + rest);
    AllBack(items, encode, decode, rest);
    SkipTag(tag, EncodeWord(|items|), EncodeAll(items, encode), rest);
    hide EncodeWord, DecodeWord, EncodeAll, DecodeAll;
  }

  lemma SkipTag(tag: Byte, a: seq<Byte>, b: seq<Byte>, c: seq<Byte>)
    ensures ([tag] + a + b + c)[0] == tag && ([tag] + a + b + c)[1..] == a + (b + c)
  {
  }

  function DecodeParameters(b: seq<Byte>): Parsed<Word> {
    if |b| == 0 || b[0] != 2 then None else DecodeWord(b[1..])
  }

  function Decode(b: seq<Byte>): Parsed<OrdinalIr> {
    var variables := DecodeSection(1, b, DecodeVariable);
    if variables.None? then None else
    var parameters := DecodeParameters(variables.value.1);
    if parameters.None? then None else
    var constraints := DecodeSection(3, parameters.value.1, DecodeConstraint);
    if constraints.None? then None else
    var objectives := DecodeSection(4, constraints.value.1, DecodeObjective);
    if objectives.None? then None else
    var cells := DecodeSection(5, objectives.value.1, DecodeCell);
    if cells.None? then None else
    Some((OrdinalIr(variables.value.0, parameters.value.0, constraints.value.0, objectives.value.0, cells.value.0),
      cells.value.1))
  }

  lemma VariablesBack(variables: seq<OrdVariable>, rest: seq<Byte>)
    requires |variables| < WORDS
    ensures DecodeSection(1, VariableSection(variables) + rest, DecodeVariable) == Some((variables, rest))
  {
    forall i, tail | 0 <= i < |variables|
      ensures DecodeVariable(EncodeVariable(variables[i]) + tail) == Some((variables[i], tail))
    {
      VariableBack(variables[i], tail);
    }
    hide EncodeVariable, DecodeVariable, DecodeSection, EncodeWord;
    SectionBack(1, variables, EncodeVariable, DecodeVariable, rest);
  }

  lemma ParametersBack(count: Word, rest: seq<Byte>)
    ensures DecodeParameters(ParameterSection(count) + rest) == Some((count, rest))
  {
    hide EncodeWord, DecodeWord;
    assert (ParameterSection(count) + rest)[1..] == EncodeWord(count) + rest;
    WordBack(count, rest);
  }

  lemma ConstraintsBack(constraints: seq<OrdConstraint>, rest: seq<Byte>)
    requires |constraints| < WORDS
    ensures DecodeSection(3, ConstraintSection(constraints) + rest, DecodeConstraint) == Some((constraints, rest))
  {
    forall i, tail | 0 <= i < |constraints|
      ensures DecodeConstraint(EncodeConstraint(constraints[i]) + tail) == Some((constraints[i], tail))
    {
      ConstraintBack(constraints[i], tail);
    }
    hide EncodeConstraint, DecodeConstraint, DecodeSection, EncodeWord;
    SectionBack(3, constraints, EncodeConstraint, DecodeConstraint, rest);
  }

  lemma ObjectivesBack(objectives: seq<OrdObjective>, rest: seq<Byte>)
    requires |objectives| < WORDS
    ensures DecodeSection(4, ObjectiveSection(objectives) + rest, DecodeObjective) == Some((objectives, rest))
  {
    forall i, tail | 0 <= i < |objectives|
      ensures DecodeObjective(EncodeObjective(objectives[i]) + tail) == Some((objectives[i], tail))
    {
      ObjectiveBack(objectives[i], tail);
    }
    hide EncodeObjective, DecodeObjective, DecodeSection, EncodeWord;
    SectionBack(4, objectives, EncodeObjective, DecodeObjective, rest);
  }

  lemma CellsBack(cells: seq<OrdCell>, rest: seq<Byte>)
    requires |cells| < WORDS && forall i :: 0 <= i < |cells| ==> OrdinalsAreWords(cells[i].expr)
    ensures DecodeSection(5, CellSection(cells) + rest, DecodeCell) == Some((cells, rest))
  {
    forall i, tail | 0 <= i < |cells|
      ensures DecodeCell(EncodeCell(cells[i]) + tail) == Some((cells[i], tail))
    {
      CellBack(cells[i], tail);
    }
    hide EncodeCell, DecodeCell, DecodeSection, EncodeWord, OrdinalsAreWords;
    SectionBack(5, cells, EncodeCell, DecodeCell, rest);
  }

  /** The decoder inverts the encoding and leaves whatever follows. */
  lemma DecodeInvertsEncode(ir: OrdinalIr, rest: seq<Byte>)
    requires Writable(ir)
    ensures Decode(Encode(ir) + rest) == Some((ir, rest))
  {
    hide VariableSection, ParameterSection, ConstraintSection, ObjectiveSection, CellSection, DecodeSection,
      DecodeParameters;
    var tail4 := CellSection(ir.cells) + rest;
    var tail3 := ObjectiveSection(ir.objectives) + tail4;
    var tail2 := ConstraintSection(ir.constraints) + tail3;
    var tail1 := ParameterSection(ir.parameters) + tail2;
    assert Encode(ir) + rest == VariableSection(ir.variables) + tail1;
    VariablesBack(ir.variables, tail1);
    ParametersBack(ir.parameters, tail2);
    ConstraintsBack(ir.constraints, tail3);
    ObjectivesBack(ir.objectives, tail4);
    CellsBack(ir.cells, rest);
  }

  /** Equal streams come from equal ordinal forms, and no stream is a proper prefix of another. */
  lemma EncodeIsInjective(a: OrdinalIr, b: OrdinalIr, x: seq<Byte>, y: seq<Byte>)
    requires Writable(a) && Writable(b) && Encode(a) + x == Encode(b) + y
    ensures a == b && x == y
  {
    DecodeInvertsEncode(a, x);
    DecodeInvertsEncode(b, y);
  }
}
