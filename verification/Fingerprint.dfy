/**
 * src/snapshot.rs: the normalized ordinal fingerprint. A snapshot is normalized to ordinals, written as
 * a tagged byte stream, and hashed.
 */
module Fingerprints {
  import opened Common
  import opened BackendIr
  import opened Sorting
  import opened Deltas
  import opened Fnv1a

  /** A coefficient with opaque constants. */
  type Expr = ValueExpr<Word>

  datatype VariableEntry = VariableEntry(
    id: VarId, lower: Word, upper: Word, varType: VarType, active: bool, semicontinuous: Option<Word>,
    fixing: Option<Word>)
  datatype ConstraintEntry = ConstraintEntry(id: ConId, lower: Word, upper: Word, active: bool)
  datatype ObjectiveEntry = ObjectiveEntry(id: ObjId, sense: Sense, active: bool, constant: Word)
  datatype ParameterEntry = ParameterEntry(id: ParamId, value: Word)
  datatype CellEntry = CellEntry(target: Target, variable: VarId, expr: Expr, evaluated: Word)
  datatype ModelSnapshot = ModelSnapshot(
    revision: nat,
    variables: seq<VariableEntry>,
    constraints: seq<ConstraintEntry>,
    objectives: seq<ObjectiveEntry>,
    parameters: seq<ParameterEntry>,
    cells: seq<CellEntry>)

  // ---------------------------------------------------------------- the normalized ordinal form

  datatype OrdVariable = OrdVariable(
    lower: Word, upper: Word, varType: VarType, active: bool, semicontinuous: Option<Word>, fixing: Option<Word>)
  datatype OrdConstraint = OrdConstraint(lower: Word, upper: Word, active: bool)
  datatype OrdObjective = OrdObjective(sense: Sense, active: bool, constant: Word)
  /** A cell by kind and ordinal of its target, ordinal of its variable, and its form over parameter ordinals. */
  datatype OrdCell = OrdCell(kind: Byte, target: Word, variable: Word, expr: Expr)
  datatype OrdinalIr = OrdinalIr(
    variables: seq<OrdVariable>,
    parameters: Word,
    constraints: seq<OrdConstraint>,
    objectives: seq<OrdObjective>,
    cells: seq<OrdCell>)

  /** The last position of an id, or the largest `usize` for an unknown one. */
  function OrdinalOf(ids: seq<nat>, id: nat): Word
    requires |ids| < WORDS
  {
    if |ids| == 0 then USIZE_MAX
    else if ids[|ids| - 1] == id then |ids| - 1
    else OrdinalOf(ids[..|ids| - 1], id)
  }

  function OrdinalExpr(e: Expr, params: seq<nat>): Expr
    requires |params| < WORDS
  {
    match e
    case Constant(_) => e
    case Param(p) => Param(OrdinalOf(params, p))
    case Add(l, r) => Add(OrdinalExpr(l, params), OrdinalExpr(r, params))
    case Sub(l, r) => Sub(OrdinalExpr(l, params), OrdinalExpr(r, params))
    case Mul(l, r) => Mul(OrdinalExpr(l, params), OrdinalExpr(r, params))
    case Div(l, r) => Div(OrdinalExpr(l, params), OrdinalExpr(r, params))
    case Neg(x) => Neg(OrdinalExpr(x, params))
  }

  function VarIds(
      s: ModelSnapshot): seq<nat> { seq(|s.variables|, i requires 0 <= i < |s.variables| => s.variables[i].id) }
  function ConIds(
      s: ModelSnapshot): seq<nat> { seq(|s.constraints|, i requires 0 <= i < |s.constraints| => s.constraints[i].id) }
  function ObjIds(
      s: ModelSnapshot): seq<nat> { seq(|s.objectives|, i requires 0 <= i < |s.objectives| => s.objectives[i].id) }
  function ParamIds(
      s: ModelSnapshot): seq<nat> { seq(|s.parameters|, i requires 0 <= i < |s.parameters| => s.parameters[i].id) }

  /** Vectors of a machine are shorter than its address space. */
  predicate InMemory(s: ModelSnapshot) {
    && |s.variables| < WORDS && |s.constraints| < WORDS && |s.objectives| < WORDS
    && |s.parameters| < WORDS && |s.cells| < WORDS
  }

  /** A cell with its sort key; the coefficient still names parameter ids. */
  function Keyed(c: CellEntry, s: ModelSnapshot): OrdCell
    requires InMemory(s)
  {
    var variable := OrdinalOf(VarIds(s), c.variable);
    match c.target
    case OfConstraint(con) => OrdCell(0, OrdinalOf(ConIds(s), con), variable, c.expr)
    case OfObjective(obj) => OrdCell(1, OrdinalOf(ObjIds(s), obj), variable, c.expr)
  }

  /** The lexicographic order of kind, target ordinal and variable ordinal. */
  function CellOrder(c: OrdCell): nat {
    (c.kind * WORDS + c.target) * WORDS + c.variable
  }

  function KeyedCells(s: ModelSnapshot): (r: seq<OrdCell>)
    requires InMemory(s)
    ensures |r| == |s.cells|
  {
    seq(|s.cells|, i requires 0 <= i < |s.cells| => Keyed(s.cells[i], s))
  }

  function OrdinalCells(cells: seq<OrdCell>, params: seq<nat>): (r: seq<OrdCell>)
    requires |params| < WORDS
    ensures |r| == |cells|
    ensures forall i :: 0 <= i < |cells| ==> r[i] == cells[i].(expr := OrdinalExpr(cells[i].expr, params))
  {
    seq(|cells|, i requires 0 <= i < |cells| => cells[i].(expr := OrdinalExpr(cells[i].expr, params)))
  }

  function OrdinalVariable(v: VariableEntry): OrdVariable {
    OrdVariable(v.lower, v.upper, v.varType, v.active, v.semicontinuous, v.fixing)
  }

  function OrdinalConstraint(c: ConstraintEntry): OrdConstraint {
    OrdConstraint(c.lower, c.upper, c.active)
  }

  function OrdinalObjective(o: ObjectiveEntry): OrdObjective {
    OrdObjective(o.sense, o.active, o.constant)
  }

  function Normalized(s: ModelSnapshot): OrdinalIr
    requires InMemory(s)
  {
    OrdinalIr(
      seq(|s.variables|, i requires 0 <= i < |s.variables| => OrdinalVariable(s.variables[i])),
      |s.parameters|,
      seq(|s.constraints|, i requires 0 <= i < |s.constraints| => OrdinalConstraint(s.constraints[i])),
      seq(|s.objectives|, i requires 0 <= i < |s.objectives| => OrdinalObjective(s.objectives[i])),
      OrdinalCells(StableSort(KeyedCells(s), CellOrder), ParamIds(s)))
  }

  // ---------------------------------------------------------------- the byte stream

  function EncodeWord(w: Word): seq<Byte> { LittleEndian(w, 8) }
  function EncodeBool(b: bool): seq<Byte> { [if b then 1 else 0] }
  function EncodeOption(o: Option<Word>): seq<Byte> { if o.None? then [0] else [1] + EncodeWord(o.value) }
  function VarTypeTag(t: VarType): Byte { match t case Continuous => 0 case Integer => 1 case Binary => 2 }
  function SenseTag(s: Sense): Byte { match s case Minimize => 0 case Maximize => 1 }

  /** Parameter ordinals are written as words; the ordinal form only holds such. */
  predicate OrdinalsAreWords(e: Expr) {
    match e
    case Constant(_) => true
    case Param(p) => p < WORDS
    case Neg(x) => OrdinalsAreWords(x)
    case _ => OrdinalsAreWords(e.left) && OrdinalsAreWords(e.right)
  }

  function EncodeExpr(e: Expr): seq<Byte>
    requires OrdinalsAreWords(e)
  {
    match e
    case Constant(x) => [1] + EncodeWord(x)
    case Param(p) => [2] + EncodeWord(p)
    case Add(l, r) => [3] + (EncodeExpr(l) + EncodeExpr(r))
    case Sub(l, r) => [4] + (EncodeExpr(l) + EncodeExpr(r))
    case Mul(l, r) => [5] + (EncodeExpr(l) + EncodeExpr(r))
    case Div(l, r) => [6] + (EncodeExpr(l) + EncodeExpr(r))
    case Neg(x) => [7] + EncodeExpr(x)
  }

  function EncodeVariable(v: OrdVariable): seq<Byte> {
    EncodeWord(v.lower) + EncodeWord(v.upper) + [VarTypeTag(v.varType)] + EncodeBool(v.active)
    + EncodeOption(v.semicontinuous) + EncodeOption(v.fixing)
  }

  function EncodeConstraint(c: OrdConstraint): seq<Byte> {
    EncodeWord(c.lower) + EncodeWord(c.upper) + EncodeBool(c.active)
  }

  function EncodeObjective(o: OrdObjective): seq<Byte> {
    [SenseTag(o.sense)] + EncodeBool(o.active) + EncodeWord(o.constant)
  }

  function EncodeCell(c: OrdCell): seq<Byte>
    requires OrdinalsAreWords(c.expr)
  {
    [c.kind] + EncodeWord(c.target) + EncodeWord(c.variable) + EncodeExpr(c.expr)
  }

  function EncodeAll<T(!new)>(items: seq<T>, encode: T --> seq<Byte>): seq<Byte>
    requires forall i :: 0 <= i < |items| ==> encode.requires(items[i])
  {
    if |items| == 0 then [] else encode(items[0]) + EncodeAll(items[1..], encode)
  }

  predicate Writable(ir: OrdinalIr) {
    && |ir.variables| < WORDS && |ir.constraints| < WORDS && |ir.objectives| < WORDS && |ir.cells| < WORDS
    && forall i :: 0 <= i < |ir.cells| ==> OrdinalsAreWords(ir.cells[i].expr)
  }

  function VariableSection(variables: seq<OrdVariable>): seq<Byte>
    requires |variables| < WORDS
  {
    [1] + EncodeWord(|variables|) + EncodeAll(variables, EncodeVariable)
  }

  function ParameterSection(count: Word): seq<Byte> {
    [2] + EncodeWord(count)
  }

  function ConstraintSection(constraints: seq<OrdConstraint>): seq<Byte>
    requires |constraints| < WORDS
  {
    [3] + EncodeWord(|constraints|) + EncodeAll(constraints, EncodeConstraint)
  }

  function ObjectiveSection(objectives: seq<OrdObjective>): seq<Byte>
    requires |objectives| < WORDS
  {
    [4] + EncodeWord(|objectives|) + EncodeAll(objectives, EncodeObjective)
  }

  function CellSection(cells: seq<OrdCell>): seq<Byte>
    requires |cells| < WORDS && forall i :: 0 <= i < |cells| ==> OrdinalsAreWords(cells[i].expr)
  {
    [5] + EncodeWord(|cells|) + EncodeAll(cells, EncodeCell)
  }

  /** The stream: five tagged, counted sections. */
  function Encode(ir: OrdinalIr): seq<Byte>
    requires Writable(ir)
  {
    VariableSection(ir.variables) + ParameterSection(ir.parameters) + ConstraintSection(ir.constraints)
    + ObjectiveSection(ir.objectives) + CellSection(ir.cells)
  }

  lemma {:induction false} OrdinalExprIsWords(e: Expr, params: seq<nat>)
    requires |params| < WORDS
    ensures OrdinalsAreWords(OrdinalExpr(e, params))
  {
    match e {
      case Constant(_) =>
      case Param(_) =>
      case Neg(x) => OrdinalExprIsWords(x, params);
      case _ =>
        OrdinalExprIsWords(e.left, params);
        OrdinalExprIsWords(e.right, params);
    }
  }

  lemma NormalizedIsWritable(s: ModelSnapshot)
    requires InMemory(s)
    ensures Writable(Normalized(s))
  {
    var sorted := StableSort(KeyedCells(s), CellOrder);
    StableSortLength(KeyedCells(s), CellOrder);
    forall i | 0 <= i < |sorted|
      ensures OrdinalsAreWords(Normalized(s).cells[i].expr)
    {
      OrdinalExprIsWords(sorted[i].expr, ParamIds(s));
    }
  }

  function Fingerprint(s: ModelSnapshot): Word
    requires InMemory(s)
  {
    NormalizedIsWritable(s);
    Hash(Encode(Normalized(s)))
  }

  // ---------------------------------------------------------------- the streaming computation

  lemma {:induction false} EncodeAllSnoc<T(!new)>(items: seq<T>, last: T, encode: T --> seq<Byte>)
    requires forall i :: 0 <= i < |items| ==> encode.requires(items[i])
    requires encode.requires(last)
    ensures forall i :: 0 <= i < |items| + 1 ==> encode.requires((items + [last])[i])
    ensures EncodeAll(items + [last], encode) == EncodeAll(items, encode) + encode(last)
  {
    assert forall i :: 0 <= i < |items| + 1 ==> encode.requires((items + [last])[i]);
    if |items| == 0 {
      assert items + [last] == [last] && [last][1..] == [];
    } else {
      assert (items + [last])[1..] == items[1..] + [last];
      EncodeAllSnoc(items[1..], last, encode);
    }
  }

  lemma EncodeAllEmpty<T(!new)>(encode: T --> seq<Byte>)
    ensures EncodeAll<T>([], encode) == []
  {
  }

  /** `HashMap` of ids to positions, as collected from the enumerated vector. */
  method Ordinals(ids: seq<nat>) returns (ord: map<nat, nat>)
    requires |ids| < WORDS
    ensures IsOrdinalMap(ord, ids)
  {
    ord := map[];
    for i := 0 to |ids|
      invariant IsOrdinalMap(ord, ids[..i])
    {
      assert ids[..i + 1][..i] == ids[..i];
      ord := ord[ids[i] := i];
    }
    assert ids[..|ids|] == ids;
  }

  ghost predicate IsOrdinalMap(ord: map<nat, nat>, ids: seq<nat>)
    requires |ids| < WORDS
  {
    forall id :: OrdinalOf(ids, id) == Lookup(ord, id)
  }

  function Lookup(ord: map<nat, nat>, id: nat): nat {
    if id in ord then ord[id] else USIZE_MAX
  }

  method PutOption(h: Fnv, o: Option<Word>)
    requires h.Valid()
    modifies h
    ensures h.Valid() && h.stream == old(h.stream) + EncodeOption(o)
  {
    match o {
      case None => h.PutByte(0);
      case Some(w) => h.PutByte(1); h.PutWord(w);
    }
  }

  method PutBool(h: Fnv, b: bool)
    requires h.Valid()
    modifies h
    ensures h.Valid() && h.stream == old(h.stream) + EncodeBool(b)
  {
    h.PutByte(if b then 1 else 0);
  }

  function Size(e: Expr): nat {
    match e
    case Constant(_) => 1
    case Param(_) => 1
    case Neg(x) => 1 + Size(x)
    case _ => 1 + Size(e.left) + Size(e.right)
  }

  function ExprTag(e: Expr): Byte {
    match e
    case Constant(_) => 1
    case Param(_) => 2
    case Add(_, _) => 3
    case Sub(_, _) => 4
    case Mul(_, _) => 5
    case Div(_, _) => 6
    case Neg(_) => 7
  }

  function Encoded(e: Expr, params: seq<nat>): seq<Byte>
    requires |params| < WORDS
  {
    OrdinalExprIsWords(e, params);
    EncodeExpr(OrdinalExpr(e, params))
  }

  function Operands(e: Expr, params: seq<nat>): seq<Byte>
    requires |params| < WORDS
  {
    match e
    case Constant(x) => EncodeWord(x)
    case Param(p) => EncodeWord(OrdinalOf(params, p))
    case Neg(x) => Encoded(x, params)
    case _ => Encoded(e.left, params) + Encoded(e.right, params)
  }

  lemma EncodedIsTagged(e: Expr, params: seq<nat>)
    requires |params| < WORDS
    ensures Encoded(e, params) == [ExprTag(e)] + Operands(e, params)
  {
  }

  lemma Appended(a: seq<Byte>, b: seq<Byte>, c: seq<Byte>)
    ensures a + b + c == a + (b + c)
  {
  }

  /** `Fnv::value_expr`: a tag, then the operands. */
  method PutExpr(h: Fnv, e: Expr, ord: map<nat, nat>, ghost params: seq<nat>)
    requires h.Valid() && |params| < WORDS && IsOrdinalMap(ord, params)
    modifies h
    ensures h.Valid() && h.stream == old(h.stream) + Encoded(e, params)
    decreases Size(e), 1
  {
    EncodedIsTagged(e, params);
    Appended(h.stream, [ExprTag(e)], Operands(e, params));
    hide IsOrdinalMap, Hash, HashFrom, Encoded, Operands, ExprTag, Size;
    h.PutByte(ExprTag(e));
    PutOperands(h, e, ord, params);
  }

  method PutOperands(h: Fnv, e: Expr, ord: map<nat, nat>, ghost params: seq<nat>)
    requires h.Valid() && |params| < WORDS && IsOrdinalMap(ord, params)
    modifies h
    ensures h.Valid() && h.stream == old(h.stream) + Operands(e, params)
    decreases Size(e), 0
  {
    hide IsOrdinalMap, Hash, HashFrom, Encoded, EncodeWord;
    match e {
      case Constant(x) => PutWordOf(h, x);
      case Param(p) => LookupIsOrdinal(ord, params, p); PutWordOf(h, Lookup(ord, p));
      case Neg(x) => PutExpr(h, x, ord, params);
      case _ =>
        PutExpr(h, e.left, ord, params);
        PutExpr(h, e.right, ord, params);
    }
  }

  method PutWordOf(h: Fnv, w: Word)
    requires h.Valid()
    modifies h
    ensures h.Valid() && h.stream == old(h.stream) + EncodeWord(w)
  {
    h.PutWord(w);
  }

  lemma LookupIsOrdinal(ord: map<nat, nat>, ids: seq<nat>, id: nat)
    requires |ids| < WORDS && IsOrdinalMap(ord, ids)
    ensures Lookup(ord, id) == OrdinalOf(ids, id)
  {
  }

  method PutVariable(h: Fnv, v: VariableEntry)
    requires h.Valid()
    modifies h
    ensures h.Valid() && h.stream == old(h.stream) + EncodeVariable(OrdinalVariable(v))
  {
    hide Hash, HashFrom, LittleEndian, EncodeOption, EncodeBool;
    h.PutWord(v.lower);
    h.PutWord(v.upper);
    h.PutByte(VarTypeTag(v.varType));
    PutBool(h, v.active);
    PutOption(h, v.semicontinuous);
    PutOption(h, v.fixing);
  }

  method PutVariables(h: Fnv, variables: seq<VariableEntry>, ghost ordinal: seq<OrdVariable>)
    requires h.Valid() && |ordinal| == |variables|
    requires forall i :: 0 <= i < |variables| ==> ordinal[i] == OrdinalVariable(variables[i])
    modifies h
    ensures h.Valid() && h.stream == old(h.stream) + EncodeAll(ordinal, EncodeVariable)
  {
    hide Hash, HashFrom, EncodeVariable, OrdinalVariable;
    for i := 0 to |variables|
      invariant h.Valid() && h.stream == old(h.stream) + EncodeAll(ordinal[..i], EncodeVariable)
    {
      PutVariable(h, variables[i]);
      EncodeAllSnoc(ordinal[..i], ordinal[i], EncodeVariable);
      assert ordinal[..i] + [ordinal[i]] == ordinal[..i + 1];
    }
    assert ordinal[..|variables|] == ordinal;
  }

  method PutConstraints(h: Fnv, constraints: seq<ConstraintEntry>, ghost ordinal: seq<OrdConstraint>)
    requires h.Valid() && |ordinal| == |constraints|
    requires forall i :: 0 <= i < |constraints| ==> ordinal[i] == OrdinalConstraint(constraints[i])
    modifies h
    ensures h.Valid() && h.stream == old(h.stream) + EncodeAll(ordinal, EncodeConstraint)
  {
    hide Hash, HashFrom, EncodeConstraint, OrdinalConstraint;
    for i := 0 to |constraints|
      invariant h.Valid() && h.stream == old(h.stream) + EncodeAll(ordinal[..i], EncodeConstraint)
    {
      PutConstraint(h, constraints[i]);
      EncodeAllSnoc(ordinal[..i], ordinal[i], EncodeConstraint);
      assert ordinal[..i] + [ordinal[i]] == ordinal[..i + 1];
    }
    assert ordinal[..|constraints|] == ordinal;
  }

  method PutConstraint(h: Fnv, c: ConstraintEntry)
    requires h.Valid()
    modifies h
    ensures h.Valid() && h.stream == old(h.stream) + EncodeConstraint(OrdinalConstraint(c))
  {
    hide Hash, HashFrom, LittleEndian, EncodeBool;
    h.PutWord(c.lower);
    h.PutWord(c.upper);
    PutBool(h, c.active);
  }

  method PutObjective(h: Fnv, o: ObjectiveEntry)
    requires h.Valid()
    modifies h
    ensures h.Valid() && h.stream == old(h.stream) + EncodeObjective(OrdinalObjective(o))
  {
    hide Hash, HashFrom, LittleEndian, EncodeBool;
    h.PutByte(SenseTag(o.sense));
    PutBool(h, o.active);
    h.PutWord(o.constant);
  }

  method PutObjectives(h: Fnv, objectives: seq<ObjectiveEntry>, ghost ordinal: seq<OrdObjective>)
    requires h.Valid() && |ordinal| == |objectives|
    requires forall i :: 0 <= i < |objectives| ==> ordinal[i] == OrdinalObjective(objectives[i])
    modifies h
    ensures h.Valid() && h.stream == old(h.stream) + EncodeAll(ordinal, EncodeObjective)
  {
    hide Hash, HashFrom, EncodeObjective, OrdinalObjective;
    for i := 0 to |objectives|
      invariant h.Valid() && h.stream == old(h.stream) + EncodeAll(ordinal[..i], EncodeObjective)
    {
      PutObjective(h, objectives[i]);
      EncodeAllSnoc(ordinal[..i], ordinal[i], EncodeObjective);
      assert ordinal[..i] + [ordinal[i]] == ordinal[..i + 1];
    }
    assert ordinal[..|objectives|] == ordinal;
  }

  ghost predicate AllWritable(cells: seq<OrdCell>) {
    forall i :: 0 <= i < |cells| ==> OrdinalsAreWords(cells[i].expr)
  }

  lemma CellStream(c: OrdCell, params: seq<nat>)
    requires |params| < WORDS
    ensures OrdinalsAreWords(OrdinalExpr(c.expr, params))
    ensures EncodeCell(c.(expr := OrdinalExpr(c.expr, params)))
      == [c.kind] + EncodeWord(c.target) + EncodeWord(c.variable) + Encoded(c.expr, params)
  {
    hide EncodeWord, EncodeExpr, OrdinalExpr, OrdinalsAreWords;
    OrdinalExprIsWords(c.expr, params);
  }

  method PutCell(h: Fnv, c: OrdCell, ord: map<nat, nat>, ghost params: seq<nat>)
    requires h.Valid() && |params| < WORDS && IsOrdinalMap(ord, params)
    modifies h
    ensures h.Valid() && OrdinalsAreWords(OrdinalExpr(c.expr, params))
    ensures h.stream == old(h.stream) + EncodeCell(c.(expr := OrdinalExpr(c.expr, params)))
  {
    hide Hash, HashFrom, LittleEndian, EncodeExpr, OrdinalExpr, OrdinalsAreWords, IsOrdinalMap, EncodeCell, Encoded;
    OrdinalExprIsWords(c.expr, params);
    CellStream(c, params);
    ghost var before := h.stream;
    h.PutByte(c.kind);
    h.PutWord(c.target);
    h.PutWord(c.variable);
    PutExpr(h, c.expr, ord, params);
    FourParts(before, [c.kind], EncodeWord(c.target), EncodeWord(c.variable), Encoded(c.expr, params));
  }

  lemma FourParts(before: seq<Byte>, a: seq<Byte>, b: seq<Byte>, c: seq<Byte>, d: seq<Byte>)
    ensures before + a + b + c + d == before + (a + b + c + d)
  {
  }

  method PutCells(h: Fnv, cells: seq<OrdCell>, ord: map<nat, nat>, ghost params: seq<nat>)
    requires h.Valid() && |params| < WORDS && IsOrdinalMap(ord, params)
    modifies h
    ensures h.Valid() && AllWritable(OrdinalCells(cells, params))
    ensures h.stream == old(h.stream) + EncodeAll(OrdinalCells(cells, params), EncodeCell)
  {
    ghost var ordinal := OrdinalCells(cells, params);
    forall i | 0 <= i < |cells|
      ensures OrdinalsAreWords(ordinal[i].expr)
    {
      OrdinalExprIsWords(cells[i].expr, params);
    }
    hide IsOrdinalMap, Hash, HashFrom, EncodeCell, OrdinalExpr, EncodeAll, OrdinalsAreWords;
    EncodeAllEmpty<OrdCell>(EncodeCell);
    ghost var before := h.stream;
    for i := 0 to |cells|
      invariant h.Valid() && h.stream == before + EncodeAll(ordinal[..i], EncodeCell)
    {
      PutCell(h, cells[i], ord, params);
      EncodeAllSnoc(ordinal[..i], ordinal[i], EncodeCell);
      TakeNext([], ordinal, i);
      Appended(before, EncodeAll(ordinal[..i], EncodeCell), EncodeCell(ordinal[i]));
    }
    assert ordinal[..|cells|] == ordinal;
  }

  /** Every cell with its kind and ordinals, looked up in the collected maps. */
  method KeyCells(s: ModelSnapshot, vars: map<nat, nat>, cons: map<nat, nat>, objs: map<nat, nat>)
    returns (keyed: seq<OrdCell>)
    requires InMemory(s)
    requires IsOrdinalMap(vars, VarIds(s)) && IsOrdinalMap(cons, ConIds(s)) && IsOrdinalMap(objs, ObjIds(s))
    ensures keyed == KeyedCells(s)
  {
    keyed := [];
    for i := 0 to |s.cells|
      invariant keyed == KeyedCells(s)[..i]
    {
      var c := s.cells[i];
      LookupIsOrdinal(vars, VarIds(s), c.variable);
      match c.target {
        case OfConstraint(con) =>
          LookupIsOrdinal(cons, ConIds(s), con);
          keyed := keyed + [OrdCell(0, Lookup(cons, con), Lookup(vars, c.variable), c.expr)];
        case OfObjective(obj) =>
          LookupIsOrdinal(objs, ObjIds(s), obj);
          keyed := keyed + [OrdCell(1, Lookup(objs, obj), Lookup(vars, c.variable), c.expr)];
      }
    }
  }

  lemma NormalizedParts(s: ModelSnapshot)
    requires InMemory(s)
    ensures
      var ir := Normalized(s);
      && |ir.variables| == |s.variables| && |ir.constraints| == |s.constraints| && |ir.objectives| == |s.objectives|
      && (forall i :: 0 <= i < |s.variables| ==> ir.variables[i] == OrdinalVariable(s.variables[i]))
      && (forall i :: 0 <= i < |s.constraints| ==> ir.constraints[i] == OrdinalConstraint(s.constraints[i]))
      && (forall i :: 0 <= i < |s.objectives| ==> ir.objectives[i] == OrdinalObjective(s.objectives[i]))
      && ir.parameters == |s.parameters| && |ParamIds(s)| < WORDS
      && ir.cells == OrdinalCells(StableSort(KeyedCells(s), CellOrder), ParamIds(s))
      && |StableSort(KeyedCells(s), CellOrder)| < WORDS
    ensures Writable(Normalized(s))
  {
    StableSortLength(KeyedCells(s), CellOrder);
    NormalizedIsWritable(s);
  }

  /** The four entity sections. */
  method HashEntities(h: Fnv, s: ModelSnapshot, ghost ir: OrdinalIr)
    requires h.Valid() && h.stream == [] && InMemory(s) && Writable(ir)
    requires |ir.variables| == |s.variables| && |ir.constraints| == |s.constraints| && |ir.objectives| == |s.objectives|
    requires forall i :: 0 <= i < |s.variables| ==> ir.variables[i] == OrdinalVariable(s.variables[i])
    requires forall i :: 0 <= i < |s.constraints| ==> ir.constraints[i] == OrdinalConstraint(s.constraints[i])
    requires forall i :: 0 <= i < |s.objectives| ==> ir.objectives[i] == OrdinalObjective(s.objectives[i])
    requires ir.parameters == |s.parameters|
    modifies h
    ensures h.Valid()
    ensures h.stream == VariableSection(ir.variables) + ParameterSection(ir.parameters)
      + ConstraintSection(ir.constraints) + ObjectiveSection(ir.objectives)
  {
    hide Hash, HashFrom, VariableSection, ParameterSection, ConstraintSection, ObjectiveSection;
    HashVariables(h, s.variables, ir.variables);
    assert h.stream == VariableSection(ir.variables);
    HashParameters(h, |s.parameters|);
    HashConstraints(h, s.constraints, ir.constraints);
    HashObjectives(h, s.objectives, ir.objectives);
  }

  /** `normalized_ordinal_fingerprint`: the hash of exactly the canonical stream. */
  method NormalizedOrdinalFingerprint(s: ModelSnapshot) returns (w: Word)
    requires InMemory(s)
    ensures w == Fingerprint(s)
  {
    NormalizedParts(s);
    var params := Ordinals(ParamIds(s));
    var vars := Ordinals(VarIds(s));
    var cons := Ordinals(ConIds(s));
    var objs := Ordinals(ObjIds(s));
    var keyed := KeyCells(s, vars, cons, objs);
    var cells := StableSort(keyed, CellOrder);
    hide IsOrdinalMap, HashFrom, KeyedCells, CellOrder, Normalized, StableSort, ParamIds, OrdinalCells, CellSection;
    hide VariableSection, ParameterSection, ConstraintSection, ObjectiveSection;
    var h := new Fnv();
    HashEntities(h, s, Normalized(s));
    HashCells(h, cells, params, ParamIds(s));
    return h.hash;
  }

  method HashVariables(h: Fnv, variables: seq<VariableEntry>, ghost ordinal: seq<OrdVariable>)
    requires h.Valid() && |ordinal| == |variables| < WORDS
    requires forall i :: 0 <= i < |variables| ==> ordinal[i] == OrdinalVariable(variables[i])
    modifies h
    ensures h.Valid() && h.stream == old(h.stream) + VariableSection(ordinal)
  {
    hide HashFrom, LittleEndian, EncodeAll;
    h.PutByte(1);
    h.PutWord(|variables|);
    PutVariables(h, variables, ordinal);
  }

  method HashParameters(h: Fnv, count: Word)
    requires h.Valid()
    modifies h
    ensures h.Valid() && h.stream == old(h.stream) + ParameterSection(count)
  {
    hide HashFrom, LittleEndian;
    h.PutByte(2);
    h.PutWord(count);
  }

  method HashConstraints(h: Fnv, constraints: seq<ConstraintEntry>, ghost ordinal: seq<OrdConstraint>)
    requires h.Valid() && |ordinal| == |constraints| < WORDS
    requires forall i :: 0 <= i < |constraints| ==> ordinal[i] == OrdinalConstraint(constraints[i])
    modifies h
    ensures h.Valid() && h.stream == old(h.stream) + ConstraintSection(ordinal)
  {
    hide HashFrom, LittleEndian, EncodeAll;
    h.PutByte(3);
    h.PutWord(|constraints|);
    PutConstraints(h, constraints, ordinal);
  }

  method HashObjectives(h: Fnv, objectives: seq<ObjectiveEntry>, ghost ordinal: seq<OrdObjective>)
    requires h.Valid() && |ordinal| == |objectives| < WORDS
    requires forall i :: 0 <= i < |objectives| ==> ordinal[i] == OrdinalObjective(objectives[i])
    modifies h
    ensures h.Valid() && h.stream == old(h.stream) + ObjectiveSection(ordinal)
  {
    hide HashFrom, LittleEndian, EncodeAll;
    h.PutByte(4);
    h.PutWord(|objectives|);
    PutObjectives(h, objectives, ordinal);
  }

  method HashCells(h: Fnv, cells: seq<OrdCell>, ord: map<nat, nat>, ghost params: seq<nat>)
    requires h.Valid() && |params| < WORDS && |cells| < WORDS && IsOrdinalMap(ord, params)
    modifies h
    ensures h.Valid() && AllWritable(OrdinalCells(cells, params))
    ensures h.stream == old(h.stream) + CellSection(OrdinalCells(cells, params))
  {
    hide HashFrom, LittleEndian, EncodeAll, IsOrdinalMap;
    h.PutByte(5);
    h.PutWord(|cells|);
    PutCells(h, cells, ord, params);
  }
}
