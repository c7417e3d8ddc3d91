/**
 * roml-python/src/namespace.rs: generated element names `base[index]`, and the lazy namespace that answers for
 * them without storing them.
 */
module Namespaces {
  import opened Common

  const USIZES: nat := 0x1_0000_0000_0000_0000

  // ---------------------------------------------------------------- canonical decimals

  predicate IsDigit(c: char) { '0' <= c <= '9' }

  function Digit(d: nat): char
    requires d < 10
  {
    (('0' as int) + d) as char
  }

  function DigitValue(c: char): nat
    requires IsDigit(c)
  {
    c as int - '0' as int
  }

  function Decimal(n: nat): string {
    if n < 10 then [Digit(n)] else Decimal(n / 10) + [Digit(n % 10)]
  }

  predicate AllDigits(s: string) {
    forall i :: 0 <= i < |s| ==> IsDigit(s[i])
  }

  function Value(s: string): nat
    requires AllDigits(s)
  {
    if |s| == 0 then 0 else Value(s[..|s| - 1]) * 10 + DigitValue(s[|s| - 1])
  }

  /** Nonempty digits without a leading zero, except zero itself. */
  predicate Canonical(s: string) {
    |s| != 0 && AllDigits(s) && (|s| > 1 ==> s[0] != '0')
  }

  lemma {:induction false} DecimalIsCanonical(n: nat)
    ensures Canonical(Decimal(n)) && Value(Decimal(n)) == n && (n != 0 ==> Decimal(n)[0] != '0')
  {
    if n >= 10 {
      DecimalIsCanonical(n / 10);
      var front := Decimal(n / 10);
      assert Decimal(n)[..|front|] == front && Decimal(n)[0] == front[0];
    } else {
      assert [Digit(n)][..0] == [];
    }
  }

  lemma {:induction false} CanonicalIsPositive(s: string)
    requires AllDigits(s) && |s| != 0 && s[0] != '0'
    ensures Value(s) > 0
  {
    var k := |s| - 1;
    if k != 0 {
      CanonicalIsPositive(s[..k]);
    } else {
      assert s[..0] == [];
    }
  }

  /** There is one canonical spelling per number. */
  lemma {:induction false} CanonicalIsDecimal(s: string)
    requires Canonical(s)
    ensures Decimal(Value(s)) == s
  {
    var k := |s| - 1;
    if k == 0 {
      assert s[..0] == [];
      assert Value(s) == DigitValue(s[0]);
      assert s == [s[0]];
    } else {
      CanonicalIsPositive(s[..k]);
      CanonicalIsDecimal(s[..k]);
      assert Value(s) / 10 == Value(s[..k]) && Value(s) % 10 == DigitValue(s[k]);
      assert s == s[..k] + [s[k]];
    }
  }

  // ---------------------------------------------------------------- the generated-name codec

  /** `element_name`. */
  function ElementName(base: string, index: nat): string {
    base + "[" + Decimal(index) + "]"
  }

  /** `rposition`: the last occurrence of a character. */
  function LastIndexOf(s: string, c: char): (r: Option<nat>)
    ensures r.Some? ==> r.value < |s| && s[r.value] == c && forall i :: r.value < i < |s| ==> s[i] != c
    ensures r.None? ==> c !in s
  {
    if |s| == 0 then None
    else if s[|s| - 1] == c then Some(|s| - 1)
    else LastIndexOf(s[..|s| - 1], c)
  }

  /** `split_generated`: the base and the index of a generated spelling; everything else is an ordinary name. */
  function SplitGenerated(name: string): Option<(string, nat)> {
    if |name| == 0 || name[|name| - 1] != ']' then None
    else
      var open := LastIndexOf(name, '[');
      if open.None? then None
      else
        var digits := name[open.value + 1..|name| - 1];
        if |digits| == 0 || !AllDigits(digits) then None
        else if |digits| > 1 && digits[0] == '0' then None
        else if Value(digits) >= USIZES then None
        else Some((name[..open.value], Value(digits)))
  }

  /** The spelling itself: decimal digits, most significant first, in square brackets after the base. */
  lemma Spelling(base: string)
    ensures ElementName(base, 0) == base + "[0]"
    ensures ElementName(base, 12) == base + "[12]"
    ensures ElementName(base, 907) == base + "[907]"
  {
    assert Decimal(12) == Decimal(1) + "2";
    assert Decimal(907) == Decimal(90) + "7" && Decimal(90) == Decimal(9) + "0";
    assert base + "[" + "12" + "]" == base + "[12]";
    assert base + "[" + "0" + "]" == base + "[0]";
    assert base + "[" + "907" + "]" == base + "[907]";
  }

  /** Every generated spelling splits into what generated it. */
  lemma SplitInvertsElementName(base: string, index: nat)
    ensures SplitGenerated(ElementName(base, index)) == if index < USIZES then Some((base, index)) else None
  {
    var name, digits := ElementName(base, index), Decimal(index);
    DecimalIsCanonical(index);
    assert name[|base|] == '[' && name[|name| - 1] == ']';
    assert name[|base| + 1..|name| - 1] == digits;
    forall i | |base| < i < |name|
      ensures name[i] != '['
    {
      if i < |name| - 1 { assert name[i] == digits[i - |base| - 1]; }
    }
    var open := LastIndexOf(name, '[');
    assert open == Some(|base|);
    assert name[..|base|] == base;
  }

  /** Nothing but a generated spelling splits. */
  lemma ElementNameInvertsSplit(name: string)
    ensures SplitGenerated(name).Some? ==>
      var (base, index) := SplitGenerated(name).value;
      index < USIZES && name == ElementName(base, index)
  {
    if SplitGenerated(name).Some? {
      var open := LastIndexOf(name, '[').value;
      var digits := name[open + 1..|name| - 1];
      CanonicalIsDecimal(digits);
      assert name == name[..open] + "[" + digits + "]";
    }
  }

  // ---------------------------------------------------------------- the lazy namespace

  /** The shared namespace of variables, parameters and arrays. */
  datatype Names = Names(
    vars: set<string>,
    params: set<string>,
    arrays: set<string>,
    /** Variable arrays reserve `base[0]` to `base[len - 1]` without storing those names. */
    lens: map<string, nat>,
    /** Occupied generated-looking explicit names, by base. */
    indices: map<string, set<nat>>)
  {
    function Explicit(): set<string> { vars + params + arrays }

    /** `implicit_var_element`. */
    predicate Implicit(name: string) {
      var split := SplitGenerated(name);
      split.Some? && split.value.0 in lens && split.value.1 < lens[split.value.0]
    }

    /** `explicit_name_conflicts`. */
    predicate Conflicts(name: string) {
      name in Explicit() || Implicit(name)
    }

    ghost predicate IsElement(base: string, i: nat) {
      base in lens && i < lens[base]
    }

    /** The expanded namespace: every explicit name and every element of every reservation. */
    ghost predicate Occupied(name: string) {
      name in Explicit() || exists base, i: nat :: IsElement(base, i) && name == ElementName(base, i)
    }

    /** No element of a prospective array is occupied. */
    ghost predicate Free(base: string, len: nat) {
      forall i: nat :: i < len ==> !Occupied(ElementName(base, i))
    }

    predicate HasIndex(base: string, i: nat) {
      base in indices && i in indices[base]
    }

    /** The reverse index holds exactly the explicit names that look generated. */
    ghost predicate Indexed() {
      && (forall base, i: nat :: i < USIZES ==> (ElementName(base, i) in Explicit() <==> HasIndex(base, i)))
      && (forall base, i: nat :: HasIndex(base, i) ==> i < USIZES)
    }

    /** Explicit names have one role each, and none of them is an element of a reservation. */
    ghost predicate Apart() {
      && vars !! params && vars !! arrays && params !! arrays
      && forall name :: name in Explicit() ==> !Implicit(name)
    }

    ghost predicate Valid() {
      && Apart() && Indexed() && lens.Keys <= arrays
      && forall base :: base in lens ==> lens[base] < USIZES
    }
  }

  /** The structural test answers for the expanded namespace. */
  lemma ConflictsAreOccupied(n: Names, name: string)
    requires n.Valid()
    ensures n.Conflicts(name) <==> n.Occupied(name)
  {
    if n.Implicit(name) {
      ElementNameInvertsSplit(name);
      var (base, i) := SplitGenerated(name).value;
      assert n.IsElement(base, i);
    }
    if base: string, i: nat :| n.IsElement(base, i) && name == ElementName(base, i) {
      SplitInvertsElementName(base, i);
    }
  }

  /** Elements of reservations are spelled apart from each other and from every explicit name. */
  lemma ElementsAreDistinct(n: Names, a: string, i: nat, b: string, j: nat)
    requires n.Valid() && n.IsElement(a, i) && n.IsElement(b, j) && (a != b || i != j)
    ensures ElementName(a, i) != ElementName(b, j) && ElementName(a, i) !in n.Explicit()
  {
    SplitInvertsElementName(a, i);
    SplitInvertsElementName(b, j);
  }

  /** `index_explicit_name`: names that do not split are ignored. */
  function WithIndex(indices: map<string, set<nat>>, name: string): map<string, set<nat>> {
    var split := SplitGenerated(name);
    if split.None? then indices
    else
      var (base, i) := split.value;
      indices[base := (if base in indices then indices[base] else {}) + {i}]
  }

  /** One more free parameter name, indexed, keeps the namespace valid and every other name free or taken as before. */
  lemma ParameterJoins(n: Names, name: string)
    requires n.Valid() && name !in n.Explicit() && !n.Implicit(name)
    ensures
      var after := n.(params := n.params + {name}, indices := WithIndex(n.indices, name));
      after.Valid() && forall other :: other != name ==> (after.Conflicts(other) <==> n.Conflicts(other))
  {
    IndexFollows(n, name, n.(params := n.params + {name}, indices := WithIndex(n.indices, name)));
  }

  /** The index stays exact when one explicit name is added and indexed. */
  lemma IndexFollows(n: Names, name: string, after: Names)
    requires n.Indexed() && after.Explicit() == n.Explicit() + {name} && after.indices == WithIndex(n.indices, name)
    ensures after.Indexed()
  {
    ElementNameInvertsSplit(name);
    forall base, i: nat
      ensures after.HasIndex(base, i) <==> n.HasIndex(base, i) || SplitGenerated(name) == Some((base, i))
    {
    }
    forall base, i: nat | i < USIZES
      ensures ElementName(base, i) in after.Explicit() <==> after.HasIndex(base, i)
    {
      SplitInvertsElementName(base, i);
    }
  }

  /** Under a free base an element can only be occupied explicitly. */
  lemma FreshBaseHasFreeElements(n: Names, base: string, i: nat)
    requires n.Valid() && base !in n.Explicit() && i < USIZES
    ensures n.Occupied(ElementName(base, i)) <==> ElementName(base, i) in n.Explicit()
  {
    ConflictsAreOccupied(n, ElementName(base, i));
    SplitInvertsElementName(base, i);
  }

  lemma BaseIsNoElement(base: string, i: nat)
    ensures ElementName(base, i) != base
  {
    assert |ElementName(base, i)| > |base|;
  }

  /** Reserving a free array keeps explicit names and elements apart. */
  lemma ReservationStaysApart(n: Names, base: string, len: nat, after: Names)
    requires n.Valid() && !n.Conflicts(base) && len < USIZES
    requires forall i: nat :: i < len ==> ElementName(base, i) !in n.Explicit()
    requires after.vars == n.vars && after.params == n.params && after.arrays == n.arrays + {base}
    requires after.lens == n.lens[base := len]
    ensures after.Apart()
  {
    forall name | name in after.Explicit()
      ensures !after.Implicit(name)
    {
      ElementNameInvertsSplit(name);
      if after.Implicit(name) && SplitGenerated(name).value.0 == base {
        BaseIsNoElement(base, SplitGenerated(name).value.1);
      }
    }
  }

  datatype Added = Accepted | Duplicate | Collision(element: string)

  class ModelState {
    var names: Names

    constructor ()
      ensures names.Valid() && names.Explicit() == {} && names.lens == map[]
    {
      names := Names({}, {}, {}, map[], map[]);
    }

    /** `prospective_array_conflicts`: the smallest occupied element below `len`, if there is one. */
    method ProspectiveArrayConflicts(base: string, len: nat) returns (r: Option<string>)
      requires names.Valid() && len <= USIZES
      ensures r.None? <==> forall i: nat :: i < len ==> ElementName(base, i) !in names.Explicit()
      ensures r.Some? ==> exists i: nat ::
        && i < len && r.value == ElementName(base, i) && r.value in names.Explicit()
        && forall j: nat :: j < i ==> ElementName(base, j) !in names.Explicit()
    {
      if base !in names.indices {
        assert forall i: nat :: !names.HasIndex(base, i);
        return None;
      }
      var found := false;
      var least: nat := 0;
      var todo := names.indices[base];
      while todo != {}
        invariant todo <= names.indices[base]
        invariant found ==> names.HasIndex(base, least) && least < len
        invariant forall i: nat :: names.HasIndex(base, i) && i !in todo && i < len ==> found && least <= i
        decreases todo
      {
        var i :| i in todo;
        if i < len && (!found || i < least) { found, least := true, i; }
        todo := todo - {i};
      }
      if found {
        assert ElementName(base, least) in names.Explicit();
        return Some(ElementName(base, least));
      }
      return None;
    }

    /** A scalar variable is accepted exactly when its name is not in the expanded namespace. */
    method AddVariable(name: string) returns (r: Added)
      requires names.Valid()
      modifies this
      ensures names.Valid()
      ensures r == Accepted <==> !old(names).Occupied(name)
      ensures if r == Accepted
        then names == old(names).(vars := old(names).vars + {name}, indices := WithIndex(old(names).indices, name))
        else r == Duplicate && names == old(names)
    {
      ConflictsAreOccupied(names, name);
      if names.Conflicts(name) { return Duplicate; }
      var after := names.(vars := names.vars + {name}, indices := WithIndex(names.indices, name));
      IndexFollows(names, name, after);
      names := after;
      return Accepted;
    }

    /** A scalar parameter. */
    method AddParameter(name: string) returns (r: Added)
      requires names.Valid()
      modifies this
      ensures names.Valid()
      ensures r == Accepted <==> !old(names).Occupied(name)
      ensures if r == Accepted
        then names == old(names).(params := old(names).params + {name}, indices := WithIndex(old(names).indices, name))
        else r == Duplicate && names == old(names)
    {
      ConflictsAreOccupied(names, name);
      if names.Conflicts(name) { return Duplicate; }
      var after := names.(params := names.params + {name}, indices := WithIndex(names.indices, name));
      IndexFollows(names, name, after);
      names := after;
      return Accepted;
    }

    /** The guards that both kinds of array go through: they answer for the expanded namespace. */
    method CheckArray(base: string, len: nat) returns (r: Added)
      requires names.Valid() && len < USIZES
      ensures r == Accepted <==> !names.Occupied(base) && names.Free(base, len)
      ensures r == Accepted ==> !names.Conflicts(base) && forall i: nat :: i < len ==>
          ElementName(base, i) !in names.Explicit()
    {
      ConflictsAreOccupied(names, base);
      if names.Conflicts(base) { return Duplicate; }
      forall i: nat | i < len
        ensures names.Occupied(ElementName(base, i)) <==> ElementName(base, i) in names.Explicit()
      {
        FreshBaseHasFreeElements(names, base, i);
      }
      var conflict := ProspectiveArrayConflicts(base, len);
      return if conflict.Some? then Collision(conflict.value) else Accepted;
    }

    /** A variable array: only the base becomes a name, the elements are reserved. */
    method ReserveVariables(base: string, len: nat) returns (r: Added)
      requires names.Valid() && len < USIZES
      modifies this
      ensures names.Valid()
      ensures r == Accepted <==> !old(names).Occupied(base) && old(names).Free(base, len)
      ensures if r == Accepted
        then names == old(names).(arrays := old(names).arrays + {base}, indices := WithIndex(old(names).indices, base),
                                  lens := old(names).lens[base := len])
        else names == old(names)
    {
      r := CheckArray(base, len);
      if r != Accepted { return; }
      var after := names.(
        arrays := names.arrays + {base}, indices := WithIndex(names.indices, base), lens := names.lens[base := len]);
      IndexFollows(names, base, after);
      ReservationStaysApart(names, base, len, after);
      names := after;
    }

    /** A parameter array: its elements are stored eagerly, one name each, then the base. */
    method AddParameters(base: string, len: nat) returns (r: Added)
      requires names.Valid() && len < USIZES
      modifies this
      ensures names.Valid()
      ensures r == Accepted <==> !old(names).Occupied(base) && old(names).Free(base, len)
      ensures if r == Accepted
        then names.vars == old(names).vars && names.lens == old(names).lens &&
          names.arrays == old(names).arrays + {base}
          && names.params == old(names).params + (set i | 0 <= i < len :: ElementName(base, i))
        else names == old(names)
    {
      r := CheckArray(base, len);
      if r != Accepted { return; }
      AddElements(base, len);
      var after := names.(arrays := names.arrays + {base}, indices := WithIndex(names.indices, base));
      IndexFollows(names, base, after);
      names := after;
    }

    /** The loop that adds every element as an explicit parameter name. */
    method AddElements(base: string, len: nat)
      requires names.Valid() && len < USIZES && !names.Conflicts(base)
      requires forall k: nat :: k < len ==> ElementName(base, k) !in names.Explicit()
      modifies this
      ensures names.Valid() && !names.Conflicts(base)
      ensures names == old(names).(params := names.params, indices := names.indices)
      ensures names.params == old(names).params + (set i | 0 <= i < len :: ElementName(base, i))
    {
      hide ElementName, WithIndex;
      ghost var before := names;
      var i := 0;
      while i < len
        invariant 0 <= i <= len && names.Valid() && !names.Conflicts(base)
        invariant names == before.(params := names.params, indices := names.indices)
        invariant names.params == before.params + (set j | 0 <= j < i :: ElementName(base, j))
      {
        var name := ElementName(base, i);
        ElementStaysFree(before, names, base, i, len);
        ParameterJoins(names, name);
        BaseIsNoElement(base, i);
        names := names.(params := names.params + {name}, indices := WithIndex(names.indices, name));
        i := i + 1;
      }
    }

    /** An element behind those already added is still free, and no element of a reservation. */
    lemma ElementStaysFree(before: Names, now: Names, base: string, i: nat, len: nat)
      requires now.Valid() && !now.Conflicts(base) && i < len < USIZES
      requires forall k: nat :: k < len ==> ElementName(base, k) !in before.Explicit()
      requires now == before.(params := now.params, indices := now.indices)
      requires now.params == before.params + (set j | 0 <= j < i :: ElementName(base, j))
      ensures ElementName(base, i) !in now.Explicit() && !now.Implicit(ElementName(base, i))
    {
      SplitInvertsElementName(base, i);
      forall j | 0 <= j < i
        ensures ElementName(base, j) != ElementName(base, i)
      {
        SplitInvertsElementName(base, j);
      }
    }

    /**
     * A named constraint array. Its guard looks its base up in the maps only, not among reserved elements, so the
     * namespace stays unambiguous exactly when the base is no reserved element.
     */
    method NameConstraints(base: string, len: nat, constraintNames: set<string>) returns (r: Added)
      requires names.Valid() && len < USIZES
      modifies this
      ensures r == Accepted ==>
        names == old(names).(arrays := old(names).arrays + {base}, indices := WithIndex(old(names).indices, base))
      ensures r != Accepted ==> names == old(names)
      ensures r == Accepted <==>
        && base !in old(names).Explicit() && base !in constraintNames
        && forall i: nat :: i < len ==>
            ElementName(base, i) !in constraintNames && !old(names).Occupied(ElementName(base, i))
      ensures r == Accepted ==> (names.Valid() <==> !old(names).Implicit(base))
    {
      if base in constraintNames || base in names.Explicit() { return Duplicate; }
      var i := 0;
      while i < len
        invariant 0 <= i <= len && names == old(names)
        invariant forall j: nat :: j < i ==>
            ElementName(base, j) !in constraintNames && !names.Occupied(ElementName(base, j))
      {
        var name := ElementName(base, i);
        ConflictsAreOccupied(names, name);
        if name in constraintNames || name in names.Explicit() || names.Implicit(name) { return Collision(name); }
        i := i + 1;
      }
      var after := names.(arrays := names.arrays + {base}, indices := WithIndex(names.indices, base));
      IndexFollows(names, base, after);
      names := after;
      return Accepted;
    }
  }

  /** With `x` reserved, a constraint array may still take the name of its first element. */
  lemma ReservedElementAsConstraintBase(len: nat)
    requires 0 < len < USIZES
    ensures
      var n := Names({}, {}, {"x"}, map["x" := len], map[]);
      n.Valid() && n.Occupied(ElementName("x", 0)) && ElementName("x", 0) !in n.Explicit()
  {
    var n := Names({}, {}, {"x"}, map["x" := len], map[]);
    assert SplitGenerated("x") == None;
    forall base, i: nat | i < USIZES
      ensures ElementName(base, i) !in n.Explicit()
    {
      SplitInvertsElementName(base, i);
    }
    assert n.IsElement("x", 0);
  }
}
