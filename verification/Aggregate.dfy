/** Grouping and aggregate functions: one output row per group, in the order
    the groups were first seen. */
module Aggregates {
  import opened Options
  import opened Bytes
  import opened Rows
  import opened Joins
  import opened GroupKeys

  datatype FuncName = CountFunc | MinFunc | MaxFunc | SumFunc | AvgFunc

  /** Floating-point addition, integer promotion and order stay opaque. */
  datatype Arithmetic = Arithmetic(add: (nat, nat) -> nat, ofInt: int -> nat, divide: (nat, nat) -> nat,
                                   less: (nat, nat) -> bool)

  /* ---- the order of values ---- */

  function Sign(below: bool, above: bool): int {
    if below then -1 else if above then 1 else 0
  }

  function Nanos(sec: int, nsec: nat): int { sec * 1_000_000_000 + nsec }

  /** Null comes first; values of one type are in order, values of two types
      compare as equal. */
  function CompareValues(v: Value, w: Value, less: (nat, nat) -> bool): int {
    match v
    case Null => if w.Null? then 0 else -1
    case Int(i) => if w.Null? then 1 else if w.Int? then Sign(i < w.i, i > w.i) else 0
    case Real(bits) => if w.Null? then 1 else if w.Real? then Sign(less(bits, w.bits), less(w.bits, bits)) else 0
    case Text(text) => if w.Null? then 1 else if w.Text? then KeyCompare(text, w.text) else 0
    case Bool(b) => if w.Null? then 1 else if w.Bool? then Sign(!b && w.b, b && !w.b) else 0
    case Blob(blob) => if w.Null? then 1 else if w.Blob? then KeyCompare(blob, w.blob) else 0
    case Time(sec, nsec, _) =>
      if w.Null? then 1
      else if w.Time? then Sign(Nanos(sec, nsec) < Nanos(w.sec, w.nsec), Nanos(sec, nsec) > Nanos(w.sec, w.nsec))
      else 0
    case UUID(id) => if w.Null? then 1 else if w.UUID? then KeyCompare(id, w.id) else 0
  }

  /** What floating-point comparison is, not-a-number included. */
  ghost predicate IsStrict(less: (nat, nat) -> bool) {
    (forall x :: !less(x, x)) && (forall x, y, z :: less(x, y) && less(y, z) ==> less(x, z))
  }

  /** Values are strictly, though across types not totally, ordered. */
  lemma ComparesStrictly(u: Value, v: Value, w: Value, less: (nat, nat) -> bool)
    requires IsStrict(less)
    ensures CompareValues(u, v, less) < 0 <==> CompareValues(v, u, less) > 0
    ensures CompareValues(u, v, less) < 0 && CompareValues(v, w, less) < 0 ==> CompareValues(u, w, less) < 0
  {
    hide KeyCompare, Nanos;
    match u {
      case Text(_) => TextsCompare(u.text, if v.Text? then v.text else [], if w.Text? then w.text else []);
      case Blob(_) => TextsCompare(u.blob, if v.Blob? then v.blob else [], if w.Blob? then w.blob else []);
      case UUID(_) => TextsCompare(u.id, if v.UUID? then v.id else [], if w.UUID? then w.id else []);
      case _ =>
    }
  }

  lemma TextsCompare(a: Bytes, b: Bytes, c: Bytes)
    ensures KeyCompare(a, b) < 0 <==> KeyCompare(b, a) > 0
    ensures KeyCompare(a, b) < 0 && KeyCompare(b, c) < 0 ==> KeyCompare(a, c) < 0
  {
    hide KeyCompare, Rank;
    CompareIsRank(a, b);
    CompareIsRank(b, a);
    CompareIsRank(b, c);
    CompareIsRank(a, c);
  }

  /* ---- accumulators ---- */

  datatype Accumulator =
    | Count(count: int)
    | MinMax(isMin: bool, val: Value)
    | Sum(sum: Value)
    | Avg(total: nat, n: nat)

  function NewAccumulator(name: FuncName): Accumulator {
    match name
    case CountFunc => Count(0)
    case MinFunc => MinMax(true, Null)
    case MaxFunc => MinMax(false, Null)
    case SumFunc => Sum(Null)
    case AvgFunc => Avg(0, 0)
  }

  predicate Numeric(v: Value) {
    v.Int? || v.Real?
  }

  function ToFloat(v: Value, ar: Arithmetic): nat
    requires Numeric(v)
  {
    if v.Int? then ar.ofInt(v.i) else v.bits
  }

  /** Two integers add up as 64-bit integers; a float promotes the other side. */
  function AddNumeric(a: Value, b: Value, ar: Arithmetic): Value
    requires Numeric(a) && Numeric(b)
  {
    if a.Int? && b.Int? then Int(ToInt64(a.i + b.i)) else Real(ar.add(ToFloat(a, ar), ToFloat(b, ar)))
  }

  function Updated(a: Accumulator, v: Value, ar: Arithmetic): (r: Accumulator)
    ensures a.Count? <==> r.Count?
    ensures a.Sum? <==> r.Sum?
    ensures a.Sum? && (a.sum == Null || Numeric(a.sum)) ==> r.sum == Null || Numeric(r.sum)
  {
    match a
    case Count(n) => if v == Null then a else Count(ToInt64(n + 1))
    case MinMax(isMin, val) =>
      if v == Null then a
      else if val == Null then MinMax(isMin, v)
      else if (isMin && CompareValues(v, val, ar.less) < 0) || (!isMin && CompareValues(v, val, ar.less) > 0) then
        MinMax(isMin, v)
      else a
    case Sum(sum) => if !Numeric(v) then a else if !Numeric(sum) then Sum(v) else Sum(AddNumeric(sum, v, ar))
    case Avg(total, n) => if !Numeric(v) then a else Avg(ar.add(total, ToFloat(v, ar)), n + 1)
  }

  function Folded(a: Accumulator, vs: seq<Value>, ar: Arithmetic): Accumulator {
    if vs == [] then a else Updated(Folded(a, vs[..|vs| - 1], ar), vs[|vs| - 1], ar)
  }

  /** The mathematical sum of the integers. */
  function ExactSum(vs: seq<Value>): int {
    if vs == [] then 0 else ExactSum(vs[..|vs| - 1]) + if vs[|vs| - 1].Int? then vs[|vs| - 1].i else 0
  }

  function NonNull(vs: seq<Value>): nat {
    if vs == [] then 0 else NonNull(vs[..|vs| - 1]) + if vs[|vs| - 1] == Null then 0 else 1
  }

  lemma WrapAdds(a: int, b: int)
    ensures ToInt64(ToInt64(a) + b) == ToInt64(a + b)
    ensures -TWO_63 <= a < TWO_63 ==> ToInt64(a) == a
  {
  }

  /** SUM over integers is the exact sum modulo 2^64, so it is exact when the
      total fits; nulls and values that are not numbers are passed over. */
  lemma {:induction false} SumIsExact(vs: seq<Value>, ar: Arithmetic)
    requires forall i :: 0 <= i < |vs| ==> WellTyped(vs[i]) && !vs[i].Real?
    ensures var a := Folded(NewAccumulator(SumFunc), vs, ar);
      if exists i :: 0 <= i < |vs| && vs[i].Int? then a == Sum(Int(ToInt64(ExactSum(vs))))
      else a == Sum(Null) && ExactSum(vs) == 0
    ensures -TWO_63 <= ExactSum(vs) < TWO_63 ==> ToInt64(ExactSum(vs)) == ExactSum(vs)
  {
    hide ToInt64;
    WrapAdds(ExactSum(vs), 0);
    if vs != [] {
      var n := |vs| - 1;
      SumIsExact(vs[..n], ar);
      assert (exists i :: 0 <= i < |vs| && vs[i].Int?) <==> vs[n].Int? || exists i :: 0 <= i < n && vs[..n][i].Int? by {
        if i :| 0 <= i < n && vs[..n][i].Int? {
          assert vs[i].Int?;
        }
        if i :| 0 <= i < |vs| && vs[i].Int? {
          assert i < n ==> vs[..n][i].Int?;
        }
      }
      if vs[n].Int? {
        WrapAdds(ExactSum(vs[..n]), vs[n].i);
        WrapAdds(vs[n].i, 0);
      }
    }
  }

  /** COUNT counts the values that are not null. */
  lemma {:induction false} CountIsExact(vs: seq<Value>, ar: Arithmetic)
    ensures Folded(NewAccumulator(CountFunc), vs, ar) == Count(ToInt64(NonNull(vs)))
    ensures NonNull(vs) <= |vs| && ((forall i :: 0 <= i < |vs| ==> vs[i] != Null) ==> NonNull(vs) == |vs|)
  {
    hide ToInt64;
    WrapAdds(0, 0);
    if vs != [] {
      var n := |vs| - 1;
      CountIsExact(vs[..n], ar);
      WrapAdds(NonNull(vs[..n]), 1);
    }
  }

  /** a is at least as far out as b. */
  predicate AsExtreme(isMin: bool, a: Value, b: Value, ar: Arithmetic) {
    if isMin then CompareValues(a, b, ar.less) <= 0 else CompareValues(b, a, ar.less) <= 0
  }

  predicate FurtherOut(isMin: bool, a: Value, b: Value, ar: Arithmetic) {
    if isMin then CompareValues(a, b, ar.less) < 0 else CompareValues(a, b, ar.less) > 0
  }

  /** A value further out than another one is as far out as all that one is. */
  lemma FurtherStill(isMin: bool, v: Value, a: Value, b: Value, ar: Arithmetic)
    requires IsStrict(ar.less) && AsExtreme(isMin, a, b, ar) && FurtherOut(isMin, v, a, ar)
    ensures AsExtreme(isMin, v, b, ar)
  {
    hide CompareValues;
    ComparesStrictly(b, v, a, ar.less);
    ComparesStrictly(b, a, v, ar.less);
    ComparesStrictly(a, v, b, ar.less);
    ComparesStrictly(a, b, v, ar.less);
    ComparesStrictly(v, b, a, ar.less);
  }

  lemma OneOrOther(isMin: bool, v: Value, a: Value, ar: Arithmetic)
    requires IsStrict(ar.less)
    ensures AsExtreme(isMin, v, v, ar)
    ensures FurtherOut(isMin, v, a, ar) || AsExtreme(isMin, a, v, ar)
  {
    hide CompareValues;
    ComparesStrictly(v, a, v, ar.less);
    ComparesStrictly(a, v, a, ar.less);
    ComparesStrictly(v, v, v, ar.less);
  }

  ghost predicate AllNull(vs: seq<Value>) {
    forall i :: 0 <= i < |vs| ==> vs[i] == Null
  }

  /** MIN and MAX give one of the values that are not null, which none of the
      others goes beyond, and null when there is no such value. */
  lemma {:induction false} ExtremeIs(isMin: bool, vs: seq<Value>, ar: Arithmetic)
    requires IsStrict(ar.less)
    ensures var a := Folded(MinMax(isMin, Null), vs, ar);
      && a.MinMax? && a.isMin == isMin
      && (a.val == Null <==> AllNull(vs))
      && (a.val != Null ==> a.val in vs)
      && (forall i :: 0 <= i < |vs| && vs[i] != Null ==> a.val != Null && AsExtreme(isMin, a.val, vs[i], ar))
  {
    hide CompareValues, AsExtreme;
    if vs != [] {
      var n := |vs| - 1;
      ExtremeIs(isMin, vs[..n], ar);
      var b, a := Folded(MinMax(isMin, Null), vs[..n], ar), Folded(MinMax(isMin, Null), vs, ar);
      OneOrOther(isMin, vs[n], b.val, ar);
      forall i | 0 <= i < n && vs[i] != Null
        ensures b.val != Null && AsExtreme(isMin, a.val, vs[i], ar)
      {
        assert vs[..n][i] == vs[i];
        if a.val != b.val {
          FurtherStill(isMin, a.val, b.val, vs[i], ar);
        }
      }
      assert vs == vs[..n] + [vs[n]];
    }
  }

  /** Values of two types are never compared: the extreme has the type of the
      first value that is not null. */
  lemma {:induction false} ExtremeKeepsType(isMin: bool, vs: seq<Value>, first: nat, ar: Arithmetic)
    requires first < |vs| && vs[first] != Null && AllNull(vs[..first])
    ensures var a := Folded(MinMax(isMin, Null), vs, ar);
      a.MinMax? && a.isMin == isMin && DataType(a.val) == DataType(vs[first])
  {
    hide KeyCompare, Nanos;
    var n := |vs| - 1;
    if first < n {
      assert vs[..n][..first] == vs[..first];
      ExtremeKeepsType(isMin, vs[..n], first, ar);
    } else {
      NullsFold(isMin, vs[..n], ar);
    }
  }

  lemma {:induction false} NullsFold(isMin: bool, vs: seq<Value>, ar: Arithmetic)
    requires AllNull(vs)
    ensures Folded(MinMax(isMin, Null), vs, ar) == MinMax(isMin, Null)
  {
    if vs != [] {
      NullsFold(isMin, vs[..|vs| - 1], ar);
    }
  }

  function Numerics(vs: seq<Value>): nat {
    if vs == [] then 0 else Numerics(vs[..|vs| - 1]) + if Numeric(vs[|vs| - 1]) then 1 else 0
  }

  /** AVG divides by the number of numeric values, and one float among the
      values of a SUM makes the sum a float. */
  lemma {:induction false} AvgAndSumKinds(vs: seq<Value>, ar: Arithmetic)
    ensures var a := Folded(NewAccumulator(AvgFunc), vs, ar); a.Avg? && a.n == Numerics(vs)
    ensures var a := Folded(NewAccumulator(SumFunc), vs, ar);
      a.Sum? && (a.sum.Real? <==> exists v :: v in vs && v.Real?) && (a.sum == Null || Numeric(a.sum))
    ensures Folded(NewAccumulator(SumFunc), vs, ar).sum == Null <==> Numerics(vs) == 0
  {
    if vs != [] {
      var n := |vs| - 1;
      AvgAndSumKinds(vs[..n], ar);
      assert vs == vs[..n] + [vs[n]];
      assert (exists v :: v in vs && v.Real?) <==> vs[n].Real? || exists v :: v in vs[..n] && v.Real?;
    }
  }

  /* ---- by the names of the functions ---- */

  /** v comes before w or is as far as w in the order of their type: numbers by
      size, texts, blobs and UUIDs by their bytes, false before true, times by
      instant, and floats where none is less the other way. */
  ghost predicate NotAfter(v: Value, w: Value, less: (nat, nat) -> bool) {
    DataType(v) == DataType(w) &&
    match v
    case Null => true
    case Int(i) => i <= w.i
    case Real(bits) => !less(w.bits, bits)
    case Text(text) => Rank(text) <= Rank(w.text)
    case Bool(b) => b ==> w.b
    case Blob(blob) => Rank(blob) <= Rank(w.blob)
    case Time(sec, nsec, _) => sec * 1_000_000_000 + nsec <= w.sec * 1_000_000_000 + w.nsec
    case UUID(id) => Rank(id) <= Rank(w.id)
  }

  /** Which way values compare: by the order of their type, null below all others,
      and as equal across types. */
  lemma ComparesInOrder(v: Value, w: Value, less: (nat, nat) -> bool)
    requires IsStrict(less)
    ensures DataType(v) == DataType(w) ==> (CompareValues(v, w, less) <= 0 <==> NotAfter(v, w, less))
    ensures v.Null? && !w.Null? ==> CompareValues(v, w, less) < 0 < CompareValues(w, v, less)
    ensures DataType(v) != DataType(w) && !v.Null? && !w.Null? ==> CompareValues(v, w, less) == 0
  {
    hide KeyCompare, Rank;
    match v {
      case Text(_) => CompareIsRank(v.text, if w.Text? then w.text else []);
      case Blob(_) => CompareIsRank(v.blob, if w.Blob? then w.blob else []);
      case UUID(_) => CompareIsRank(v.id, if w.UUID? then w.id else []);
      case _ =>
    }
  }

  function ResultOf(name: FuncName, vs: seq<Value>, ar: Arithmetic): Value {
    Result(Folded(NewAccumulator(name), vs, ar), ar)
  }

  /** All values but the nulls are of this type. */
  predicate OfType(vs: seq<Value>, tag: byte) {
    forall i :: 0 <= i < |vs| ==> vs[i] == Null || DataType(vs[i]) == tag
  }

  /** Over values of one type MIN is the first in their order, MAX the last, and
      both are null over nothing but nulls. */
  lemma MinAndMax(vs: seq<Value>, tag: byte, ar: Arithmetic)
    requires IsStrict(ar.less) && OfType(vs, tag)
    ensures var least := ResultOf(MinFunc, vs, ar);
      && (AllNull(vs) ==> least == Null)
      && (!AllNull(vs) ==> least in vs && least != Null)
      && (forall i :: 0 <= i < |vs| && vs[i] != Null ==> NotAfter(least, vs[i], ar.less))
    ensures var greatest := ResultOf(MaxFunc, vs, ar);
      && (AllNull(vs) ==> greatest == Null)
      && (!AllNull(vs) ==> greatest in vs && greatest != Null)
      && (forall i :: 0 <= i < |vs| && vs[i] != Null ==> NotAfter(vs[i], greatest, ar.less))
  {
    hide CompareValues, NotAfter, Folded;
    ExtremeIs(true, vs, ar);
    ExtremeIs(false, vs, ar);
    var least, greatest := ResultOf(MinFunc, vs, ar), ResultOf(MaxFunc, vs, ar);
    forall i | 0 <= i < |vs| && vs[i] != Null
      ensures NotAfter(least, vs[i], ar.less) && NotAfter(vs[i], greatest, ar.less)
    {
      InType(vs, tag, least);
      InType(vs, tag, greatest);
      ComparesInOrder(least, vs[i], ar.less);
      ComparesInOrder(vs[i], greatest, ar.less);
    }
  }

  lemma InType(vs: seq<Value>, tag: byte, v: Value)
    requires OfType(vs, tag) && v in vs && v != Null
    ensures DataType(v) == tag
  {
  }

  /** Over whole numbers and nulls: the least number that occurs, and the greatest. */
  lemma MinAndMaxOfIntegers(vs: seq<Value>, ar: Arithmetic)
    requires IsStrict(ar.less) && forall i :: 0 <= i < |vs| ==> vs[i] == Null || vs[i].Int?
    requires exists i :: 0 <= i < |vs| && vs[i].Int?
    ensures var least := ResultOf(MinFunc, vs, ar);
      least.Int? && least in vs && forall i :: 0 <= i < |vs| && vs[i].Int? ==> least.i <= vs[i].i
    ensures var greatest := ResultOf(MaxFunc, vs, ar);
      greatest.Int? && greatest in vs && forall i :: 0 <= i < |vs| && vs[i].Int? ==> vs[i].i <= greatest.i
  {
    hide Folded, ResultOf;
    MinAndMax(vs, DataType(Int(0)), ar);
  }

  /** COUNT is the number of values that are not null, modulo 2^64. */
  lemma {:induction false} CountOf(vs: seq<Value>, ar: Arithmetic)
    ensures ResultOf(CountFunc, vs, ar) == Int(ToInt64(|set i | 0 <= i < |vs| && vs[i] != Null|))
  {
    hide ToInt64, Folded, NonNull;
    CountIsExact(vs, ar);
    NonNullIs(vs);
  }

  lemma {:induction false} NonNullIs(vs: seq<Value>)
    ensures NonNull(vs) == |set i | 0 <= i < |vs| && vs[i] != Null|
  {
    var some := set i | 0 <= i < |vs| && vs[i] != Null;
    if vs == [] {
      assert some == {};
    } else {
      var n := |vs| - 1;
      NonNullIs(vs[..n]);
      var before := set i | 0 <= i < n && vs[..n][i] != Null;
      assert some == if vs[n] == Null then before else before + {n};
    }
  }

  /** SUM over nothing numeric is the float zero, over whole numbers their sum
      modulo 2^64. */
  lemma SumOfIntegers(vs: seq<Value>, ar: Arithmetic)
    requires forall i :: 0 <= i < |vs| ==> WellTyped(vs[i]) && !vs[i].Real?
    ensures ResultOf(SumFunc, vs, ar) ==
      if exists i :: 0 <= i < |vs| && vs[i].Int? then Int(ToInt64(ExactSum(vs))) else Real(0)
  {
    hide Folded, ExactSum, ToInt64;
    SumIsExact(vs, ar);
  }

  function AsFloat(v: Value, ar: Arithmetic): nat {
    match v case Int(i) => ar.ofInt(i) case Real(bits) => bits case _ => 0
  }

  /** One float in a SUM turns it into a float: from then on every number is added
      as a float, in order. */
  lemma SumWithFloat(vs: seq<Value>, v: Value, ar: Arithmetic)
    ensures var sum, sum' := ResultOf(SumFunc, vs, ar), ResultOf(SumFunc, vs + [v], ar);
      && (!v.Int? && !v.Real? ==> sum' == sum)
      && (v.Int? || v.Real? ==>
            if forall i :: 0 <= i < |vs| ==> !vs[i].Int? && !vs[i].Real? then sum' == v
            else if v.Int? && (forall i :: 0 <= i < |vs| ==> !vs[i].Real?) then sum'.Int?
            else sum' == Real(ar.add(AsFloat(sum, ar), AsFloat(v, ar))))
  {
    hide ToInt64, Numerics;
    assert (vs + [v])[..|vs|] == vs;
    AvgAndSumKinds(vs, ar);
    NumericsAre(vs);
    RealsAre(vs);
  }

  /** The places of the numbers. */
  ghost function Places(vs: seq<Value>): set<int> {
    set i | 0 <= i < |vs| && (vs[i].Int? || vs[i].Real?)
  }

  lemma OneMorePlace(vs: seq<Value>, v: Value)
    ensures Places(vs + [v]) == if v.Int? || v.Real? then Places(vs) + {|vs|} else Places(vs)
  {
  }

  lemma {:induction false} NumericsAre(vs: seq<Value>)
    ensures Numerics(vs) == 0 <==> forall i :: 0 <= i < |vs| ==> !vs[i].Int? && !vs[i].Real?
    ensures Numerics(vs) == |set i | 0 <= i < |vs| && (vs[i].Int? || vs[i].Real?)|
  {
    PlacesCounted(vs);
    assert Numerics(vs) == 0 <==> Places(vs) == {};
    assert forall i :: 0 <= i < |vs| && (vs[i].Int? || vs[i].Real?) ==> i in Places(vs);
  }

  lemma {:induction false} PlacesCounted(vs: seq<Value>)
    ensures Numerics(vs) == |Places(vs)|
  {
    if vs != [] {
      var n := |vs| - 1;
      PlacesCounted(vs[..n]);
      OneMorePlace(vs[..n], vs[n]);
      assert vs[..n] + [vs[n]] == vs;
    }
  }

  lemma RealsAre(vs: seq<Value>)
    ensures (exists v :: v in vs && v.Real?) <==> exists i :: 0 <= i < |vs| && vs[i].Real?
  {
  }

  /** The numbers added up as floats, in order. */
  function FloatTotal(vs: seq<Value>, ar: Arithmetic): nat {
    if vs == [] then 0
    else
      var total, v := FloatTotal(vs[..|vs| - 1], ar), vs[|vs| - 1];
      if v.Int? || v.Real? then ar.add(total, AsFloat(v, ar)) else total
  }

  /** AVG is the numbers added up as floats over how many they are, null if none. */
  lemma {:induction false} AvgOf(vs: seq<Value>, ar: Arithmetic)
    ensures ResultOf(AvgFunc, vs, ar) ==
      var n := |set i | 0 <= i < |vs| && (vs[i].Int? || vs[i].Real?)|;
      if n == 0 then Null else Real(ar.divide(FloatTotal(vs, ar), ar.ofInt(n)))
  {
    hide Folded, Numerics;
    AvgAndSumKinds(vs, ar);
    NumericsAre(vs);
    TotalIs(vs, ar);
  }

  lemma {:induction false} TotalIs(vs: seq<Value>, ar: Arithmetic)
    ensures var a := Folded(NewAccumulator(AvgFunc), vs, ar); a.Avg? && a.total == FloatTotal(vs, ar)
  {
    if vs != [] {
      TotalIs(vs[..|vs| - 1], ar);
    }
  }

  /* ---- grouping ---- */

  /** An aggregate call; a star or an empty argument list of COUNT counts rows. */
  datatype FuncCall = FuncCall(name: FuncName, star: bool, arg: Row -> Option<Value>)

  datatype Query = Query(
    funcCalls: seq<FuncCall>,
    passThroughs: seq<Row -> Option<Value>>,
    groupExprs: seq<Row -> Option<Value>>,
    other: Value -> string,
    ungrouped: bool,
    ar: Arithmetic)

  datatype Group = Group(accumulators: seq<Accumulator>, ptValues: seq<Value>)

  function ArgOf(fc: FuncCall, row: Row): Option<Value> {
    if fc.name == CountFunc && fc.star then Some(Bool(true)) else fc.arg(row)
  }

  function KeyOf(q: Query, row: Row): Option<string> {
    GroupKeyOf(q.groupExprs, q.other, row)
  }

  /** Every argument evaluates over the row. */
  predicate HasArgs(q: Query, row: Row) {
    forall f :: 0 <= f < |q.funcCalls| ==> ArgOf(q.funcCalls[f], row).Some?
  }

  /** Every passed-through expression evaluates over the row. */
  predicate PassesThrough(q: Query, row: Row) {
    forall p :: 0 <= p < |q.passThroughs| ==> q.passThroughs[p](row).Some?
  }

  /** Everything that is evaluated over row i has a value: its group key, the
      arguments, and the passed-through expressions if it is the first of its group. */
  ghost predicate Evaluates(q: Query, rows: seq<Row>, i: nat)
    requires i < |rows|
  {
    && KeyOf(q, rows[i]).Some? && HasArgs(q, rows[i])
    && (PassesThrough(q, rows[i]) || exists k :: 0 <= k < i && KeyOf(q, rows[k]) == KeyOf(q, rows[i]))
  }

  /** The rows of one group, in input order. */
  ghost function RowsWith(q: Query, rows: seq<Row>, key: string): seq<Row> {
    if rows == [] then []
    else
      var n := |rows| - 1;
      RowsWith(q, rows[..n], key) + if KeyOf(q, rows[n]) == Some(key) then [rows[n]] else []
  }

  ghost predicate AllEvaluate(q: Query, rows: seq<Row>) {
    forall i :: 0 <= i < |rows| ==> Evaluates(q, rows, i)
  }

  lemma EachEvaluates(q: Query, rows: seq<Row>)
    requires AllEvaluate(q, rows)
    ensures forall i :: 0 <= i < |rows| ==> KeyOf(q, rows[i]).Some? && HasArgs(q, rows[i])
  {
    hide HasArgs, PassesThrough, KeyOf;
    forall i | 0 <= i < |rows|
      ensures KeyOf(q, rows[i]).Some? && HasArgs(q, rows[i])
    {
      assert Evaluates(q, rows, i);
    }
  }

  lemma SameEvaluates(q: Query, rows: seq<Row>, rows': seq<Row>, i: nat)
    requires i < |rows| && i < |rows'| && forall k :: 0 <= k <= i ==> rows[k] == rows'[k]
    ensures Evaluates(q, rows, i) <==> Evaluates(q, rows', i)
  {
    hide HasArgs, PassesThrough, KeyOf;
  }

  /** Whether a row evaluates does not depend on what comes after it. */
  lemma OneMoreEvaluates(q: Query, all: seq<Row>, rows: seq<Row>, row: Row)
    requires AllEvaluate(q, rows) && |rows| < |all| && all[..|rows| + 1] == rows + [row]
    ensures Evaluates(q, rows + [row], |rows|) <==> Evaluates(q, all, |rows|)
    ensures Evaluates(q, rows + [row], |rows|) ==> AllEvaluate(q, rows + [row])
  {
    hide HasArgs, PassesThrough, KeyOf;
    var rows' := rows + [row];
    assert forall i :: 0 <= i < |rows'| ==> all[i] == all[..|rows| + 1][i] == rows'[i];
    SameEvaluates(q, rows', all, |rows|);
    forall i | 0 <= i < |rows|
      ensures Evaluates(q, rows', i)
    {
      assert Evaluates(q, rows, i);
      SameEvaluates(q, rows, rows', i);
    }
  }

  /** Group keys in the order they first occur. */
  ghost function FirstSeen(q: Query, rows: seq<Row>): seq<string> {
    if rows == [] then []
    else
      var n := |rows| - 1;
      var before, k := FirstSeen(q, rows[..n]), KeyOf(q, rows[n]);
      if k.Some? && k.value !in before then before + [k.value] else before
  }

  /** A group has the rows with its key, as often as they occur. */
  lemma {:induction false} RowsWithKey(q: Query, rows: seq<Row>, key: string, row: Row)
    ensures multiset(RowsWith(q, rows, key))[row] == if KeyOf(q, row) == Some(key) then multiset(rows)[row] else 0
  {
    hide KeyOf;
    if rows == [] {
      assert RowsWith(q, rows, key) == [] && multiset(rows)[row] == 0;
    } else {
      var n := |rows| - 1;
      var before := RowsWith(q, rows[..n], key);
      RowsWithKey(q, rows[..n], key, row);
      assert rows == rows[..n] + [rows[n]];
      if KeyOf(q, rows[n]) == Some(key) {
        assert RowsWith(q, rows, key) == before + [rows[n]];
      } else {
        assert RowsWith(q, rows, key) == before;
      }
    }
  }

  ghost function ArgsOver(fc: FuncCall, rows: seq<Row>): seq<Value> {
    if rows == [] then []
    else
      var n := |rows| - 1;
      ArgsOver(fc, rows[..n]) + match ArgOf(fc, rows[n]) case Some(v) => [v] case None => []
  }

  /** Each accumulator is the fold over the group's rows in order; passed-through
      columns come from its first row. */
  ghost predicate GroupIs(q: Query, g: Group, rows: seq<Row>) {
    && AccumulatorsAre(q, g.accumulators, rows) && |g.ptValues| == |q.passThroughs|
    && (rows != [] ==> PassedThrough(q, g.ptValues, rows[0]))
  }

  ghost predicate AccumulatorsAre(q: Query, accs: seq<Accumulator>, rows: seq<Row>) {
    && |accs| == |q.funcCalls|
    && (forall f :: 0 <= f < |q.funcCalls| ==>
          accs[f] == Folded(NewAccumulator(q.funcCalls[f].name), ArgsOver(q.funcCalls[f], rows), q.ar))
  }

  ghost predicate PassedThrough(q: Query, values: seq<Value>, row: Row) {
    && |values| == |q.passThroughs|
    && forall p :: 0 <= p < |q.passThroughs| ==> q.passThroughs[p](row) == Some(values[p])
  }

  ghost predicate GroupsAre(q: Query, groups: seq<Group>, rows: seq<Row>) {
    && |groups| == |FirstSeen(q, rows)|
    && forall a :: 0 <= a < |groups| ==> GroupIs(q, groups[a], RowsWith(q, rows, FirstSeen(q, rows)[a]))
  }

  ghost predicate Indexed(q: Query, byKey: map<string, nat>, rows: seq<Row>) {
    && (forall k :: k in byKey <==> k in FirstSeen(q, rows))
    && (forall k :: k in byKey ==> byKey[k] < |FirstSeen(q, rows)| && FirstSeen(q, rows)[byKey[k]] == k)
  }

  /** Keys are listed once each, exactly those that occur, and every row has one. */
  lemma {:induction false} FirstSeenIs(q: Query, rows: seq<Row>)
    requires forall i :: 0 <= i < |rows| ==> KeyOf(q, rows[i]).Some?
    ensures forall a, b :: 0 <= a < b < |FirstSeen(q, rows)| ==> FirstSeen(q, rows)[a] != FirstSeen(q, rows)[b]
    ensures forall i :: 0 <= i < |rows| ==> KeyOf(q, rows[i]).value in FirstSeen(q, rows)
    ensures forall k :: k in FirstSeen(q, rows) <==> RowsWith(q, rows, k) != []
  {
    if rows != [] {
      var n := |rows| - 1;
      FirstSeenIs(q, rows[..n]);
      forall i | 0 <= i < |rows|
        ensures KeyOf(q, rows[i]).value in FirstSeen(q, rows)
      {
        if i < n {
          assert rows[..n][i] == rows[i];
        }
      }
    }
  }

  ghost function SizesOf(q: Query, rows: seq<Row>, keys: seq<string>): nat {
    if keys == [] then 0 else SizesOf(q, rows, keys[..|keys| - 1]) + |RowsWith(q, rows, keys[|keys| - 1])|
  }

  lemma {:induction false} SizesStep(q: Query, rows: seq<Row>, row: Row, keys: seq<string>, k: string)
    requires KeyOf(q, row) == Some(k)
    requires forall a, b :: 0 <= a < b < |keys| ==> keys[a] != keys[b]
    ensures SizesOf(q, rows + [row], keys) == SizesOf(q, rows, keys) + if k in keys then 1 else 0
  {
    if keys != [] {
      var m := |keys| - 1;
      SizesStep(q, rows, row, keys[..m], k);
      assert (rows + [row])[..|rows|] == rows;
      assert keys == keys[..m] + [keys[m]];
    }
  }

  lemma {:induction false} NoRowsNoSizes(q: Query, keys: seq<string>)
    ensures SizesOf(q, [], keys) == 0
  {
    if keys != [] {
      NoRowsNoSizes(q, keys[..|keys| - 1]);
    }
  }

  lemma OneSizeMore(q: Query, rows: seq<Row>, keys: seq<string>, k: string)
    ensures SizesOf(q, rows, keys + [k]) == SizesOf(q, rows, keys) + |RowsWith(q, rows, k)|
  {
    assert (keys + [k])[..|keys|] == keys;
  }

  lemma RowAdded(q: Query, rows: seq<Row>, row: Row, k: string)
    requires KeyOf(q, row) == Some(k)
    ensures RowsWith(q, rows + [row], k) == RowsWith(q, rows, k) + [row]
    ensures forall j :: j != k ==> RowsWith(q, rows + [row], j) == RowsWith(q, rows, j)
    ensures FirstSeen(q, rows + [row]) ==
      if k in FirstSeen(q, rows) then FirstSeen(q, rows) else FirstSeen(q, rows) + [k]
  {
    assert (rows + [row])[..|rows|] == rows;
  }

  /** The groups partition the input: their sizes add up to the number of rows. */
  lemma {:induction false} GroupsPartition(q: Query, rows: seq<Row>)
    requires forall i :: 0 <= i < |rows| ==> KeyOf(q, rows[i]).Some?
    ensures SizesOf(q, rows, FirstSeen(q, rows)) == |rows|
  {
    if rows == [] {
      NoRowsNoSizes(q, []);
    } else {
      hide RowsWith, FirstSeen, SizesOf;
      var n := |rows| - 1;
      var k, before := KeyOf(q, rows[n]).value, FirstSeen(q, rows[..n]);
      GroupsPartition(q, rows[..n]);
      FirstSeenIs(q, rows[..n]);
      assert rows == rows[..n] + [rows[n]];
      SizesStep(q, rows[..n], rows[n], before, k);
      RowAdded(q, rows[..n], rows[n], k);
      if k !in before {
        OneSizeMore(q, rows, before, k);
      }
    }
  }

  lemma {:induction false} StarArgs(fc: FuncCall, rows: seq<Row>)
    requires fc.name == CountFunc && fc.star
    ensures |ArgsOver(fc, rows)| == |rows| && forall i :: 0 <= i < |rows| ==> ArgsOver(fc, rows)[i] == Bool(true)
  {
    if rows != [] {
      StarArgs(fc, rows[..|rows| - 1]);
    }
  }

  lemma {:induction false} NotLarger(q: Query, rows: seq<Row>, k: string)
    ensures |RowsWith(q, rows, k)| <= |rows|
  {
    if rows != [] {
      NotLarger(q, rows[..|rows| - 1], k);
    }
  }

  ghost function CountsOf(groups: seq<Group>, f: nat): int
    requires forall a :: 0 <= a < |groups| ==> f < |groups[a].accumulators| && groups[a].accumulators[f].Count?
  {
    if groups == [] then 0
    else CountsOf(groups[..|groups| - 1], f) + groups[|groups| - 1].accumulators[f].count
  }

  lemma StarCount(q: Query, g: Group, rows: seq<Row>, f: nat)
    requires f < |q.funcCalls| && q.funcCalls[f].name == CountFunc && q.funcCalls[f].star
    requires GroupIs(q, g, rows) && |rows| < TWO_63
    ensures f < |g.accumulators| && g.accumulators[f] == Count(|rows|)
  {
    hide Folded, ArgsOver, NonNull;
    StarArgs(q.funcCalls[f], rows);
    CountIsExact(ArgsOver(q.funcCalls[f], rows), q.ar);
  }

  lemma {:induction false} CountsAreSizes(q: Query, groups: seq<Group>, keys: seq<string>, rows: seq<Row>, f: nat)
    requires f < |q.funcCalls| && q.funcCalls[f].name == CountFunc && q.funcCalls[f].star && |rows| < TWO_63
    requires |groups| == |keys| && forall a :: 0 <= a < |groups| ==> GroupIs(q, groups[a], RowsWith(q, rows, keys[a]))
    ensures forall a :: 0 <= a < |groups| ==> f < |groups[a].accumulators| && groups[a].accumulators[f].Count?
    ensures CountsOf(groups, f) == SizesOf(q, rows, keys)
  {
    hide RowsWith, GroupIs;
    forall a | 0 <= a < |groups|
      ensures f < |groups[a].accumulators| && groups[a].accumulators[f] == Count(|RowsWith(q, rows, keys[a])|)
    {
      NotLarger(q, rows, keys[a]);
      StarCount(q, groups[a], RowsWith(q, rows, keys[a]), f);
    }
    if groups != [] {
      CountsAreSizes(q, groups[..|groups| - 1], keys[..|keys| - 1], rows, f);
    }
  }

  /** COUNT(*) over all groups adds up to the number of rows. */
  lemma CountsAddUp(q: Query, groups: seq<Group>, rows: seq<Row>, f: nat)
    requires GroupsAre(q, groups, rows) && forall i :: 0 <= i < |rows| ==> KeyOf(q, rows[i]).Some?
    requires f < |q.funcCalls| && q.funcCalls[f].name == CountFunc && q.funcCalls[f].star && |rows| < TWO_63
    ensures forall a :: 0 <= a < |groups| ==> f < |groups[a].accumulators| && groups[a].accumulators[f].Count?
    ensures CountsOf(groups, f) == |rows|
  {
    hide RowsWith, GroupIs, FirstSeen, SizesOf, CountsOf;
    CountsAreSizes(q, groups, FirstSeen(q, rows), rows, f);
    GroupsPartition(q, rows);
  }

  /* ---- what a group yields ---- */

  /** In groups built from rows that evaluate, a passed-through value is that of the
      first row with the group's key, and an accumulator gives the result of its
      function over its argument's values, in the order of the rows. */
  lemma GroupYields(q: Query, groups: seq<Group>, rows: seq<Row>, a: nat)
    requires GroupsAre(q, groups, rows) && AllEvaluate(q, rows) && a < |groups|
    ensures |groups| == |FirstSeen(q, rows)|
    ensures var mine := RowsWith(q, rows, FirstSeen(q, rows)[a]);
      && mine != [] && (forall i :: 0 <= i < |mine| ==> KeyOf(q, mine[i]) == Some(FirstSeen(q, rows)[a]))
      && |groups[a].ptValues| == |q.passThroughs| && |groups[a].accumulators| == |q.funcCalls|
      && (forall p :: 0 <= p < |q.passThroughs| ==> q.passThroughs[p](mine[0]) == Some(groups[a].ptValues[p]))
      && (forall f :: 0 <= f < |q.funcCalls| ==>
            var fc := q.funcCalls[f];
            var args := ArgsOver(fc, mine);
            && Result(groups[a].accumulators[f], q.ar) == ResultOf(fc.name, args, q.ar) && |args| == |mine|
            && (forall i :: 0 <= i < |mine| ==>
                  Some(args[i]) == if fc.name == CountFunc && fc.star then Some(Bool(true)) else fc.arg(mine[i])))
  {
    hide Folded, NewAccumulator, Result, KeyOf, FirstSeen, RowsWith, ArgsOver, PassesThrough;
    var key := FirstSeen(q, rows)[a];
    var mine := RowsWith(q, rows, key);
    assert GroupIs(q, groups[a], mine);
    FirstSeenOccurs(q, rows, key);
    OnlyWithKey(q, rows, key);
    forall f | 0 <= f < |q.funcCalls|
      ensures var args := ArgsOver(q.funcCalls[f], mine);
        && |args| == |mine| && forall i :: 0 <= i < |mine| ==> Some(args[i]) == ArgOf(q.funcCalls[f], mine[i])
    {
      ArgsAre(q.funcCalls[f], mine);
    }
  }

  lemma {:induction false} OnlyWithKey(q: Query, rows: seq<Row>, key: string)
    requires AllEvaluate(q, rows)
    ensures var mine := RowsWith(q, rows, key);
      && (forall i :: 0 <= i < |mine| ==> KeyOf(q, mine[i]) == Some(key) && HasArgs(q, mine[i]))
      && (mine != [] <==> exists k :: 0 <= k < |rows| && KeyOf(q, rows[k]) == Some(key))
  {
    hide KeyOf, HasArgs, PassesThrough;
    if rows != [] {
      var n := |rows| - 1;
      AllButLast(q, rows);
      OnlyWithKey(q, rows[..n], key);
      EachEvaluates(q, rows);
      assert forall k :: 0 <= k < n ==> rows[..n][k] == rows[k];
    }
  }

  lemma AllButLast(q: Query, rows: seq<Row>)
    requires rows != [] && AllEvaluate(q, rows)
    ensures AllEvaluate(q, rows[..|rows| - 1])
  {
    hide KeyOf, HasArgs, PassesThrough;
    var front := rows[..|rows| - 1];
    forall i | 0 <= i < |front|
      ensures Evaluates(q, front, i)
    {
      assert Evaluates(q, rows, i);
      SameEvaluates(q, rows, front, i);
    }
  }

  lemma {:induction false} ArgsAre(fc: FuncCall, rows: seq<Row>)
    requires forall i :: 0 <= i < |rows| ==> ArgOf(fc, rows[i]).Some?
    ensures |ArgsOver(fc, rows)| == |rows|
    ensures forall i :: 0 <= i < |rows| ==> Some(ArgsOver(fc, rows)[i]) == ArgOf(fc, rows[i])
  {
    hide ArgOf;
    if rows != [] {
      ArgsAre(fc, rows[..|rows| - 1]);
    }
  }

  /* ---- the scanner ---- */

  class AggregateScanner {
    const query: Query
    const outIsFunc: seq<bool>
    const outIdx: seq<nat>
    var groups: seq<Group>
    var nextGroup: nat

    constructor (query: Query, outIsFunc: seq<bool>, outIdx: seq<nat>)
      ensures this.query == query && this.outIsFunc == outIsFunc && this.outIdx == outIdx
      ensures groups == [] && nextGroup == 0
    {
      this.query, this.outIsFunc, this.outIdx := query, outIsFunc, outIdx;
      groups, nextGroup := [], 0;
    }

    /** Every output column maps to an accumulator or a passed-through value. */
    predicate Mapped() {
      |outIdx| == |outIsFunc| && forall i :: 0 <= i < |outIdx| ==>
        outIdx[i] < if outIsFunc[i] then |query.funcCalls| else |query.passThroughs|
    }

    ghost predicate Valid()
      reads this
    {
      Mapped() && nextGroup <= |groups| && forall a :: 0 <= a < |groups| ==>
        |groups[a].accumulators| == |query.funcCalls| && |groups[a].ptValues| == |query.passThroughs|
    }

    /** Reads the whole base and splits it into groups; fails exactly if something
        cannot be evaluated. */
    method BufferGroups(base: ListScanner) returns (ok: bool)
      requires base.pos == 0 && groups == [] && nextGroup == 0 && Mapped()
      modifies this`groups, base`pos
      ensures ok ==> Valid()
      ensures ok && (base.rows != [] || !query.ungrouped) ==> GroupsAre(query, groups, RowsOf(base.rows))
      ensures ok && base.rows == [] && query.ungrouped ==> |groups| == 1 && GroupIs(query, groups[0], [])
      ensures ok <==> forall i :: 0 <= i < |base.rows| ==> Evaluates(query, RowsOf(base.rows), i)
    {
      hide GroupsAre, Indexed, RowsWith, FirstSeen, HasArgs, PassesThrough, Evaluates;
      var byKey: map<string, nat> := map[];
      var more := true;
      ghost var rows: seq<Row> := [];
      NothingGrouped(query);
      while more
        invariant base.pos <= |base.rows| && rows == RowsOf(base.rows)[..base.pos]
        invariant (!more ==> base.pos == |base.rows|)
        invariant GroupsAre(query, groups, rows) && Indexed(query, byKey, rows)
        invariant AllEvaluate(query, rows)
        decreases |base.rows| - base.pos, more
      {
        var e;
        e, more := base.Next();
        if more {
          ok, byKey := AddRow(e.row, byKey, rows);
          OneMoreEvaluates(query, RowsOf(base.rows), rows, e.row);
          if !ok {
            return;
          }
          rows := rows + [e.row];
        }
      }
      ok := true;
      assert rows == RowsOf(base.rows);
      EachEvaluates(query, rows);
      AllShaped(query, groups, rows);
      if |groups| == 0 && query.ungrouped {
        groups := [Group(NewAccumulators(), seq(|query.passThroughs|, _ => Null))];
      }
    }

    /** Puts one row into its group, opening it if its key is new. */
    method AddRow(row: Row, byKey: map<string, nat>, ghost rows: seq<Row>) returns (ok: bool, byKey': map<string, nat>)
      requires GroupsAre(query, groups, rows) && Indexed(query, byKey, rows)
      requires AllEvaluate(query, rows)
      modifies this`groups
      ensures ok <==> Evaluates(query, rows + [row], |rows|)
      ensures ok ==> GroupsAre(query, groups, rows + [row]) && Indexed(query, byKey', rows + [row])
    {
      hide GroupsAre, GroupIs, RowsWith, FirstSeen, HasArgs, PassesThrough;
      byKey' := byKey;
      EachEvaluates(query, rows);
      var key := GroupKey(query.groupExprs, query.other, row);
      if key.None? {
        return false, byKey';
      }
      ghost var k := key.value;
      ghost var groups0 := groups;
      KnownKeys(query, groups, rows, byKey, k);
      SeenBefore(query, rows, row, byKey);
      var gi := |groups|;
      var g;
      if key.value in byKey {
        gi := byKey[key.value];
        g := groups[gi];
      } else {
        byKey' := byKey[key.value := gi];
        ok, g := NewGroup(row);
        if !ok {
          return;
        }
        groups := groups + [g];
      }
      ok, g := Accumulate(g, row, RowsWith(query, rows, k));
      if ok {
        groups := groups[gi := g];
        GroupsGrow(query, groups0, groups, rows, row, k, gi, byKey, byKey');
      }
    }

    /** Fresh accumulators, and the passed-through values of the group's first row. */
    method NewGroup(row: Row) returns (ok: bool, g: Group)
      ensures ok <==> PassesThrough(query, row)
      ensures ok ==> AccumulatorsAre(query, g.accumulators, []) && PassedThrough(query, g.ptValues, row)
    {
      var pts: seq<Value> := [];
      g := Group(NewAccumulators(), []);
      var i := 0;
      while i < |query.passThroughs|
        invariant i <= |query.passThroughs| && |pts| == i
        invariant forall p :: 0 <= p < i ==> query.passThroughs[p](row) == Some(pts[p])
      {
        var val := query.passThroughs[i](row);
        if val.None? {
          return false, g;
        }
        pts := pts + [val.value];
        i := i + 1;
      }
      ok, g := true, Group(NewAccumulators(), pts);
    }

    function NewAccumulators(): (accs: seq<Accumulator>)
      ensures |accs| == |query.funcCalls|
      ensures forall f :: 0 <= f < |accs| ==> accs[f] == NewAccumulator(query.funcCalls[f].name)
    {
      seq(|query.funcCalls|, f requires 0 <= f < |query.funcCalls| => NewAccumulator(query.funcCalls[f].name))
    }

    /** Feeds one row to every accumulator of its group. */
    method Accumulate(g: Group, row: Row, ghost rows: seq<Row>) returns (ok: bool, g': Group)
      requires AccumulatorsAre(query, g.accumulators, rows)
      ensures ok <==> HasArgs(query, row)
      ensures ok ==> AccumulatorsAre(query, g'.accumulators, rows + [row]) && g'.ptValues == g.ptValues
    {
      hide Folded, ArgsOver, NewAccumulator, Updated;
      g' := g;
      var accs: seq<Accumulator> := [];
      var i := 0;
      while i < |query.funcCalls|
        invariant i <= |query.funcCalls| && |accs| == i
        invariant forall f :: 0 <= f < i ==> ArgOf(query.funcCalls[f], row).Some?
        invariant forall f :: 0 <= f < i ==>
          accs[f] ==
            Folded(NewAccumulator(query.funcCalls[f].name), ArgsOver(query.funcCalls[f], rows + [row]), query.ar)
      {
        var val := ArgOf(query.funcCalls[i], row);
        if val.None? {
          return false, g';
        }
        OneMoreFolded(query.funcCalls[i], rows, row, val.value, query.ar);
        accs := accs + [Updated(g.accumulators[i], val.value, query.ar)];
        i := i + 1;
      }
      ok, g' := true, g.(accumulators := accs);
    }

    /** The next group's row, in projection order; then the end. */
    method Next() returns (row: Row, ok: bool)
      requires Valid()
      modifies this`nextGroup
      ensures Valid() && (ok <==> old(nextGroup) < |groups|)
      ensures ok ==> nextGroup == old(nextGroup) + 1 && |row| == |outIsFunc|
      ensures ok ==> forall i :: 0 <= i < |row| ==>
        var g := groups[old(nextGroup)];
        row[i] == if outIsFunc[i] then Result(g.accumulators[outIdx[i]], query.ar) else g.ptValues[outIdx[i]]
      ensures !ok ==> nextGroup == old(nextGroup)
    {
      row, ok := [], false;
      if nextGroup >= |groups| {
        return;
      }
      var g := groups[nextGroup];
      nextGroup := nextGroup + 1;
      while |row| < |outIsFunc|
        invariant |row| <= |outIsFunc|
        invariant forall i :: 0 <= i < |row| ==> row[i] == Cell(g, i)
      {
        row := row + [Cell(g, |row|)];
      }
      ok := true;
    }

    /** Output column i of a group. */
    function Cell(g: Group, i: nat): Value
      requires Mapped() && i < |outIsFunc|
      requires |g.accumulators| == |query.funcCalls| && |g.ptValues| == |query.passThroughs|
    {
      if outIsFunc[i] then Result(g.accumulators[outIdx[i]], query.ar) else g.ptValues[outIdx[i]]
    }
  }

  /** A sum over nothing is the float zero, an average over nothing is null. */
  function Result(a: Accumulator, ar: Arithmetic): Value {
    match a
    case Count(n) => Int(n)
    case MinMax(_, val) => val
    case Sum(sum) => if sum == Null then Real(0) else sum
    case Avg(total, n) => if n == 0 then Null else Real(ar.divide(total, ar.ofInt(n)))
  }

  lemma NothingGrouped(q: Query)
    ensures GroupsAre(q, [], []) && Indexed(q, map[], [])
  {
  }

  lemma AllShaped(q: Query, groups: seq<Group>, rows: seq<Row>)
    requires GroupsAre(q, groups, rows)
    ensures forall a :: 0 <= a < |groups| ==>
      |groups[a].accumulators| == |q.funcCalls| && |groups[a].ptValues| == |q.passThroughs|
    ensures rows == [] ==> groups == []
    ensures rows != [] && KeyOf(q, rows[|rows| - 1]).Some? ==> groups != []
  {
    hide Folded, ArgsOver, RowsWith;
  }

  lemma SeenBefore(q: Query, rows: seq<Row>, row: Row, byKey: map<string, nat>)
    requires AllEvaluate(q, rows) && Indexed(q, byKey, rows) && KeyOf(q, row).Some?
    ensures KeyOf(q, row).value in byKey <==> exists k :: 0 <= k < |rows| && KeyOf(q, rows[k]) == KeyOf(q, row)
    ensures var rows' := rows + [row];
      (exists k :: 0 <= k < |rows| && KeyOf(q, rows[k]) == KeyOf(q, row)) <==>
      (exists k :: 0 <= k < |rows| && KeyOf(q, rows'[k]) == KeyOf(q, rows'[|rows|]))
  {
    hide KeyOf, HasArgs, PassesThrough;
    EachEvaluates(q, rows);
    FirstSeenIs(q, rows);
    FirstSeenOccurs(q, rows, KeyOf(q, row).value);
    var rows' := rows + [row];
    assert rows'[|rows|] == row && forall k :: 0 <= k < |rows| ==> rows'[k] == rows[k];
  }

  lemma {:induction false} FirstSeenOccurs(q: Query, rows: seq<Row>, key: string)
    ensures key in FirstSeen(q, rows) ==> exists k :: 0 <= k < |rows| && KeyOf(q, rows[k]) == Some(key)
  {
    hide KeyOf;
    if rows != [] {
      var n := |rows| - 1;
      FirstSeenOccurs(q, rows[..n], key);
      if k :| 0 <= k < n && KeyOf(q, rows[..n][k]) == Some(key) {
        assert KeyOf(q, rows[k]) == Some(key);
      }
    }
  }

  lemma KnownKeys(q: Query, groups: seq<Group>, rows: seq<Row>, byKey: map<string, nat>, k: string)
    requires GroupsAre(q, groups, rows) && Indexed(q, byKey, rows)
    requires forall i :: 0 <= i < |rows| ==> KeyOf(q, rows[i]).Some?
    ensures k in byKey ==>
      byKey[k] < |groups| && AccumulatorsAre(q, groups[byKey[k]].accumulators, RowsWith(q, rows, k))
    ensures k !in byKey ==> RowsWith(q, rows, k) == []
  {
    hide RowsWith, FirstSeen, AccumulatorsAre;
    FirstSeenIs(q, rows);
    if k in byKey {
      assert GroupIs(q, groups[byKey[k]], RowsWith(q, rows, FirstSeen(q, rows)[byKey[k]]));
    }
  }

  /** A row joined its group; every other group is as it was. */
  lemma GroupsGrow(q: Query, groups: seq<Group>, groups': seq<Group>, rows: seq<Row>, row: Row, k: string, gi: nat,
                   byKey: map<string, nat>, byKey': map<string, nat>)
    requires GroupsAre(q, groups, rows) && Indexed(q, byKey, rows) && KeyOf(q, row) == Some(k)
    requires forall i :: 0 <= i < |rows| ==> KeyOf(q, rows[i]).Some?
    requires if k in byKey then gi == byKey[k] && byKey' == byKey else gi == |groups| && byKey' == byKey[k := gi]
    requires |groups'| == (if k in byKey then |groups| else |groups| + 1)
    requires forall a :: 0 <= a < |groups| && a != gi ==> groups'[a] == groups[a]
    requires gi < |groups'| && AccumulatorsAre(q, groups'[gi].accumulators, RowsWith(q, rows, k) + [row])
    requires if k in byKey then gi < |groups| && groups'[gi].ptValues == groups[gi].ptValues
      else PassedThrough(q, groups'[gi].ptValues, row)
    ensures GroupsAre(q, groups', rows + [row]) && Indexed(q, byKey', rows + [row])
  {
    hide RowsWith, FirstSeen, AccumulatorsAre, PassedThrough, Indexed;
    RowAdded(q, rows, row, k);
    KeysGrow(q, rows, row, k, gi, byKey, byKey');
    KeysApart(q, rows, k, gi, byKey);
    var keys, keys' := FirstSeen(q, rows), FirstSeen(q, rows + [row]);
    forall a | 0 <= a < |groups'|
      ensures GroupIs(q, groups'[a], RowsWith(q, rows + [row], keys'[a]))
    {
      if a < |groups| {
        assert GroupIs(q, groups[a], RowsWith(q, rows, keys[a]));
      }
      if a == gi {
        PassedSize(q, groups'[gi].ptValues, row);
      }
    }
  }

  /** The row's group is found under its key afterwards, the others as before. */
  lemma KeysGrow(q: Query, rows: seq<Row>, row: Row, k: string, gi: nat, byKey: map<string, nat>,
                 byKey': map<string, nat>)
    requires Indexed(q, byKey, rows) && KeyOf(q, row) == Some(k)
    requires if k in byKey then gi == byKey[k] && byKey' == byKey
      else gi == |FirstSeen(q, rows)| && byKey' == byKey[k := gi]
    ensures Indexed(q, byKey', rows + [row])
    ensures var keys, keys' := FirstSeen(q, rows), FirstSeen(q, rows + [row]);
      && |keys'| == (if k in byKey then |keys| else |keys| + 1) && gi < |keys'| && keys'[gi] == k
      && (forall a :: 0 <= a < |keys| ==> keys'[a] == keys[a])
  {
    hide RowsWith, FirstSeen;
    RowAdded(q, rows, row, k);
  }

  lemma KeysApart(q: Query, rows: seq<Row>, k: string, gi: nat, byKey: map<string, nat>)
    requires Indexed(q, byKey, rows) && forall i :: 0 <= i < |rows| ==> KeyOf(q, rows[i]).Some?
    requires if k in byKey then gi == byKey[k] else gi == |FirstSeen(q, rows)|
    ensures forall a :: 0 <= a < |FirstSeen(q, rows)| && a != gi ==> FirstSeen(q, rows)[a] != k
    ensures k in byKey <==> RowsWith(q, rows, k) != []
  {
    hide RowsWith, FirstSeen;
    FirstSeenIs(q, rows);
  }

  lemma PassedSize(q: Query, values: seq<Value>, row: Row)
    ensures PassedThrough(q, values, row) ==> |values| == |q.passThroughs|
  {
  }

  lemma ArgsGrow(fc: FuncCall, rows: seq<Row>, row: Row, v: Value)
    requires ArgOf(fc, row) == Some(v)
    ensures ArgsOver(fc, rows + [row]) == ArgsOver(fc, rows) + [v]
  {
    hide ArgOf;
    assert (rows + [row])[..|rows|] == rows;
  }

  lemma FoldGrows(a: Accumulator, vs: seq<Value>, v: Value, ar: Arithmetic)
    ensures Folded(a, vs + [v], ar) == Updated(Folded(a, vs, ar), v, ar)
  {
    hide Updated;
    assert (vs + [v])[..|vs|] == vs;
  }

  lemma OneMoreFolded(fc: FuncCall, rows: seq<Row>, row: Row, v: Value, ar: Arithmetic)
    requires ArgOf(fc, row) == Some(v)
    ensures Folded(NewAccumulator(fc.name), ArgsOver(fc, rows + [row]), ar) ==
      Updated(Folded(NewAccumulator(fc.name), ArgsOver(fc, rows), ar), v, ar)
  {
    hide Updated, NewAccumulator, ArgOf, Folded, ArgsOver;
    ArgsGrow(fc, rows, row, v);
    FoldGrows(NewAccumulator(fc.name), ArgsOver(fc, rows), v, ar);
  }
}
