/** The nested-loop join: a pull scanner that yields, row by row, exactly the
    relational join, null-padded rows included. */
module Joins {
  import opened Options
  import opened Bytes
  import opened Rows

  /** A row with its key; rows of the right side have lost theirs. */
  datatype Entry = Entry(key: Option<Bytes>, row: Row)

  /** The ON expression over a combined row: null does not match; an evaluation
      error or a value that is not a boolean fails. */
  datatype OnResult = Yes | No | Unknown | Failed

  datatype Output = Emit(key: Option<Bytes>, row: Row) | Error | End

  /* ---- what the join is ---- */

  datatype Input = Input(
    left: seq<Entry>,
    right: seq<Row>,
    on: Row -> OnResult,
    emitLeft: bool,
    emitRight: bool,
    leftCols: nat,
    rightCols: nat)

  /** Where an output comes from: a pair of rows, a failing pair, or one row
      padded with nulls. */
  datatype Source = Both(i: nat, k: nat) | Failing(i: nat, k: nat) | LeftOnly(i: nat) | RightOnly(k: nat)

  function Nulls(n: nat): (row: Row)
    ensures |row| == n && forall i :: 0 <= i < n ==> row[i] == Null
  {
    seq(n, _ => Null)
  }

  predicate InBounds(s: Source, j: Input) {
    match s
    case Both(i, k) => i < |j.left| && k < |j.right|
    case Failing(i, k) => i < |j.left| && k < |j.right|
    case LeftOnly(i) => i < |j.left|
    case RightOnly(k) => k < |j.right|
  }

  function Render(s: Source, j: Input): Output
    requires InBounds(s, j)
  {
    match s
    case Both(i, k) => Emit(j.left[i].key, j.left[i].row + j.right[k])
    case Failing(_, _) => Error
    case LeftOnly(i) => Emit(j.left[i].key, j.left[i].row + Nulls(j.rightCols))
    case RightOnly(k) => Emit(None, Nulls(j.leftCols) + j.right[k])
  }

  function On(j: Input, i: nat, k: nat): OnResult
    requires i < |j.left| && k < |j.right|
  {
    j.on(j.left[i].row + j.right[k])
  }

  predicate LeftMatches(j: Input, i: nat, n: nat)
    requires i < |j.left| && n <= |j.right|
  {
    exists k :: 0 <= k < n && On(j, i, k) == Yes
  }

  predicate RightMatches(j: Input, k: nat)
    requires k < |j.right|
  {
    exists i :: 0 <= i < |j.left| && On(j, i, k) == Yes
  }

  /** A left row is padded when nothing matched it, unless its very last pair
      failed: the scanner then goes straight to the next left row. */
  predicate Padded(j: Input, i: nat)
    requires i < |j.left|
  {
    j.emitLeft && !LeftMatches(j, i, |j.right|) && (j.right == [] || On(j, i, |j.right| - 1) != Failed)
  }

  /** Which sources the join has, for every input. */
  predicate Belongs(s: Source, j: Input) {
    InBounds(s, j) &&
    match s
    case Both(i, k) => On(j, i, k) == Yes
    case Failing(i, k) => On(j, i, k) == Failed
    case LeftOnly(i) => Padded(j, i)
    case RightOnly(k) => j.emitRight && !RightMatches(j, k)
  }

  /** Left rows in order, each with its right rows in order and its padded row
      last; then the right rows. */
  predicate Before(s: Source, t: Source) {
    match s
    case RightOnly(k) => t.RightOnly? && k < t.k
    case LeftOnly(i) => t.RightOnly? || i < t.i
    case _ => t.RightOnly? || s.i < t.i || (s.i == t.i && (t.LeftOnly? || s.k < t.k))
  }

  ghost predicate IsJoin(p: seq<Source>, j: Input) {
    && (forall a, b :: 0 <= a < b < |p| ==> Before(p[a], p[b]))
    && (forall s :: s in p <==> Belongs(s, j))
  }

  /* ---- the same, as a plan that can be followed ---- */

  function PairPlan(j: Input, i: nat, k: nat): (p: seq<Source>)
    requires i < |j.left| && k <= |j.right|
    decreases |j.right| - k
  {
    if k == |j.right| then []
    else
      (if On(j, i, k) == Yes then [Both(i, k)]
       else if On(j, i, k) == Failed then [Failing(i, k)]
       else [])
      + PairPlan(j, i, k + 1)
  }

  function PadPlan(j: Input, i: nat): seq<Source>
    requires i < |j.left|
  {
    if Padded(j, i) then [LeftOnly(i)] else []
  }

  function LeftPlan(j: Input, i: nat): seq<Source>
    requires i <= |j.left|
    decreases |j.left| - i
  {
    if i == |j.left| then [] else PairPlan(j, i, 0) + PadPlan(j, i) + LeftPlan(j, i + 1)
  }

  function RightPlan(j: Input, k: nat): seq<Source>
    requires k <= |j.right|
    decreases |j.right| - k
  {
    if k == |j.right| || !j.emitRight then []
    else (if RightMatches(j, k) then [] else [RightOnly(k)]) + RightPlan(j, k + 1)
  }

  function Plan(j: Input): seq<Source> {
    LeftPlan(j, 0) + RightPlan(j, 0)
  }

  ghost predicate Ascending(p: seq<Source>) {
    forall a, b :: 0 <= a < b < |p| ==> Before(p[a], p[b])
  }

  lemma AscendingJoins(p: seq<Source>, q: seq<Source>)
    requires Ascending(p) && Ascending(q) && forall s, t :: s in p && t in q ==> Before(s, t)
    ensures Ascending(p + q)
  {
    hide Before;
    forall a, b | 0 <= a < b < |p + q|
      ensures Before((p + q)[a], (p + q)[b])
    {
      if a < |p| && |p| <= b {
        assert p[a] in p && q[b - |p|] in q;
      }
    }
  }

  lemma {:induction false} PairPlanIs(j: Input, i: nat, k: nat)
    requires i < |j.left| && k <= |j.right|
    ensures Ascending(PairPlan(j, i, k))
    ensures forall s :: s in PairPlan(j, i, k) <==> Belongs(s, j) && (s.Both? || s.Failing?) && s.i == i && k <= s.k
    decreases |j.right| - k
  {
    if k < |j.right| {
      PairPlanIs(j, i, k + 1);
      var here := if On(j, i, k) == Yes then [Both(i, k)] else if On(j, i, k) == Failed then [Failing(i, k)] else [];
      AscendingJoins(here, PairPlan(j, i, k + 1));
    }
  }

  lemma {:induction false} LeftPlanIs(j: Input, i: nat)
    requires i <= |j.left|
    ensures Ascending(LeftPlan(j, i))
    ensures forall s :: s in LeftPlan(j, i) <==> Belongs(s, j) && !s.RightOnly? && i <= s.i
    decreases |j.left| - i
  {
    hide On, LeftMatches, RightMatches;
    if i < |j.left| {
      LeftPlanIs(j, i + 1);
      RowPlanIs(j, i);
      LeftPlanStep(j, i, PairPlan(j, i, 0) + PadPlan(j, i), LeftPlan(j, i + 1));
    }
  }

  lemma LeftPlanStep(j: Input, i: nat, row: seq<Source>, rest: seq<Source>)
    requires Ascending(row) && Ascending(rest)
    requires forall s :: s in row <==> Belongs(s, j) && !s.RightOnly? && s.i == i
    requires forall s :: s in rest <==> Belongs(s, j) && !s.RightOnly? && i + 1 <= s.i
    ensures Ascending(row + rest)
    ensures forall s :: s in row + rest <==> Belongs(s, j) && !s.RightOnly? && i <= s.i
  {
    hide Belongs, Ascending;
    AscendingJoins(row, rest);
  }

  lemma RowPlanIs(j: Input, i: nat)
    requires i < |j.left|
    ensures Ascending(PairPlan(j, i, 0) + PadPlan(j, i))
    ensures forall s :: s in PairPlan(j, i, 0) + PadPlan(j, i) <==> Belongs(s, j) && !s.RightOnly? && s.i == i
  {
    hide Padded, On, PairPlan;
    PairPlanIs(j, i, 0);
    AscendingJoins(PairPlan(j, i, 0), PadPlan(j, i));
  }

  lemma {:induction false} RightPlanIs(j: Input, k: nat)
    requires k <= |j.right|
    ensures Ascending(RightPlan(j, k))
    ensures forall s :: s in RightPlan(j, k) <==> Belongs(s, j) && s.RightOnly? && k <= s.k
    decreases |j.right| - k
  {
    hide RightMatches;
    if k < |j.right| && j.emitRight {
      RightPlanIs(j, k + 1);
      AscendingJoins(if RightMatches(j, k) then [] else [RightOnly(k)], RightPlan(j, k + 1));
    }
  }

  /** Following the plan gives the join: every source once, in order, and no other. */
  lemma PlanIsJoin(j: Input)
    ensures IsJoin(Plan(j), j)
  {
    hide Belongs;
    LeftPlanIs(j, 0);
    RightPlanIs(j, 0);
    AscendingJoins(LeftPlan(j, 0), RightPlan(j, 0));
  }

  /** The join has no other order and no other rows. */
  lemma {:induction false} JoinUnique(p: seq<Source>, q: seq<Source>)
    requires Ascending(p) && Ascending(q) && forall s :: s in p <==> s in q
    ensures p == q
  {
    hide Before;
    if p == [] || q == [] {
      FirstIn(p);
      FirstIn(q);
    } else {
      FirstIn(p);
      FirstIn(q);
      SameFirst(p, q);
      forall s
        ensures s in p[1..] <==> s in q[1..]
      {
        InRest(p, s);
        InRest(q, s);
      }
      JoinUnique(p[1..], q[1..]);
      assert p == [p[0]] + p[1..] && q == [q[0]] + q[1..];
    }
  }

  lemma FirstIn(p: seq<Source>)
    ensures p != [] ==> p[0] in p
  {
  }

  lemma SameFirst(p: seq<Source>, q: seq<Source>)
    requires p != [] && q != [] && Ascending(p) && Ascending(q) && p[0] in q && q[0] in p
    ensures p[0] == q[0]
  {
    var a :| 0 <= a < |p| && p[a] == q[0];
    var b :| 0 <= b < |q| && q[b] == p[0];
    assert a > 0 ==> Before(p[0], q[0]);
    assert b > 0 ==> Before(q[0], p[0]);
  }

  lemma InRest(p: seq<Source>, s: Source)
    requires p != [] && Ascending(p)
    ensures s in p[1..] <==> s in p && s != p[0]
  {
    if s in p && s != p[0] {
      var a :| 0 <= a < |p| && p[a] == s;
      assert p[1..][a - 1] == s;
    }
    if s in p[1..] {
      var a :| 0 <= a < |p[1..]| && p[1..][a] == s;
      assert p[a + 1] == s && Before(p[0], p[a + 1]);
    }
  }

  /* ---- the scanner ---- */

  /** A finite source of rows that stays ended. */
  class ListScanner {
    const rows: seq<Entry>
    var pos: nat

    constructor (rows: seq<Entry>)
      ensures this.rows == rows && pos == 0
    {
      this.rows, pos := rows, 0;
    }

    method Next() returns (e: Entry, ok: bool)
      modifies this`pos
      ensures ok <==> old(pos) < |rows|
      ensures if ok then e == rows[old(pos)] && pos == old(pos) + 1 else pos == old(pos)
    {
      ok := pos < |rows|;
      e := Entry(None, []);
      if ok {
        e, pos := rows[pos], pos + 1;
      }
    }
  }

  function RowsOf(entries: seq<Entry>): (rows: seq<Row>)
    ensures |rows| == |entries| && forall i :: 0 <= i < |rows| ==> rows[i] == entries[i].row
  {
    seq(|entries|, i requires 0 <= i < |entries| => entries[i].row)
  }

  /** Some left row among the first lpos, the last of them only up to right row
      idx, has matched right row k. */
  ghost predicate MatchedSoFar(j: Input, k: nat, lpos: nat, idx: nat)
    requires k < |j.right| && lpos <= |j.left|
  {
    exists i :: 0 <= i < lpos && (i + 1 < lpos || k < idx) && On(j, i, k) == Yes
  }

  ghost predicate StateOk(j: Input, lpos: nat, idx: nat, needsNew: bool, leftMatched: bool, matched: seq<bool>,
                          unmatched: nat) {
    && lpos <= |j.left| && idx <= |j.right| == |matched| && unmatched <= |j.right|
    && (needsNew ==> lpos == 0 || idx == |j.right|)
    && (!needsNew ==> lpos > 0 && (leftMatched <==> LeftMatches(j, lpos - 1, idx)))
    && (forall k :: 0 <= k < |matched| ==> (matched[k] <==> MatchedSoFar(j, k, lpos, idx)))
    && (unmatched > 0 ==> lpos == |j.left| && (needsNew || idx == |j.right|))
  }

  /** What is left to yield in the middle of a left row. */
  ghost function MidLeft(j: Input, lpos: nat, idx: nat, unmatched: nat): seq<Source>
    requires 0 < lpos <= |j.left| && idx <= |j.right| && unmatched <= |j.right|
  {
    PairPlan(j, lpos - 1, idx) + PadPlan(j, lpos - 1) + LeftPlan(j, lpos) + RightPlan(j, unmatched)
  }

  /** What is left to yield between two calls. */
  ghost function Remaining(j: Input, lpos: nat, idx: nat, needsNew: bool, unmatched: nat): seq<Source>
    requires lpos <= |j.left| && idx <= |j.right| && unmatched <= |j.right| && (!needsNew ==> lpos > 0)
  {
    if needsNew || idx == |j.right| then LeftPlan(j, lpos) + RightPlan(j, unmatched)
    else MidLeft(j, lpos, idx, unmatched)
  }

  /** One output is the first remaining source, or the end when there is none. */
  ghost predicate Yields(j: Input, before: seq<Source>, out: Output, after: seq<Source>) {
    if before == [] then out == End && after == []
    else InBounds(before[0], j) && out == Render(before[0], j) && after == before[1..]
  }

  class JoinScanner {
    const left: ListScanner
    const right: ListScanner
    const onExpr: Row -> OnResult
    const emitLeftUnmatched: bool
    const emitRightUnmatched: bool
    const leftColCount: nat
    const rightColCount: nat
    var rightRows: seq<Row>
    var rightIdx: nat
    var matchedRight: seq<bool>
    var rightUnmatched: nat
    var currentLeft: Entry
    var leftMatched: bool
    var needsNewLeft: bool

    constructor (left: ListScanner, right: ListScanner, onExpr: Row -> OnResult, emitLeft: bool, emitRight: bool,
                 leftCols: nat, rightCols: nat)
      requires left != right && left.pos == 0 && right.pos == 0
      ensures Valid() && Rest() == Plan(Joined()) && this.left == left && this.right == right
      ensures Joined() == Input(left.rows, RowsOf(right.rows), onExpr, emitLeft, emitRight, leftCols, rightCols)
    {
      this.left, this.right, this.onExpr := left, right, onExpr;
      emitLeftUnmatched, emitRightUnmatched, leftColCount, rightColCount := emitLeft, emitRight, leftCols, rightCols;
      rightRows, rightIdx, matchedRight, rightUnmatched := [], 0, [], 0;
      currentLeft, leftMatched, needsNewLeft := Entry(None, []), false, true;
    }

    ghost function Joined(): Input {
      Input(left.rows, RowsOf(right.rows), onExpr, emitLeftUnmatched, emitRightUnmatched, leftColCount, rightColCount)
    }

    ghost predicate Loaded()
      reads this
    {
      rightRows == RowsOf(right.rows)
    }

    ghost predicate Valid()
      reads this, left, right
    {
      && left != right
      && (!Loaded() ==> rightRows == [] && left.pos == right.pos == rightIdx == rightUnmatched == 0 && needsNewLeft)
      && (Loaded() ==> right.pos == |right.rows| && Going() && rightRows == Joined().right)
    }

    ghost predicate Going()
      reads this, left
    {
      && StateOk(Joined(), left.pos, rightIdx, needsNewLeft, leftMatched, matchedRight, rightUnmatched)
      && (!needsNewLeft ==> 0 < left.pos <= |left.rows| && currentLeft == left.rows[left.pos - 1])
    }

    /** What this scanner has still to yield. */
    ghost function Rest(): seq<Source>
      requires Valid()
      reads this, left, right
    {
      if Loaded() then Remaining(Joined(), left.pos, rightIdx, needsNewLeft, rightUnmatched) else Plan(Joined())
    }

    /** Buffers the right side, once; an empty one is asked again every time. */
    method LoadRightRows()
      requires Valid()
      modifies this`rightRows, this`matchedRight, right`pos
      ensures Valid() && Loaded() && Rest() == old(Rest())
    {
      if rightRows != [] {
        return;
      }
      ghost var start := right.pos;
      var ok := true;
      while ok
        invariant start <= right.pos <= |right.rows| && |rightRows| == right.pos - start
        invariant forall i :: 0 <= i < |rightRows| ==> rightRows[i] == right.rows[start + i].row
        invariant !ok ==> right.pos == |right.rows|
        decreases |right.rows| - right.pos, ok
      {
        var e;
        e, ok := right.Next();
        if ok {
          rightRows := rightRows + [e.row];
        }
      }
      matchedRight := seq(|rightRows|, _ => false);
    }

    /** Tries the rest of the right side against the current left row; End says
        that nothing more matched. */
    method ScanRight() returns (out: Output)
      requires Loaded() && Going() && rightRows == Joined().right && !needsNewLeft
      requires rightIdx < |rightRows| || rightRows == []
      modifies this`rightIdx, this`matchedRight, this`leftMatched
      ensures Going() && rightIdx <= |rightRows|
      ensures out == End ==> rightIdx == |rightRows| && PairPlan(Joined(), left.pos - 1, old(rightIdx)) == []
      ensures out == End ==> rightRows == [] || On(Joined(), left.pos - 1, |rightRows| - 1) != Failed
      ensures out != End ==> var pairs := PairPlan(Joined(), left.pos - 1, old(rightIdx));
        pairs != [] && InBounds(pairs[0], Joined()) && out == Render(pairs[0], Joined()) &&
        PairPlan(Joined(), left.pos - 1, rightIdx) == pairs[1..] &&
        (rightIdx == |rightRows| ==> PadPlan(Joined(), left.pos - 1) == [])
    {
      hide StateOk, PadPlan, Padded, LeftMatches, RowsOf, PairPlan, Render, InBounds;
      ghost var j, i := Joined(), left.pos - 1;
      KnownState(j, left.pos, rightIdx, needsNewLeft, leftMatched, matchedRight, rightUnmatched);
      ghost var pairs := PairPlan(j, i, rightIdx);
      while rightIdx < |rightRows|
        invariant Going() && old(rightIdx) <= rightIdx <= |rightRows| && PairPlan(j, i, rightIdx) == pairs
        invariant rightIdx > old(rightIdx) ==> On(j, i, rightIdx - 1) != Failed
      {
        ghost var k, was := rightIdx, matchedRight;
        var rightRow := rightRows[rightIdx];
        rightIdx := rightIdx + 1;
        var combined := currentLeft.row + rightRow;
        var val := onExpr(combined);
        assert val == On(j, i, k) && combined == j.left[i].row + j.right[k];
        PairHeads(j, i, k);
        if val == Failed {
          PairTried(j, left.pos, k, leftMatched, was, rightUnmatched);
          NotPadded(j, i, k);
          return Error;
        }
        if val == Yes {
          KnownState(j, left.pos, k, needsNewLeft, leftMatched, was, rightUnmatched);
          matchedRight := matchedRight[rightIdx - 1 := true];
          PairTried(j, left.pos, k, leftMatched, was, rightUnmatched);
          leftMatched := true;
          NotPadded(j, i, k);
          return Emit(currentLeft.key, combined);
        }
        PairTried(j, left.pos, k, leftMatched, was, rightUnmatched);
      }
      NoPairs(j, i);
      out := End;
    }

    /** After the left side ended: the right rows nothing matched. */
    method EmitUnmatchedRight() returns (out: Output)
      requires Loaded() && Going() && rightRows == Joined().right
      requires left.pos == |left.rows| && (needsNewLeft || rightIdx == |rightRows|)
      modifies this`rightUnmatched
      ensures Going()
      ensures Yields(Joined(), RightPlan(Joined(), old(rightUnmatched)), out, RightPlan(Joined(), rightUnmatched))
    {
      hide StateOk, RightMatches, RowsOf, LeftPlan, PairPlan, PadPlan, Nulls, LeftMatches, RightPlan, Yields;
      ghost var j := Joined();
      KnownState(j, left.pos, rightIdx, needsNewLeft, leftMatched, matchedRight, rightUnmatched);
      ghost var rest := RightPlan(j, rightUnmatched);
      if !emitRightUnmatched {
        NoneRight(j, rightUnmatched);
        return End;
      }
      while rightUnmatched < |rightRows|
        invariant Going() && rightUnmatched <= |rightRows| == |matchedRight| && RightPlan(j, rightUnmatched) == rest
        decreases |rightRows| - rightUnmatched
      {
        var row := rightRows[rightUnmatched];
        RightDecided(j, left.pos, rightIdx, needsNewLeft, leftMatched, matchedRight, rightUnmatched);
        RightHead(j, rightUnmatched);
        rightUnmatched := rightUnmatched + 1;
        if matchedRight[rightUnmatched - 1] {
          continue;
        }
        return Emit(None, NullPadLeft(leftColCount, row));
      }
      NoneRight(j, rightUnmatched);
      out := End;
    }

    static function NullPadLeft(leftCols: nat, row: Row): Row {
      Nulls(leftCols) + row
    }

    static function NullPadRight(row: Row, rightCols: nat): Row {
      row + Nulls(rightCols)
    }

    /** Takes the next left row. */
    method FetchLeft() returns (ok: bool)
      requires Loaded() && Going() && (needsNewLeft || rightIdx == |Joined().right|)
      modifies this`currentLeft, this`rightIdx, this`leftMatched, this`needsNewLeft, left`pos
      ensures ok <==> old(left.pos) < |left.rows|
      ensures !ok ==> left.pos == old(left.pos) && unchanged(this)
      ensures ok ==> Going() && !needsNewLeft && rightIdx == 0 && left.pos == old(left.pos) + 1
      ensures ok ==> var j := Joined();
        LeftPlan(j, old(left.pos)) + RightPlan(j, rightUnmatched) == MidLeft(j, left.pos, 0, rightUnmatched)
    {
      hide StateOk, PairPlan, LeftPlan, RightPlan, PadPlan, RowsOf, MidLeft;
      ghost var j, lpos := Joined(), left.pos;
      KnownState(j, lpos, rightIdx, needsNewLeft, leftMatched, matchedRight, rightUnmatched);
      var e;
      e, ok := left.Next();
      if ok {
        LeftFetched(j, lpos, rightIdx, needsNewLeft, leftMatched, matchedRight, rightUnmatched);
        currentLeft := e;
        rightIdx := 0;
        leftMatched := false;
        needsNewLeft := false;
      }
    }

    /** Goes on with the current left row: a match, a failure or its padded row;
        End when there is nothing (more) of it. */
    method ContinueLeft() returns (out: Output)
      requires Loaded() && Going() && rightRows == Joined().right && !needsNewLeft
      requires rightIdx < |rightRows| || rightRows == []
      modifies this`rightIdx, this`matchedRight, this`leftMatched, this`needsNewLeft
      ensures Going() && (out == End ==> needsNewLeft && rightIdx == |rightRows|)
      ensures var before := MidLeft(Joined(), left.pos, old(rightIdx), rightUnmatched);
              var after := Remaining(Joined(), left.pos, rightIdx, needsNewLeft, rightUnmatched);
        if out == End then after == before else before != [] && Yields(Joined(), before, out, after)
    {
      hide StateOk, PairPlan, LeftPlan, RightPlan, PadPlan, Padded, RowsOf, RightMatches, LeftMatches, MidLeft;
      ghost var j, idx := Joined(), rightIdx;
      KnownState(j, left.pos, rightIdx, needsNewLeft, leftMatched, matchedRight, rightUnmatched);
      out := ScanRight();
      if out != End {
        PairYielded(j, left.pos, idx, rightIdx, rightUnmatched, out);
        return;
      }
      PadDecided(j, left.pos, idx, rightIdx, needsNewLeft, leftMatched, matchedRight, rightUnmatched);
      if !leftMatched && emitLeftUnmatched {
        return Emit(currentLeft.key, NullPadRight(currentLeft.row, rightColCount));
      }
      needsNewLeft := true;
      RowDone(j, left.pos, leftMatched, matchedRight, rightUnmatched);
    }

    /** Yields the next output of the join, and the end forever after. */
    method Next() returns (out: Output)
      requires Valid()
      modifies this, left`pos, right`pos
      ensures Valid() && Yields(Joined(), old(Rest()), out, Rest())
    {
      hide StateOk, PairPlan, LeftPlan, RightPlan, PadPlan, RowsOf, MidLeft, Yields;
      LoadRightRows();
      ghost var j, rest := Joined(), Rest();
      while true
        invariant Valid() && Loaded() && Rest() == rest
        decreases |left.rows| - left.pos, !needsNewLeft && rightIdx < |rightRows|
      {
        KnownState(j, left.pos, rightIdx, needsNewLeft, leftMatched, matchedRight, rightUnmatched);
        if needsNewLeft || rightIdx >= |rightRows| {
          var ok := FetchLeft();
          if !ok {
            NoLeftRows(j, left.pos, rightUnmatched);
            out := EmitUnmatchedRight();
            KnownState(j, left.pos, rightIdx, needsNewLeft, leftMatched, matchedRight, rightUnmatched);
            NoLeftRows(j, left.pos, rightUnmatched);
            return;
          }
        }
        out := ContinueLeft();
        if out != End {
          return;
        }
      }
    }
  }

  /* ---- column by column ---- */

  /** Rows have the columns of their side. */
  predicate HasWidths(j: Input) {
    && (forall i :: 0 <= i < |j.left| ==> |j.left[i].row| == j.leftCols)
    && (forall k :: 0 <= k < |j.right| ==> |j.right[k]| == j.rightCols)
  }

  /** Every row of the join has the columns of the left side and then those of the
      right side. The left ones are null only where a right row is without a match,
      and else come with its key from the left row; the right ones are null only
      where a left row is without one. A failing pair is an error. */
  lemma EmittedColumns(j: Input, n: nat)
    requires HasWidths(j) && n < |Plan(j)|
    ensures var s := Plan(j)[n];
      InBounds(s, j) &&
      match Render(s, j)
      case Emit(key, row) =>
        && !s.Failing? && |row| == j.leftCols + j.rightCols
        && key == (if s.RightOnly? then None else j.left[s.i].key)
        && (forall c :: 0 <= c < j.leftCols ==> row[c] == if s.RightOnly? then Null else j.left[s.i].row[c])
        && (forall c :: 0 <= c < j.rightCols ==>
              row[j.leftCols + c] == if s.LeftOnly? then Null else j.right[s.k][c])
      case Error => s.Failing?
      case End => false
  {
    hide Belongs, Plan;
    PlanIsJoin(j);
    assert Plan(j)[n] in Plan(j);
    BelongsInside(Plan(j)[n], j);
  }

  lemma BelongsInside(s: Source, j: Input)
    requires Belongs(s, j)
    ensures InBounds(s, j)
  {
  }

  /** row has the values of p and then those of q. */
  predicate Combines(row: Row, p: Row, q: Row) {
    && |row| == |p| + |q|
    && (forall c :: 0 <= c < |p| ==> row[c] == p[c])
    && (forall c :: 0 <= c < |q| ==> row[|p| + c] == q[c])
  }

  /** Two rows are joined exactly if ON holds of the left values and then the right
      ones, and fail exactly if it fails of them. */
  lemma PairsAreJoined(j: Input, i: nat, k: nat, row: Row)
    requires i < |j.left| && k < |j.right| && Combines(row, j.left[i].row, j.right[k])
    ensures Both(i, k) in Plan(j) <==> j.on(row) == Yes
    ensures Failing(i, k) in Plan(j) <==> j.on(row) == Failed
  {
    hide Plan;
    PlanIsJoin(j);
    assert row == j.left[i].row + j.right[k];
    assert Both(i, k) in Plan(j) <==> Belongs(Both(i, k), j);
    assert Failing(i, k) in Plan(j) <==> Belongs(Failing(i, k), j);
  }

  /** A row is padded exactly if its side is asked for and it is in no pair; a left
      row whose last pair failed is not. */
  lemma LonelyArePadded(j: Input, i: nat, k: nat)
    requires i < |j.left| && k < |j.right|
    ensures LeftOnly(i) in Plan(j) <==>
      && j.emitLeft && Failing(i, |j.right| - 1) !in Plan(j)
      && (forall m: nat :: m < |j.right| ==> Both(i, m) !in Plan(j))
    ensures RightOnly(k) in Plan(j) <==>
      j.emitRight && forall m: nat :: m < |j.left| ==> Both(m, k) !in Plan(j)
  {
    hide Plan, On;
    PlanIsJoin(j);
    assert LeftOnly(i) in Plan(j) <==> Belongs(LeftOnly(i), j);
    assert RightOnly(k) in Plan(j) <==> Belongs(RightOnly(k), j);
    assert Failing(i, |j.right| - 1) in Plan(j) <==> Belongs(Failing(i, |j.right| - 1), j);
    forall m: nat | m < |j.right|
      ensures Both(i, m) in Plan(j) <==> On(j, i, m) == Yes
    {
      assert Both(i, m) in Plan(j) <==> Belongs(Both(i, m), j);
    }
    forall m: nat | m < |j.left|
      ensures Both(m, k) in Plan(j) <==> On(j, m, k) == Yes
    {
      assert Both(m, k) in Plan(j) <==> Belongs(Both(m, k), j);
    }
  }

  /** With nothing on the right side every left row is padded, if asked for, and
      with nothing on the left every right row. */
  lemma OneSideEmpty(j: Input, i: nat)
    ensures j.right == [] && i < |j.left| ==> (LeftOnly(i) in Plan(j) <==> j.emitLeft)
    ensures j.left == [] && i < |j.right| ==> (RightOnly(i) in Plan(j) <==> j.emitRight)
  {
    hide Plan, On;
    PlanIsJoin(j);
    assert LeftOnly(i) in Plan(j) <==> Belongs(LeftOnly(i), j);
    assert RightOnly(i) in Plan(j) <==> Belongs(RightOnly(i), j);
  }

  /** Left rows come in order, each with its pairs in the order of the right rows
      and its padding last, and the right rows without a match after all of them. */
  lemma InOrder(j: Input, n: nat, m: nat)
    requires n < m < |Plan(j)|
    ensures var s, t := Plan(j)[n], Plan(j)[m];
      && (s.RightOnly? ==> t.RightOnly? && s.k < t.k)
      && (!s.RightOnly? && !t.RightOnly? ==> s.i < t.i || (s.i == t.i && !s.LeftOnly?))
      && (!s.RightOnly? && !t.RightOnly? && s.i == t.i && !t.LeftOnly? ==> s.k < t.k)
  {
    hide Plan;
    PlanIsJoin(j);
  }

  datatype JoinMode =
    | InnerJoin
    | LeftJoin | LeftOuterJoin
    | RightJoin | RightOuterJoin
    | FullJoin | FullOuterJoin

  /** A scanner for a join of this mode: left and full joins pad left rows, right
      and full joins right rows. A join without an ON expression is refused. */
  method NewJoinScanner(left: ListScanner, right: ListScanner, mode: JoinMode, on: Option<Row -> OnResult>,
                        leftCols: nat, rightCols: nat)
    returns (scanner: Option<JoinScanner>)
    requires left != right && left.pos == 0 && right.pos == 0
    ensures scanner == None <==> on == None
    ensures scanner.Some? ==>
      && fresh(scanner.value) && scanner.value.Valid()
      && scanner.value.left == left && scanner.value.right == right
      && var j := scanner.value.Joined();
      && scanner.value.Rest() == Plan(j)
      && j.left == left.rows && j.right == RowsOf(right.rows) && Some(j.on) == on
      && j.leftCols == leftCols && j.rightCols == rightCols
      && (j.emitLeft <==> mode in {LeftJoin, LeftOuterJoin, FullJoin, FullOuterJoin})
      && (j.emitRight <==> mode in {RightJoin, RightOuterJoin, FullJoin, FullOuterJoin})
  {
    var emitLeft, emitRight := false, false;
    match mode {
      case LeftJoin | LeftOuterJoin => emitLeft := true;
      case RightJoin | RightOuterJoin => emitRight := true;
      case FullJoin | FullOuterJoin => emitLeft, emitRight := true, true;
      case InnerJoin =>
    }
    if on == None {
      return None;
    }
    var s := new JoinScanner(left, right, on.value, emitLeft, emitRight, leftCols, rightCols);
    scanner := Some(s);
  }

  /** Pulling until the end, or until the first failing pair, yields the whole
      join in order, or its part before that pair; a drained scanner stays ended. */
  method PullAll(scanner: JoinScanner) returns (outs: seq<Output>, ok: bool)
    requires scanner.Valid() && scanner.Rest() == Plan(scanner.Joined())
    modifies scanner, scanner.left`pos, scanner.right`pos
    ensures scanner.Valid() && IsJoin(Plan(scanner.Joined()), scanner.Joined())
    ensures var j, plan := scanner.Joined(), Plan(scanner.Joined());
      && |outs| <= |plan| && (forall n :: 0 <= n < |outs| ==> InBounds(plan[n], j) && outs[n] == Render(plan[n], j))
      && (ok ==> |outs| == |plan| && scanner.Rest() == [])
      && (!ok ==> |outs| < |plan| && plan[|outs|].Failing?)
  {
    hide IsJoin, Plan, JoinScanner.Valid, JoinScanner.Rest;
    ghost var j, plan := scanner.Joined(), Plan(scanner.Joined());
    PlanIsJoin(j);
    outs := [];
    var out := Error;
    while true
      invariant scanner.Valid() && |outs| <= |plan| && scanner.Rest() == plan[|outs|..]
      invariant forall n :: 0 <= n < |outs| ==> InBounds(plan[n], j) && outs[n] == Render(plan[n], j)
      decreases |plan| - |outs|
    {
      ghost var rest := scanner.Rest();
      out := scanner.Next();
      if out == End {
        return outs, true;
      }
      if out == Error {
        return outs, false;
      }
      assert rest[0] == plan[|outs|] && rest[1..] == plan[|outs| + 1..];
      outs := outs + [out];
    }
  }

  lemma KnownState(j: Input, lpos: nat, idx: nat, needsNew: bool, leftMatched: bool, matched: seq<bool>, unmatched: nat)
    requires StateOk(j, lpos, idx, needsNew, leftMatched, matched, unmatched)
    ensures lpos <= |j.left| && idx <= |j.right| == |matched| && unmatched <= |j.right|
    ensures needsNew ==> lpos == 0 || idx == |j.right|
    ensures !needsNew ==> lpos > 0
    ensures unmatched > 0 ==> lpos == |j.left| && (needsNew || idx == |j.right|)
  {
  }

  lemma PairHeads(j: Input, i: nat, k: nat)
    requires i < |j.left| && k < |j.right|
    ensures var pairs, rest := PairPlan(j, i, k), PairPlan(j, i, k + 1);
      match On(j, i, k)
      case Yes =>
        pairs != [] && pairs[1..] == rest && InBounds(pairs[0], j) &&
        Render(pairs[0], j) == Emit(j.left[i].key, j.left[i].row + j.right[k])
      case Failed => pairs != [] && pairs[1..] == rest && InBounds(pairs[0], j) && Render(pairs[0], j) == Error
      case _ => pairs == rest
  {
  }

  lemma NoPairs(j: Input, i: nat)
    requires i < |j.left|
    ensures PairPlan(j, i, |j.right|) == []
  {
  }

  /** One more pair of the current left row was tried. */
  lemma PairTried(j: Input, lpos: nat, k: nat, leftMatched: bool, matched: seq<bool>, unmatched: nat)
    requires StateOk(j, lpos, k, false, leftMatched, matched, unmatched) && k < |j.right|
    ensures lpos > 0
    ensures On(j, lpos - 1, k) == Yes ==> StateOk(j, lpos, k + 1, false, true, matched[k := true], unmatched)
    ensures On(j, lpos - 1, k) != Yes ==> StateOk(j, lpos, k + 1, false, leftMatched, matched, unmatched)
  {
    var i := lpos - 1;
    var yes := On(j, i, k) == Yes;
    assert LeftMatches(j, i, k + 1) <==> LeftMatches(j, i, k) || yes;
    forall m | 0 <= m < |matched|
      ensures MatchedSoFar(j, m, lpos, k + 1) <==> MatchedSoFar(j, m, lpos, k) || (m == k && yes)
    {
    }
  }

  /** A row that failed or matched at its last pair is not padded. */
  lemma NotPadded(j: Input, i: nat, k: nat)
    requires i < |j.left| && k < |j.right| && (On(j, i, k) == Failed || On(j, i, k) == Yes)
    ensures k + 1 == |j.right| ==> PadPlan(j, i) == []
  {
  }

  lemma NoLeftRows(j: Input, lpos: nat, unmatched: nat)
    requires lpos == |j.left| && unmatched <= |j.right|
    ensures LeftPlan(j, lpos) + RightPlan(j, unmatched) == RightPlan(j, unmatched)
  {
  }

  lemma RightDecided(j: Input, lpos: nat, idx: nat, needsNew: bool, leftMatched: bool, matched: seq<bool>, k: nat)
    requires StateOk(j, lpos, idx, needsNew, leftMatched, matched, k) && k < |j.right|
    requires lpos == |j.left| && (needsNew || idx == |j.right|)
    ensures |matched| == |j.right| && (matched[k] <==> RightMatches(j, k))
    ensures StateOk(j, lpos, idx, needsNew, leftMatched, matched, k + 1)
  {
  }

  /** The next right row is passed over or is what comes next. */
  lemma RightHead(j: Input, k: nat)
    requires k < |j.right| && j.emitRight
    ensures if RightMatches(j, k) then RightPlan(j, k) == RightPlan(j, k + 1)
      else Yields(j, RightPlan(j, k), Emit(None, Nulls(j.leftCols) + j.right[k]), RightPlan(j, k + 1))
  {
    hide RightMatches;
  }

  lemma NoneRight(j: Input, k: nat)
    requires k <= |j.right| && (k == |j.right| || !j.emitRight)
    ensures Yields(j, RightPlan(j, k), End, RightPlan(j, k))
  {
  }

  lemma LeftFetched(j: Input, lpos: nat, idx: nat, needsNew: bool, leftMatched: bool, matched: seq<bool>,
                    unmatched: nat)
    requires StateOk(j, lpos, idx, needsNew, leftMatched, matched, unmatched)
    requires lpos < |j.left| && (needsNew || idx == |j.right|)
    ensures StateOk(j, lpos + 1, 0, false, false, matched, unmatched)
    ensures LeftPlan(j, lpos) + RightPlan(j, unmatched) == MidLeft(j, lpos + 1, 0, unmatched)
  {
    forall k | 0 <= k < |matched|
      ensures MatchedSoFar(j, k, lpos + 1, 0) <==> MatchedSoFar(j, k, lpos, idx)
    {
    }
  }

  lemma PairYielded(j: Input, lpos: nat, idx: nat, idx': nat, unmatched: nat, out: Output)
    requires 0 < lpos <= |j.left| && idx <= |j.right| && idx' <= |j.right| && unmatched <= |j.right|
    requires var pairs := PairPlan(j, lpos - 1, idx);
      pairs != [] && InBounds(pairs[0], j) && out == Render(pairs[0], j) && PairPlan(j, lpos - 1, idx') == pairs[1..]
    requires idx' == |j.right| ==> PadPlan(j, lpos - 1) == []
    ensures Yields(j, MidLeft(j, lpos, idx, unmatched), out, Remaining(j, lpos, idx', false, unmatched))
  {
    hide PadPlan, LeftPlan, RightPlan, Render, InBounds;
    var pairs := PairPlan(j, lpos - 1, idx);
    DropFirst(pairs, PadPlan(j, lpos - 1), LeftPlan(j, lpos), RightPlan(j, unmatched));
    if idx' == |j.right| {
      assert pairs[1..] + PadPlan(j, lpos - 1) + LeftPlan(j, lpos) == LeftPlan(j, lpos);
    }
  }

  lemma DropFirst(p: seq<Source>, a: seq<Source>, b: seq<Source>, c: seq<Source>)
    requires p != []
    ensures p + a + b + c != [] && (p + a + b + c)[0] == p[0] && (p + a + b + c)[1..] == p[1..] + a + b + c
  {
  }

  /** All pairs tried: the padded row comes next, or nothing does. */
  lemma PadDecided(j: Input, lpos: nat, idx: nat, idx': nat, needsNew: bool, leftMatched: bool, matched: seq<bool>,
                   unmatched: nat)
    requires StateOk(j, lpos, idx', needsNew, leftMatched, matched, unmatched) && !needsNew && idx' == |j.right|
    requires idx <= |j.right|
    requires lpos > 0 && PairPlan(j, lpos - 1, idx) == []
    requires j.right == [] || On(j, lpos - 1, |j.right| - 1) != Failed
    ensures lpos <= |j.left| && unmatched <= |j.right|
    ensures var rest := LeftPlan(j, lpos) + RightPlan(j, unmatched);
      MidLeft(j, lpos, idx, unmatched) == (if !leftMatched && j.emitLeft then [LeftOnly(lpos - 1)] else []) + rest
    ensures !leftMatched && j.emitLeft ==>
      MidLeft(j, lpos, idx, unmatched)[1..] == LeftPlan(j, lpos) + RightPlan(j, unmatched)
  {
    hide LeftPlan, RightPlan, LeftMatches;
    var pad := if !leftMatched && j.emitLeft then [LeftOnly(lpos - 1)] else [];
    assert PadPlan(j, lpos - 1) == pad;
    assert [] + pad == pad;
    assert pad + LeftPlan(j, lpos) + RightPlan(j, unmatched) == pad + (LeftPlan(j, lpos) + RightPlan(j, unmatched));
  }

  lemma RowDone(j: Input, lpos: nat, leftMatched: bool, matched: seq<bool>, unmatched: nat)
    requires StateOk(j, lpos, |j.right|, false, leftMatched, matched, unmatched)
    ensures StateOk(j, lpos, |j.right|, true, leftMatched, matched, unmatched)
  {
  }
}
