/** From the grammar's flat factor sequences to expression trees, by precedence
    climbing, and back through the printer. */
module Resolver {
  import opened Options

  datatype Operator =
    | Or | And
    | Equal | NotEqual | LessThan | LessThanOrEq | GreaterThan | GreaterThanOrEq
    | Add | Subtract
    | Multiply | Divide | Modulo

  const TIGHTEST: nat := 6

  function Precedence(op: Operator): (p: nat)
    ensures 1 <= p < TIGHTEST
  {
    match op
    case Or => 1
    case And => 2
    case Equal | NotEqual | LessThan | LessThanOrEq | GreaterThan | GreaterThanOrEq => 3
    case Add | Subtract => 4
    case Multiply | Divide | Modulo => 5
  }

  /** Literal texts stay opaque, but some of them are malformed. */
  datatype Literal = Good(text: string) | Malformed(text: string)

  /** The grammar's flat expression: values and operators in source order. */
  datatype RawExpr = RawExpr(factors: seq<Factor>)

  datatype Factor =
    | StarTok
    | FuncTok(name: string, args: seq<RawExpr>)
    | SubTok(sub: RawExpr)
    | LitTok(lit: Literal)
    | OpTok(op: string)
    | ArgTok
    | ColumnTok(column: string)

  datatype Expr =
    | Star
    | Column(column: string)
    | Lit(text: string)
    | Binary(left: Expr, op: Operator, right: Expr)
    | FuncCall(name: string, args: seq<Expr>)
    | Arg(index: nat)

  /** The operator spelt by a token, aliases included. */
  function Alias(s: string): Option<Operator> {
    if s == "+" then Some(Add) else if s == "-" then Some(Subtract)
    else if s == "*" then Some(Multiply) else if s == "/" then Some(Divide) else if s == "%" then Some(Modulo)
    else if s == "=" || s == "==" then Some(Equal) else if s == "!=" || s == "<>" then Some(NotEqual)
    else if s == "<" then Some(LessThan) else if s == "<=" then Some(LessThanOrEq)
    else if s == ">" then Some(GreaterThan) else if s == ">=" then Some(GreaterThanOrEq)
    else if s == "AND" then Some(And) else if s == "OR" then Some(Or) else None
  }

  /** A star between two values is a multiplication. */
  function OperatorOf(f: Factor): Option<Operator> {
    match f
    case StarTok => Some(Multiply)
    case OpTok(op) => Alias(op)
    case _ => None
  }

  predicate Supported(name: string) {
    name == "COUNT" || name == "MIN" || name == "MAX" || name == "SUM" || name == "AVG"
  }

  /* ---- which inputs are expressions ---- */

  predicate Valid(raw: RawExpr)
    decreases raw, 1
  {
    Alternates(raw.factors, 0, |raw.factors|)
  }

  /** Values and operators alternate from lo to hi, beginning and ending with a value. */
  predicate Alternates(fs: seq<Factor>, lo: nat, hi: nat)
    decreases fs, hi - lo
  {
    && lo < hi <= |fs| && ValidPrimary(fs[lo])
    && (lo + 1 == hi || (OperatorOf(fs[lo + 1]).Some? && Alternates(fs, lo + 2, hi)))
  }

  predicate ValidPrimary(f: Factor)
    decreases f
  {
    match f
    case StarTok => true
    case FuncTok(name, args) => Supported(name) && forall i :: 0 <= i < |args| ==> Valid(args[i])
    case SubTok(sub) => Valid(sub)
    case LitTok(lit) => lit.Good?
    case OpTok(_) => false
    case ArgTok => true
    case ColumnTok(_) => true
  }

  /* ---- what an input means ---- */

  /** Placeholders in a factor, nested ones included. */
  function MarkCount(f: Factor): nat
    decreases f
  {
    match f
    case ArgTok => 1
    case SubTok(sub) => MarksBefore(sub.factors, |sub.factors|)
    case FuncTok(_, args) => MarksInArgs(args, |args|)
    case _ => 0
  }

  function MarksBefore(fs: seq<Factor>, n: nat): nat
    requires n <= |fs|
    decreases fs, n
  {
    if n == 0 then 0 else MarksBefore(fs, n - 1) + MarkCount(fs[n - 1])
  }

  function MarksInArgs(args: seq<RawExpr>, n: nat): nat
    requires n <= |args|
    decreases args, n
  {
    if n == 0 then 0 else MarksInArgs(args, n - 1) + MarksBefore(args[n - 1].factors, |args[n - 1].factors|)
  }

  /** How the operators of one flat expression nest. */
  datatype Tree = Leaf | Node(left: Tree, op: Operator, right: Tree)

  function Len(t: Tree): (n: nat)
    ensures n % 2 == 1
  {
    match t
    case Leaf => 1
    case Node(l, _, r) =>
      var m, n := Len(l), Len(r);
      assert m == 2 * (m / 2) + 1 && n == 2 * (n / 2) + 1;
      m + 1 + n
  }

  function Tightness(t: Tree): (p: nat)
    ensures p <= TIGHTEST
  {
    if t.Leaf? then TIGHTEST else Precedence(t.op)
  }

  /** Left operands bind at least as tightly as their operator, right ones more
      tightly: precedence with left associativity. */
  predicate Ordered(t: Tree) {
    match t
    case Leaf => true
    case Node(l, op, r) => Ordered(l) && Ordered(r) && Tightness(l) >= Precedence(op) && Tightness(r) > Precedence(op)
  }

  /** Read in order from position lo, the tree has the input's operators. */
  predicate Spans(t: Tree, fs: seq<Factor>, lo: nat) {
    && lo + Len(t) <= |fs|
    && match t
       case Leaf => true
       case Node(l, op, r) =>
         Spans(l, fs, lo) && OperatorOf(fs[lo + Len(l)]) == Some(op) && Spans(r, fs, lo + Len(l) + 1)
  }

  /** The expression that the tree makes of the input's values; placeholders are
      numbered from base on, left to right. */
  ghost predicate Builds(t: Tree, fs: seq<Factor>, lo: nat, base: nat, e: Expr)
    decreases fs, t
  {
    && lo + Len(t) <= |fs|
    && match t
       case Leaf => Means(fs[lo], base + MarksBefore(fs, lo), e)
       case Node(l, op, r) =>
         e.Binary? && e.op == op && Builds(l, fs, lo, base, e.left) && Builds(r, fs, lo + Len(l) + 1, base, e.right)
  }

  ghost predicate Means(f: Factor, base: nat, e: Expr)
    decreases f
  {
    match f
    case StarTok => e == Star
    case FuncTok(name, args) =>
      && Supported(name) && e.FuncCall? && e.name == name && |e.args| == |args|
      && forall i :: 0 <= i < |args| ==> Denotes(args[i], base + MarksInArgs(args, i), e.args[i])
    case SubTok(sub) => Denotes(sub, base, e)
    case LitTok(lit) => lit.Good? && e == Lit(lit.text)
    case OpTok(_) => false
    case ArgTok => e == Arg(base)
    case ColumnTok(column) => e == Column(column)
  }

  /** e is what the flat expression means: its operators nest in the one ordered
      way, and its values are resolved in place. */
  ghost predicate Denotes(raw: RawExpr, base: nat, e: Expr)
    decreases raw, 1
  {
    exists t :: IsReading(t, raw.factors) && Builds(t, raw.factors, 0, base, e)
  }

  ghost predicate IsReading(t: Tree, fs: seq<Factor>) {
    Ordered(t) && Len(t) == |fs| && Spans(t, fs, 0)
  }

  /** e was read from position lo on, nested as t says. */
  ghost predicate Read(t: Tree, fs: seq<Factor>, lo: nat, base: nat, e: Expr) {
    Ordered(t) && Spans(t, fs, lo) && Builds(t, fs, lo, base, e)
  }

  lemma ReadLeaf(fs: seq<Factor>, lo: nat, base: nat, e: Expr)
    requires lo < |fs| && Means(fs[lo], base + MarksBefore(fs, lo), e)
    ensures Read(Leaf, fs, lo, base, e)
  {
  }

  lemma ReadNode(t: Tree, op: Operator, rt: Tree, fs: seq<Factor>, lo: nat, base: nat, e: Expr, right: Expr)
    requires Read(t, fs, lo, base, e) && Read(rt, fs, lo + Len(t) + 1, base, right)
    requires lo + Len(t) < |fs| && OperatorOf(fs[lo + Len(t)]) == Some(op)
    requires Tightness(t) >= Precedence(op) && Tightness(rt) > Precedence(op)
    ensures Read(Node(t, op, rt), fs, lo, base, Binary(e, op, right))
  {
    hide Precedence, Means, MarksBefore, OperatorOf, Tightness;
    SpanFits(rt, fs, lo + Len(t) + 1);
    var whole := Node(t, op, rt);
    assert Len(whole) == Len(t) + 1 + Len(rt);
    assert Ordered(whole);
    assert Spans(whole, fs, lo);
  }

  lemma SpanFits(t: Tree, fs: seq<Factor>, lo: nat)
    requires Spans(t, fs, lo)
    ensures lo + Len(t) <= |fs|
  {
  }

  lemma ReadWhole(t: Tree, fs: seq<Factor>, base: nat, e: Expr)
    requires Read(t, fs, 0, base, e) && Len(t) == |fs|
    ensures Denotes(RawExpr(fs), base, e) && Valid(RawExpr(fs))
  {
    hide Ordered, Spans, Builds;
    assert IsReading(t, RawExpr(fs).factors);
    DenotedIsValid(RawExpr(fs), base, e);
  }

  /* ---- the machine ---- */

  /** The count of placeholders seen, shared by a statement's machines. */
  class Counter {
    var n: nat

    constructor ()
      ensures n == 0
    {
      n := 0;
    }
  }

  class ExprMachine {
    var factors: seq<Factor>
    var pos: nat
    const argIdx: Counter

    constructor (factors: seq<Factor>, argIdx: Counter)
      ensures this.factors == factors && pos == 0 && this.argIdx == argIdx
    {
      this.factors, pos, this.argIdx := factors, 0, argIdx;
    }

    ghost predicate Counted(base: nat)
      reads this, argIdx
    {
      pos <= |factors| && argIdx.n == base + MarksBefore(factors, pos)
    }

    /** Nothing at the current position continues an expression that only takes
        operators of precedence min or more. */
    predicate StopsAt(min: nat)
      reads this
    {
      pos >= |factors| || OperatorOf(factors[pos]).None? || Precedence(OperatorOf(factors[pos]).value) < min
    }

    /** Resolves one whole flat expression; accepts exactly the valid ones. */
    method ResolveExpr(input: RawExpr) returns (e: Expr, ok: bool)
      modifies this`factors, this`pos, argIdx
      ensures ok <==> Valid(input)
      ensures ok ==> Denotes(input, old(argIdx.n), e)
      ensures ok ==> argIdx.n == old(argIdx.n) + MarksBefore(input.factors, |input.factors|)
    {
      e := Star;
      if |input.factors| == 0 {
        return e, false;
      }
      factors := input.factors;
      pos := 0;
      e, ok := ParseWhole();
    }

    /** Parses all of this machine's factors. */
    method ParseWhole() returns (e: Expr, ok: bool)
      requires pos == 0
      modifies this`pos, argIdx
      ensures ok <==> Valid(RawExpr(factors))
      ensures ok ==> Denotes(RawExpr(factors), old(argIdx.n), e)
      ensures ok ==> argIdx.n == old(argIdx.n) + MarksBefore(factors, |factors|)
      decreases factors, |factors| - pos, 2
    {
      hide Read, Denotes, Alternates, MarksBefore, OperatorOf;
      ghost var base := argIdx.n;
      Unmarked(factors);
      ghost var t;
      e, ok, t := ParseExpr(0, base);
      if !ok {
        return;
      }
      ok := pos >= |factors|;
      if ok {
        ReadWhole(t, factors, base, e);
      } else {
        AlternatesFurther(factors, 0, |factors|, t);
      }
    }

    /** Precedence climbing: a value, then every operator of precedence min or
        more with its right operand. */
    method ParseExpr(min: nat, ghost base: nat) returns (e: Expr, ok: bool, ghost t: Tree)
      requires Counted(base) && min <= TIGHTEST
      modifies this`pos, argIdx
      ensures ok ==> Counted(base) && pos == old(pos) + Len(t) && StopsAt(min)
      ensures ok ==> Read(t, factors, old(pos), base, e) && min <= Tightness(t)
      ensures !ok ==> !Alternates(factors, old(pos), |factors|)
      decreases factors, |factors| - pos, 1
    {
      hide Means, ValidPrimary, MarksBefore, OperatorOf, Precedence, Alternates, Read;
      ghost var lo := pos;
      t := Leaf;
      BeginsWithValue(factors, lo);
      e, ok := ParsePrimary(base);
      if !ok {
        return;
      }
      ReadLeaf(factors, lo, base, e);
      while !StopsAt(min)
        invariant Counted(base) && pos == lo + Len(t)
        invariant Read(t, factors, lo, base, e) && min <= Tightness(t)
        invariant StopsAt(Tightness(t) + 1)
        decreases |factors| - pos
      {
        var op := OperatorOf(factors[pos]).value;
        OperatorUnmarked(factors, pos);
        pos := pos + 1;
        ghost var mid := pos;
        var right;
        ghost var rt;
        right, ok, rt := ParseExpr(Precedence(op) + 1, base);
        if !ok {
          AlternatesFurther(factors, lo, |factors|, t);
          return;
        }
        ReadNode(t, op, rt, factors, lo, base, e, right);
        e := Binary(e, op, right);
        t := Node(t, op, rt);
      }
    }

    /** One value: a literal, column, placeholder, star, call or parenthesis. */
    method ParsePrimary(ghost base: nat) returns (e: Expr, ok: bool)
      requires Counted(base)
      modifies this`pos, argIdx
      ensures ok <==> old(pos) < |factors| && ValidPrimary(factors[old(pos)])
      ensures ok ==> pos == old(pos) + 1 && Counted(base)
      ensures ok ==> Means(factors[old(pos)], old(argIdx.n), e)
      decreases factors, |factors| - pos, 0
    {
      hide Denotes, Alternates, MarksBefore;
      e := Star;
      if pos >= |factors| {
        return e, false;
      }
      var f := factors[pos];
      MarkStep(factors, pos);
      pos := pos + 1;
      ok := true;
      match f {
        case StarTok =>
        case FuncTok(name, args) => e, ok := ResolveFuncCall(f);
        case SubTok(sub) =>
          var m := new ExprMachine(sub.factors, argIdx);
          assert sub == RawExpr(m.factors) && f == old(factors)[old(pos)];
          Nested(old(factors), old(pos));
          e, ok := m.ParseWhole();
        case ColumnTok(column) => e := Column(column);
        case LitTok(lit) =>
          ok := lit.Good?;
          e := Lit(lit.text);
        case ArgTok =>
          e := Arg(argIdx.n);
          argIdx.n := argIdx.n + 1;
        case OpTok(_) => ok := false;
      }
    }

    method ResolveFuncCall(f: Factor) returns (e: Expr, ok: bool)
      requires f.FuncTok? && 0 < pos <= |factors| && f == factors[pos - 1]
      modifies argIdx
      ensures ok <==> ValidPrimary(f)
      ensures ok ==> Means(f, old(argIdx.n), e) && argIdx.n == old(argIdx.n) + MarkCount(f)
      decreases factors, |factors| - pos, 0
    {
      hide Denotes, MarksBefore, Valid, ArgsMean, ValidPrimary, Means;
      e := Star;
      NoBadArgument(f);
      if !Supported(f.name) {
        return e, false;
      }
      ghost var base := argIdx.n;
      var args: seq<Expr> := [];
      var i := 0;
      NoArgsYet(f.args, base);
      while i < |f.args|
        invariant i <= |f.args| && argIdx.n == base + MarksInArgs(f.args, i) && ArgsMean(f.args, base, args, i)
      {
        var sub := new ExprMachine(f.args[i].factors, argIdx);
        var resolved;
        NestedArg(factors, pos - 1, i);
        assert f.args[i] == RawExpr(sub.factors);
        resolved, ok := sub.ParseWhole();
        if !ok {
          return;
        }
        OneArgMore(f.args, base, args, i, resolved);
        args := args + [resolved];
        i := i + 1;
      }
      e, ok := FuncCall(f.name, args), true;
      CallMeans(f, base, args);
    }
  }

  /** The first n arguments of a call are resolved. */
  ghost predicate ArgsMean(args: seq<RawExpr>, base: nat, es: seq<Expr>, n: nat) {
    && |es| == n <= |args|
    && forall i :: 0 <= i < n ==> Valid(args[i]) && Denotes(args[i], base + MarksInArgs(args, i), es[i])
  }

  lemma NoArgsYet(args: seq<RawExpr>, base: nat)
    ensures ArgsMean(args, base, [], 0) && MarksInArgs(args, 0) == 0
  {
  }

  lemma OneArgMore(args: seq<RawExpr>, base: nat, es: seq<Expr>, n: nat, e: Expr)
    requires ArgsMean(args, base, es, n) && n < |args|
    requires Valid(args[n]) && Denotes(args[n], base + MarksInArgs(args, n), e)
    ensures ArgsMean(args, base, es + [e], n + 1)
    ensures MarksInArgs(args, n + 1) == MarksInArgs(args, n) + MarksBefore(args[n].factors, |args[n].factors|)
  {
    hide Valid, Denotes;
  }

  lemma NoBadArgument(f: Factor)
    requires f.FuncTok?
    ensures ValidPrimary(f) ==> Supported(f.name) && forall i :: 0 <= i < |f.args| ==> Valid(f.args[i])
  {
    hide Valid;
  }

  lemma CallMeans(f: Factor, base: nat, es: seq<Expr>)
    requires f.FuncTok? && Supported(f.name) && ArgsMean(f.args, base, es, |f.args|)
    ensures ValidPrimary(f) && Means(f, base, FuncCall(f.name, es)) && MarkCount(f) == MarksInArgs(f.args, |f.args|)
  {
    hide Valid, Denotes, MarksInArgs, Supported;
  }

  lemma Nested(fs: seq<Factor>, i: nat)
    requires i < |fs| && fs[i].SubTok?
    ensures fs decreases to fs[i].sub.factors
  {
    assert fs decreases to fs[i];
    assert fs[i] decreases to fs[i].sub;
  }

  lemma NestedArg(fs: seq<Factor>, i: nat, k: nat)
    requires i < |fs| && fs[i].FuncTok? && k < |fs[i].args|
    ensures fs decreases to fs[i].args[k].factors
  {
    assert fs decreases to fs[i];
    assert fs[i] decreases to fs[i].args;
    assert fs[i].args decreases to fs[i].args[k];
  }

  lemma Unmarked(fs: seq<Factor>)
    ensures MarksBefore(fs, 0) == 0
  {
  }

  lemma OperatorUnmarked(fs: seq<Factor>, i: nat)
    requires i < |fs| && OperatorOf(fs[i]).Some?
    ensures MarksBefore(fs, i + 1) == MarksBefore(fs, i)
  {
  }

  lemma MarkStep(fs: seq<Factor>, i: nat)
    requires i < |fs|
    ensures MarksBefore(fs, i + 1) == MarksBefore(fs, i) + MarkCount(fs[i])
  {
  }

  lemma BeginsWithValue(fs: seq<Factor>, lo: nat)
    ensures Alternates(fs, lo, |fs|) ==> lo < |fs| && ValidPrimary(fs[lo])
  {
  }

  /** An input that alternates goes on after any tree read from its start. */
  lemma {:induction false} AlternatesFurther(fs: seq<Factor>, lo: nat, hi: nat, t: Tree)
    requires lo + Len(t) < hi <= |fs|
    ensures Alternates(fs, lo, hi) ==> OperatorOf(fs[lo + Len(t)]).Some? && Alternates(fs, lo + Len(t) + 1, hi)
    decreases t
  {
    hide ValidPrimary, OperatorOf;
    if t.Node? {
      AlternatesFurther(fs, lo, hi, t.left);
      AlternatesFurther(fs, lo + Len(t.left) + 1, hi, t.right);
    }
  }

  lemma {:induction false} AlternatesJoins(fs: seq<Factor>, lo: nat, mid: nat, hi: nat)
    requires Alternates(fs, lo, mid) && mid < |fs| && OperatorOf(fs[mid]).Some? && Alternates(fs, mid + 1, hi)
    ensures Alternates(fs, lo, hi)
    decreases mid - lo
  {
    hide ValidPrimary;
    if lo + 1 < mid {
      AlternatesJoins(fs, lo + 2, mid, hi);
    }
  }

  /** Whatever a tree builds an expression from alternates properly. */
  lemma {:induction false} BuiltAlternates(t: Tree, fs: seq<Factor>, lo: nat, base: nat, e: Expr)
    requires Spans(t, fs, lo) && Builds(t, fs, lo, base, e)
    ensures Alternates(fs, lo, lo + Len(t))
    decreases fs, t
  {
    hide Means, ValidPrimary, OperatorOf, MarksBefore;
    match t
    case Leaf => MeaningIsValid(fs[lo], base + MarksBefore(fs, lo), e);
    case Node(l, op, r) =>
      BuiltAlternates(l, fs, lo, base, e.left);
      BuiltAlternates(r, fs, lo + Len(l) + 1, base, e.right);
      AlternatesJoins(fs, lo, lo + Len(l), lo + Len(t));
  }

  lemma {:induction false} MeaningIsValid(f: Factor, base: nat, e: Expr)
    requires Means(f, base, e)
    ensures ValidPrimary(f)
    decreases f
  {
    hide Denotes, Valid, MarksInArgs;
    match f
    case FuncTok(name, args) =>
      forall i | 0 <= i < |args|
        ensures Valid(args[i])
      {
        DenotedIsValid(args[i], base + MarksInArgs(args, i), e.args[i]);
      }
    case SubTok(sub) => DenotedIsValid(sub, base, e);
    case _ =>
  }

  /** Only valid inputs mean anything. */
  lemma {:induction false} DenotedIsValid(raw: RawExpr, base: nat, e: Expr)
    requires Denotes(raw, base, e)
    ensures Valid(raw)
    decreases raw, 1
  {
    hide Ordered, Spans, Builds, Alternates;
    var t :| IsReading(t, raw.factors) && Builds(t, raw.factors, 0, base, e);
    BuiltAlternates(t, raw.factors, 0, base, e);
  }

  /* ---- the reading is unique ---- */

  /** Every operator of a tree has at least this precedence. */
  predicate AllTight(t: Tree, p: nat) {
    match t
    case Leaf => true
    case Node(l, op, r) => p <= Precedence(op) && AllTight(l, p) && AllTight(r, p)
  }

  lemma {:induction false} OrderedIsTight(t: Tree, p: nat)
    requires Ordered(t) && p <= Tightness(t)
    ensures AllTight(t, p)
  {
    hide Precedence;
    if t.Node? {
      OrderedIsTight(t.left, p);
      OrderedIsTight(t.right, p);
    }
  }

  lemma TightParts(t: Tree, fs: seq<Factor>, lo: nat, p: nat)
    requires t.Node? && Spans(t, fs, lo) && AllTight(t, p)
    ensures Spans(t.left, fs, lo) && Spans(t.right, fs, lo + Len(t.left) + 1)
    ensures lo + Len(t.left) < |fs| && OperatorOf(fs[lo + Len(t.left)]) == Some(t.op)
    ensures AllTight(t.left, p) && AllTight(t.right, p) && p <= Precedence(t.op)
    ensures Len(t) == Len(t.left) + 1 + Len(t.right) && lo + Len(t) <= |fs|
  {
    hide Precedence, OperatorOf;
  }

  /** An operator read inside a tight tree is tight. */
  lemma {:induction false} OperatorInside(t: Tree, fs: seq<Factor>, lo: nat, m: nat, p: nat)
    requires Spans(t, fs, lo) && AllTight(t, p) && lo <= m < lo + Len(t) && (m - lo) % 2 == 1
    ensures OperatorOf(fs[m]).Some? && p <= Precedence(OperatorOf(fs[m]).value)
  {
    hide Precedence, OperatorOf, Spans, AllTight, Len;
    LenOfLeaf(t);
    if t.Node? {
      TightParts(t, fs, lo, p);
      if m < lo + Len(t.left) {
        OperatorInside(t.left, fs, lo, m, p);
      } else if m > lo + Len(t.left) {
        OperatorInside(t.right, fs, lo + Len(t.left) + 1, m, p);
      }
    }
  }

  lemma NodeParts(t: Tree, fs: seq<Factor>, lo: nat)
    requires t.Node? && Ordered(t) && Spans(t, fs, lo)
    ensures Spans(t.left, fs, lo) && Spans(t.right, fs, lo + Len(t.left) + 1)
    ensures lo + Len(t.left) < |fs| && OperatorOf(fs[lo + Len(t.left)]) == Some(t.op)
    ensures AllTight(t.left, Precedence(t.op)) && AllTight(t.right, Precedence(t.op) + 1)
    ensures Ordered(t.left) && Ordered(t.right) && Len(t) == Len(t.left) + 1 + Len(t.right)
  {
    hide Precedence, OperatorOf;
    OrderedIsTight(t.left, Precedence(t.op));
    OrderedIsTight(t.right, Precedence(t.op) + 1);
  }

  /** The root operator is the last one of the least precedence. */
  lemma RootsMeet(t: Tree, u: Tree, fs: seq<Factor>, lo: nat)
    requires t.Node? && u.Node? && Ordered(t) && Ordered(u) && Spans(t, fs, lo) && Spans(u, fs, lo) && Len(t) == Len(u)
    ensures Len(t.left) >= Len(u.left)
  {
    hide OperatorOf, Precedence, Spans, Ordered, AllTight, Len;
    var m, n := lo + Len(t.left), lo + Len(u.left);
    if m < n {
      NodeParts(t, fs, lo);
      NodeParts(u, fs, lo);
      OperatorInside(t.right, fs, m + 1, n, Precedence(t.op) + 1);
      OperatorInside(u.left, fs, lo, m, Precedence(u.op));
    }
  }

  lemma LenOfLeaf(t: Tree)
    ensures t.Leaf? <==> Len(t) == 1
  {
  }

  /** There is only one ordered tree with the input's operators in order. */
  lemma {:induction false} ReadingUnique(t: Tree, u: Tree, fs: seq<Factor>, lo: nat)
    requires Ordered(t) && Ordered(u) && Spans(t, fs, lo) && Spans(u, fs, lo) && Len(t) == Len(u)
    ensures t == u
  {
    hide OperatorOf, Precedence, Spans, Ordered, AllTight, Len;
    LenOfLeaf(t);
    LenOfLeaf(u);
    if t.Node? && u.Node? {
      RootsMeet(t, u, fs, lo);
      RootsMeet(u, t, fs, lo);
      NodeParts(t, fs, lo);
      NodeParts(u, fs, lo);
      ReadingUnique(t.left, u.left, fs, lo);
      ReadingUnique(t.right, u.right, fs, lo + Len(t.left) + 1);
    }
  }

  /** A flat expression means at most one expression. */
  lemma {:induction false} DenotesUnique(raw: RawExpr, base: nat, e: Expr, e': Expr)
    requires Denotes(raw, base, e) && Denotes(raw, base, e')
    ensures e == e'
    decreases raw, 1
  {
    hide Ordered, Spans, Builds;
    var t :| IsReading(t, raw.factors) && Builds(t, raw.factors, 0, base, e);
    var u :| IsReading(u, raw.factors) && Builds(u, raw.factors, 0, base, e');
    ReadingUnique(t, u, raw.factors, 0);
    BuildsUnique(t, raw.factors, 0, base, e, e');
  }

  lemma {:induction false} BuildsUnique(t: Tree, fs: seq<Factor>, lo: nat, base: nat, e: Expr, e': Expr)
    requires Builds(t, fs, lo, base, e) && Builds(t, fs, lo, base, e')
    ensures e == e'
    decreases fs, t
  {
    hide Means, MarksBefore;
    match t
    case Leaf => MeansUnique(fs[lo], base + MarksBefore(fs, lo), e, e');
    case Node(l, op, r) =>
      BuildsUnique(l, fs, lo, base, e.left, e'.left);
      BuildsUnique(r, fs, lo + Len(l) + 1, base, e.right, e'.right);
  }

  lemma {:induction false} MeansUnique(f: Factor, base: nat, e: Expr, e': Expr)
    requires Means(f, base, e) && Means(f, base, e')
    ensures e == e'
    decreases f
  {
    hide Denotes, MarksInArgs;
    match f
    case SubTok(sub) => DenotesUnique(sub, base, e, e');
    case FuncTok(name, args) =>
      forall i | 0 <= i < |args|
        ensures e.args[i] == e'.args[i]
      {
        DenotesUnique(args[i], base + MarksInArgs(args, i), e.args[i], e'.args[i]);
      }
    case _ =>
  }

  /* ---- placeholders ---- */

  function ArgTotal(e: Expr): nat
    decreases e
  {
    match e
    case Arg(_) => 1
    case Binary(l, _, r) => ArgTotal(l) + ArgTotal(r)
    case FuncCall(_, args) => ArgTotalOf(args, |args|)
    case _ => 0
  }

  function ArgTotalOf(args: seq<Expr>, n: nat): nat
    requires n <= |args|
    decreases args, n
  {
    if n == 0 then 0 else ArgTotalOf(args, n - 1) + ArgTotal(args[n - 1])
  }

  /** Placeholders are numbered base, base + 1, ... in reading order, and every
      call is to a supported function. */
  predicate Numbered(e: Expr, base: nat)
    decreases e
  {
    match e
    case Arg(i) => i == base
    case Binary(l, _, r) => Numbered(l, base) && Numbered(r, base + ArgTotal(l))
    case FuncCall(name, args) =>
      Supported(name) && forall i :: 0 <= i < |args| ==> Numbered(args[i], base + ArgTotalOf(args, i))
    case _ => true
  }

  /** Resolving numbers the placeholders left to right, through every nested part. */
  lemma {:induction false} DenotedNumbered(raw: RawExpr, base: nat, e: Expr)
    requires Denotes(raw, base, e)
    ensures Numbered(e, base) && ArgTotal(e) == MarksBefore(raw.factors, |raw.factors|)
    decreases raw, 1
  {
    hide Ordered, Builds, MarksBefore, Spans, Numbered, ArgTotal, Len;
    var t :| IsReading(t, raw.factors) && Builds(t, raw.factors, 0, base, e);
    Unmarked(raw.factors);
    BuiltNumbered(t, raw.factors, 0, base, e);
  }

  lemma {:induction false} BuiltNumbered(t: Tree, fs: seq<Factor>, lo: nat, base: nat, e: Expr)
    requires Spans(t, fs, lo) && Builds(t, fs, lo, base, e)
    ensures lo + Len(t) <= |fs| && Numbered(e, base + MarksBefore(fs, lo))
    ensures MarksBefore(fs, lo) + ArgTotal(e) == MarksBefore(fs, lo + Len(t))
    decreases fs, t
  {
    hide Means, MarksBefore, OperatorOf, Supported, MarkCount, ArgTotalOf;
    match t
    case Leaf =>
      MeantNumbered(fs[lo], base + MarksBefore(fs, lo), e);
      MarkStep(fs, lo);
    case Node(l, op, r) =>
      BuiltNumbered(l, fs, lo, base, e.left);
      OperatorUnmarked(fs, lo + Len(l));
      BuiltNumbered(r, fs, lo + Len(l) + 1, base, e.right);
  }

  lemma {:induction false} MeantNumbered(f: Factor, base: nat, e: Expr)
    requires Means(f, base, e)
    ensures Numbered(e, base) && ArgTotal(e) == MarkCount(f)
    decreases f
  {
    hide Denotes, MarksInArgs, MarksBefore, ArgTotalOf;
    match f
    case SubTok(sub) => DenotedNumbered(sub, base, e);
    case FuncTok(name, args) =>
      ArgTotals(args, base, e.args, |args|);
      forall i | 0 <= i < |args|
        ensures Numbered(e.args[i], base + ArgTotalOf(e.args, i))
      {
        ArgTotals(args, base, e.args, i);
        DenotedNumbered(args[i], base + MarksInArgs(args, i), e.args[i]);
      }
    case _ =>
  }

  lemma {:induction false} ArgTotals(args: seq<RawExpr>, base: nat, es: seq<Expr>, n: nat)
    requires |es| == |args| && n <= |args|
    requires forall i :: 0 <= i < |args| ==> Denotes(args[i], base + MarksInArgs(args, i), es[i])
    ensures ArgTotalOf(es, n) == MarksInArgs(args, n)
    decreases args, n
  {
    hide Denotes, MarksBefore, ArgTotal, Numbered;
    if n > 0 {
      ArgTotals(args, base, es, n - 1);
      DenotedNumbered(args[n - 1], base + MarksInArgs(args, n - 1), es[n - 1]);
    }
  }

  /* ---- the printer ---- */

  function Spelling(op: Operator): string {
    match op
    case Or => "OR" case And => "AND"
    case Equal => "=" case NotEqual => "!="
    case LessThan => "<" case LessThanOrEq => "<=" case GreaterThan => ">" case GreaterThanOrEq => ">="
    case Add => "+" case Subtract => "-"
    case Multiply => "*" case Divide => "/" case Modulo => "%"
  }

  /** The grammar takes a star for a star before it takes it for an operator. */
  function OperatorToken(op: Operator): (f: Factor)
    ensures OperatorOf(f) == Some(op) && MarkCount(f) == 0
  {
    if op == Multiply then StarTok else OpTok(Spelling(op))
  }

  /** The one factor that a printed expression is read as: every binary
      expression is printed in parentheses. */
  function Printed(e: Expr): Factor
    decreases e
  {
    match e
    case Star => StarTok
    case Column(column) => ColumnTok(column)
    case Lit(text) => LitTok(Good(text))
    case Binary(l, op, r) => SubTok(RawExpr([Printed(l), OperatorToken(op), Printed(r)]))
    case FuncCall(name, args) =>
      FuncTok(name, seq(|args|, i requires 0 <= i < |args| => RawExpr([Printed(args[i])])))
    case Arg(_) => ArgTok
  }

  lemma OneFactor(f: Factor)
    ensures MarksBefore([f], 0) == 0 && MarksBefore([f], 1) == MarkCount(f)
  {
  }

  lemma ThreeFactors(f: Factor, op: Factor, g: Factor)
    requires MarkCount(op) == 0
    ensures MarksBefore([f, op, g], 0) == 0 && MarksBefore([f, op, g], 2) == MarkCount(f)
    ensures MarksBefore([f, op, g], 3) == MarkCount(f) + MarkCount(g)
  {
    assert MarksBefore([f, op, g], 1) == MarkCount(f);
  }

  lemma {:induction false} PrintedMarks(e: Expr)
    ensures MarkCount(Printed(e)) == ArgTotal(e)
    decreases e
  {
    hide MarksBefore;
    match e
    case Binary(l, op, r) =>
      PrintedMarks(l);
      PrintedMarks(r);
      ThreeFactors(Printed(l), OperatorToken(op), Printed(r));
    case FuncCall(name, args) => PrintedArgMarks(args, |args|, Printed(e).args);
    case _ =>
  }

  lemma {:induction false} PrintedArgMarks(args: seq<Expr>, n: nat, raws: seq<RawExpr>)
    requires n <= |args| == |raws| && forall i :: 0 <= i < |args| ==> raws[i] == RawExpr([Printed(args[i])])
    ensures MarksInArgs(raws, n) == ArgTotalOf(args, n)
    decreases args, n
  {
    hide MarksBefore, MarkCount, Printed, ArgTotal;
    if n > 0 {
      PrintedArgMarks(args, n - 1, raws);
      PrintedMarks(args[n - 1]);
      OneFactor(Printed(args[n - 1]));
    }
  }

  lemma SingleDenotes(f: Factor, base: nat, e: Expr)
    ensures Denotes(RawExpr([f]), base, e) <==> Means(f, base, e)
  {
    hide Means, MarksBefore;
    OneFactor(f);
    var fs := RawExpr([f]).factors;
    if Means(f, base, e) {
      assert IsReading(Leaf, fs) && Builds(Leaf, fs, 0, base, e);
    }
    if Denotes(RawExpr([f]), base, e) {
      var t :| IsReading(t, fs) && Builds(t, fs, 0, base, e);
      assert t.Leaf?;
    }
  }

  lemma TripleDenotes(f: Factor, op: Operator, g: Factor, base: nat, l: Expr, r: Expr)
    ensures Denotes(RawExpr([f, OperatorToken(op), g]), base, Binary(l, op, r)) <==>
      Means(f, base, l) && Means(g, base + MarkCount(f), r)
  {
    hide Means, MarksBefore, OperatorToken, Precedence, MarkCount;
    var fs := RawExpr([f, OperatorToken(op), g]).factors;
    var e := Binary(l, op, r);
    ThreeFactors(f, OperatorToken(op), g);
    var t := Node(Leaf, op, Leaf);
    assert fs[1] == OperatorToken(op) && Spans(Leaf, fs, 0) && Spans(Leaf, fs, 2);
    assert IsReading(t, fs);
    assert Builds(t, fs, 0, base, e) <==> Means(f, base, l) && Means(g, base + MarkCount(f), r) by {
      assert Builds(t, fs, 0, base, e) <==> Builds(Leaf, fs, 0, base, l) && Builds(Leaf, fs, 2, base, r);
    }
    if Denotes(RawExpr(fs), base, e) {
      var u :| IsReading(u, fs) && Builds(u, fs, 0, base, e);
      ReadingUnique(t, u, fs, 0);
    }
  }

  lemma PrintedCall(e: Expr, base: nat)
    requires e.FuncCall? && |Printed(e).args| == |e.args|
    requires forall i :: 0 <= i < |e.args| ==>
      (Denotes(Printed(e).args[i], base + MarksInArgs(Printed(e).args, i), e.args[i]) <==>
       Numbered(e.args[i], base + ArgTotalOf(e.args, i)))
    ensures Means(Printed(e), base, e) <==> Numbered(e, base)
  {
    hide Denotes, MarksInArgs, ArgTotalOf;
  }

  /** Printing an expression and resolving what was printed gives it back if and
      only if its placeholders are numbered in reading order and its functions
      are supported. */
  lemma {:induction false} PrintedMeans(e: Expr, base: nat)
    ensures Means(Printed(e), base, e) <==> Numbered(e, base)
    decreases e
  {
    hide Denotes, MarksInArgs, MarkCount, ArgTotalOf, OperatorToken;
    match e
    case Binary(l, op, r) =>
      PrintedMeans(l, base);
      PrintedMeans(r, base + ArgTotal(l));
      PrintedMarks(l);
      TripleDenotes(Printed(l), op, Printed(r), base, l, r);
    case FuncCall(name, args) =>
      var raws := Printed(e).args;
      forall i | 0 <= i < |args|
        ensures Denotes(raws[i], base + MarksInArgs(raws, i), args[i]) <==>
          Numbered(args[i], base + ArgTotalOf(args, i))
      {
        PrintedArgMarks(args, i, raws);
        PrintedMeans(args[i], base + ArgTotalOf(args, i));
        SingleDenotes(Printed(args[i]), base + MarksInArgs(raws, i), args[i]);
      }
      PrintedCall(e, base);
    case _ =>
  }

  /** Whatever a flat expression was resolved to, resolving it again from its
      printed form gives the same expression and no other. */
  lemma PrintResolves(raw: RawExpr, base: nat, e: Expr)
    requires Denotes(raw, base, e)
    ensures Valid(RawExpr([Printed(e)])) && Denotes(RawExpr([Printed(e)]), base, e)
    ensures forall e' :: Denotes(RawExpr([Printed(e)]), base, e') ==> e' == e
  {
    hide Denotes, Numbered, Means, Valid, Printed;
    DenotedNumbered(raw, base, e);
    PrintedMeans(e, base);
    SingleDenotes(Printed(e), base, e);
    DenotedIsValid(RawExpr([Printed(e)]), base, e);
    forall e' | Denotes(RawExpr([Printed(e)]), base, e')
      ensures e' == e
    {
      DenotesUnique(RawExpr([Printed(e)]), base, e, e');
    }
  }

  /* ---- by the texts of the tokens ---- */

  /** The operator texts, the loosest first. */
  const LEVELS: seq<set<string>> := [
    {"OR"},
    {"AND"},
    {"=", "==", "!=", "<>", "<", "<=", ">", ">="},
    {"+", "-"},
    {"*", "/", "%"}]

  const OPERATORS: map<string, Operator> := map[
    "OR" := Or, "AND" := And,
    "=" := Equal, "==" := Equal, "!=" := NotEqual, "<>" := NotEqual,
    "<" := LessThan, "<=" := LessThanOrEq, ">" := GreaterThan, ">=" := GreaterThanOrEq,
    "+" := Add, "-" := Subtract, "*" := Multiply, "/" := Divide, "%" := Modulo]

  const FUNCTIONS: set<string> := {"COUNT", "MAX", "MIN", "SUM", "AVG"}

  function TextOf(f: Factor): string {
    match f case StarTok => "*" case OpTok(op) => op case _ => ""
  }

  predicate SpelledAt(f: Factor, level: nat) {
    level < |LEVELS| && TextOf(f) in LEVELS[level]
  }

  lemma NamedByText(f: Factor)
    ensures OperatorOf(f) == if TextOf(f) in OPERATORS then Some(OPERATORS[TextOf(f)]) else None
    ensures TextOf(f) in OPERATORS ==> MarkCount(f) == 0
  {
  }

  lemma SpelledNamed(f: Factor, level: nat)
    requires SpelledAt(f, level)
    ensures TextOf(f) in OPERATORS && OperatorOf(f) == Some(OPERATORS[TextOf(f)]) && MarkCount(f) == 0
  {
    NamedByText(f);
  }

  lemma LevelOrder(f: Factor, g: Factor, i: nat, j: nat)
    requires SpelledAt(f, i) && SpelledAt(g, j) && OperatorOf(f).Some? && OperatorOf(g).Some?
    ensures j <= i <==> Precedence(OperatorOf(g).value) <= Precedence(OperatorOf(f).value)
  {
    LevelIsPrecedence(f, i);
    LevelIsPrecedence(g, j);
  }

  lemma LevelIsPrecedence(f: Factor, i: nat)
    requires SpelledAt(f, i)
    ensures OperatorOf(f).Some? && Precedence(OperatorOf(f).value) == i + 1
  {
  }

  /** What a factor alone means. */
  ghost predicate Alone(f: Factor, base: nat, e: Expr) {
    Denotes(RawExpr([f]), base, e)
  }

  /** Between three values the operator of the higher level binds first, and of two
      on one level the left one; each is the operator its text names. */
  lemma BindsByText(f: Factor, s: Factor, g: Factor, t: Factor, h: Factor, i: nat, j: nat, base: nat, e: Expr)
    requires SpelledAt(s, i) && SpelledAt(t, j)
    ensures TextOf(s) in OPERATORS && TextOf(t) in OPERATORS
    ensures Denotes(RawExpr([f, s, g, t, h]), base, e) <==>
      var b, c := base + MarkCount(f), base + MarkCount(f) + MarkCount(g);
      if j <= i then
        && e.Binary? && e.op == OPERATORS[TextOf(t)] && Alone(h, c, e.right)
        && e.left.Binary? && e.left.op == OPERATORS[TextOf(s)]
        && Alone(f, base, e.left.left) && Alone(g, b, e.left.right)
      else
        && e.Binary? && e.op == OPERATORS[TextOf(s)] && Alone(f, base, e.left)
        && e.right.Binary? && e.right.op == OPERATORS[TextOf(t)]
        && Alone(g, b, e.right.left) && Alone(h, c, e.right.right)
  {
    hide Means, MarksBefore, OperatorOf, Precedence, MarkCount, Denotes, Alone, SpelledAt, TextOf;
    SpelledNamed(s, i);
    SpelledNamed(t, j);
    LevelOrder(s, t, i, j);
    var fs := [f, s, g, t, h];
    var op, op' := OperatorOf(s).value, OperatorOf(t).value;
    var tree := if j <= i then Node(Node(Leaf, op, Leaf), op', Leaf) else Node(Leaf, op, Node(Leaf, op', Leaf));
    FiveSpan(fs, tree, op, op');
    FiveBuild(f, s, g, t, h, tree, op, op', base, e);
    ReadAs(RawExpr(fs), tree, base, e);
  }

  /** The nesting that one ordered tree gives is the only one. */
  lemma ReadAs(raw: RawExpr, t: Tree, base: nat, e: Expr)
    requires IsReading(t, raw.factors)
    ensures Denotes(raw, base, e) <==> Builds(t, raw.factors, 0, base, e)
  {
    hide Ordered, Spans, Builds;
    if Denotes(raw, base, e) {
      var u :| IsReading(u, raw.factors) && Builds(u, raw.factors, 0, base, e);
      ReadingUnique(t, u, raw.factors, 0);
    }
  }

  lemma FiveSpan(fs: seq<Factor>, t: Tree, op: Operator, op': Operator)
    requires |fs| == 5 && OperatorOf(fs[1]) == Some(op) && OperatorOf(fs[3]) == Some(op')
    requires t == if Precedence(op') <= Precedence(op) then Node(Node(Leaf, op, Leaf), op', Leaf)
                  else Node(Leaf, op, Node(Leaf, op', Leaf))
    ensures IsReading(t, fs)
  {
    hide OperatorOf, Precedence;
    assert Len(Leaf) == 1 && Len(Node(Leaf, op, Leaf)) == 3 && Len(Node(Leaf, op', Leaf)) == 3;
    assert Spans(Leaf, fs, 0) && Spans(Leaf, fs, 2) && Spans(Leaf, fs, 4);
    assert Spans(Node(Leaf, op, Leaf), fs, 0) && Spans(Node(Leaf, op', Leaf), fs, 2);
    assert Ordered(Node(Leaf, op, Leaf)) && Ordered(Node(Leaf, op', Leaf));
  }

  lemma FiveMarks(f: Factor, s: Factor, g: Factor, t: Factor, h: Factor)
    requires MarkCount(s) == 0 && MarkCount(t) == 0
    ensures var fs := [f, s, g, t, h];
      && MarksBefore(fs, 0) == 0 && MarksBefore(fs, 2) == MarkCount(f)
      && MarksBefore(fs, 4) == MarkCount(f) + MarkCount(g)
  {
    var fs := [f, s, g, t, h];
    assert MarksBefore(fs, 1) == MarkCount(f);
    assert MarksBefore(fs, 2) == MarkCount(f);
    assert MarksBefore(fs, 3) == MarkCount(f) + MarkCount(g);
  }

  lemma LeafBuilds(fs: seq<Factor>, k: nat, base: nat, e: Expr)
    requires k < |fs|
    ensures Builds(Leaf, fs, k, base, e) <==> Alone(fs[k], base + MarksBefore(fs, k), e)
  {
    hide Denotes;
    SingleDenotes(fs[k], base + MarksBefore(fs, k), e);
  }

  lemma FiveBuild(f: Factor, s: Factor, g: Factor, t: Factor, h: Factor, tree: Tree, op: Operator, op': Operator,
                  base: nat, e: Expr)
    requires MarkCount(s) == 0 && MarkCount(t) == 0
    requires tree == Node(Node(Leaf, op, Leaf), op', Leaf) || tree == Node(Leaf, op, Node(Leaf, op', Leaf))
    ensures Builds(tree, [f, s, g, t, h], 0, base, e) <==>
      var b, c := base + MarkCount(f), base + MarkCount(f) + MarkCount(g);
      if tree.left.Node? then
        && e.Binary? && e.op == op' && Alone(h, c, e.right)
        && e.left.Binary? && e.left.op == op && Alone(f, base, e.left.left) && Alone(g, b, e.left.right)
      else
        && e.Binary? && e.op == op && Alone(f, base, e.left)
        && e.right.Binary? && e.right.op == op' && Alone(g, b, e.right.left) && Alone(h, c, e.right.right)
  {
    hide Means, MarksBefore, MarkCount, Alone;
    var fs := [f, s, g, t, h];
    FiveMarks(f, s, g, t, h);
    assert Len(Leaf) == 1 && Len(Node(Leaf, op, Leaf)) == 3 && Len(Node(Leaf, op', Leaf)) == 3;
    forall k: nat, x | k < 5
      ensures Builds(Leaf, fs, k, base, x) <==> Alone(fs[k], base + MarksBefore(fs, k), x)
    {
      LeafBuilds(fs, k, base, x);
    }
    forall l, r
      ensures Builds(Node(Leaf, op, Leaf), fs, 0, base, Binary(l, op, r)) <==>
        Builds(Leaf, fs, 0, base, l) && Builds(Leaf, fs, 2, base, r)
      ensures Builds(Node(Leaf, op', Leaf), fs, 2, base, Binary(l, op', r)) <==>
        Builds(Leaf, fs, 2, base, l) && Builds(Leaf, fs, 4, base, r)
    {
    }
  }

  /** A token between two values makes an expression exactly if its text is that of
      an operator, and then the one it names. */
  lemma OperatesByText(f: Factor, s: Factor, g: Factor, base: nat, e: Expr)
    ensures Denotes(RawExpr([f, s, g]), base, e) <==>
      && TextOf(s) in OPERATORS && e.Binary? && e.op == OPERATORS[TextOf(s)]
      && Alone(f, base, e.left) && Alone(g, base + MarkCount(f), e.right)
  {
    hide Means, MarksBefore, Precedence, MarkCount, Builds, Spans, Alternates, ValidPrimary;
    NamedByText(s);
    var fs := [f, s, g];
    if OperatorOf(s).Some? {
      TripleBuilds(f, s, g, OperatorOf(s).value, base, e);
      ReadAs(RawExpr(fs), Node(Leaf, OperatorOf(s).value, Leaf), base, e);
    } else if Denotes(RawExpr(fs), base, e) {
      DenotedIsValid(RawExpr(fs), base, e);
      ThreeAlternate(fs);
    }
  }

  lemma ThreeAlternate(fs: seq<Factor>)
    requires |fs| == 3 && Alternates(fs, 0, 3)
    ensures OperatorOf(fs[1]).Some?
  {
    hide ValidPrimary, OperatorOf;
  }

  lemma TripleBuilds(f: Factor, s: Factor, g: Factor, op: Operator, base: nat, e: Expr)
    requires OperatorOf(s) == Some(op) && MarkCount(s) == 0
    ensures IsReading(Node(Leaf, op, Leaf), [f, s, g])
    ensures Builds(Node(Leaf, op, Leaf), [f, s, g], 0, base, e) <==>
      e.Binary? && e.op == op && Alone(f, base, e.left) && Alone(g, base + MarkCount(f), e.right)
  {
    hide Means, MarksBefore, OperatorOf, Precedence, Alone;
    var fs := [f, s, g];
    ThreeFactors(f, s, g);
    assert Len(Leaf) == 1 && Spans(Leaf, fs, 0) && Spans(Leaf, fs, 2);
    forall k: nat, x | k < 3
      ensures Builds(Leaf, fs, k, base, x) <==> Alone(fs[k], base + MarksBefore(fs, k), x)
    {
      LeafBuilds(fs, k, base, x);
    }
  }

  /** A value alone stands for itself, a placeholder for the next argument, and a
      parenthesis for what is in it; an operator alone stands for nothing. */
  lemma StandsForItself(text: string, column: string, op: string, sub: RawExpr, base: nat, e: Expr)
    ensures Alone(LitTok(Good(text)), base, e) <==> e == Lit(text)
    ensures !Alone(LitTok(Malformed(text)), base, e)
    ensures Alone(ColumnTok(column), base, e) <==> e == Column(column)
    ensures Alone(ArgTok, base, e) <==> e == Arg(base)
    ensures Alone(StarTok, base, e) <==> e == Star
    ensures Alone(SubTok(sub), base, e) <==> Denotes(sub, base, e)
    ensures !Alone(OpTok(op), base, e)
  {
    hide Denotes;
    SingleDenotes(LitTok(Good(text)), base, e);
    SingleDenotes(LitTok(Malformed(text)), base, e);
    SingleDenotes(ColumnTok(column), base, e);
    SingleDenotes(ArgTok, base, e);
    SingleDenotes(StarTok, base, e);
    SingleDenotes(SubTok(sub), base, e);
    SingleDenotes(OpTok(op), base, e);
  }

  /** Placeholders are counted through every nested part. */
  lemma PlaceholdersCounted(f: Factor, s: Factor, g: Factor, name: string)
    requires TextOf(s) in OPERATORS
    ensures MarkCount(ArgTok) == 1 && MarkCount(StarTok) == 0
    ensures MarkCount(SubTok(RawExpr([f, s, g]))) == MarkCount(f) + MarkCount(g)
    ensures MarkCount(FuncTok(name, [RawExpr([f]), RawExpr([g])])) == MarkCount(f) + MarkCount(g)
  {
    hide MarksBefore;
    NamedByText(s);
    ThreeFactors(f, s, g);
    OneFactor(f);
    OneFactor(g);
    var args := [RawExpr([f]), RawExpr([g])];
    assert MarksInArgs(args, 1) == MarkCount(f);
    assert MarksInArgs(args, 2) == MarkCount(f) + MarkCount(g);
  }

  lemma KnownFunctions(name: string)
    ensures Supported(name) <==> name in FUNCTIONS
  {
  }

  /** A call of a known function resolves to its name and its arguments in order,
      the placeholders of the second numbered on from those of the first. */
  lemma CallsInOrder(name: string, f: Factor, g: Factor, base: nat, e: Expr)
    ensures Alone(FuncTok(name, [RawExpr([f]), RawExpr([g])]), base, e) <==>
      && name in FUNCTIONS && e.FuncCall? && e.name == name && |e.args| == 2
      && Alone(f, base, e.args[0]) && Alone(g, base + MarkCount(f), e.args[1])
  {
    hide *;
    KnownFunctions(name);
    AloneMeans(FuncTok(name, [RawExpr([f]), RawExpr([g])]), base, e);
    TwoArgsMean(name, f, g, base, e);
  }

  lemma AloneMeans(f: Factor, base: nat, e: Expr)
    ensures Alone(f, base, e) <==> Means(f, base, e)
  {
    hide Denotes, Means;
    SingleDenotes(f, base, e);
  }

  lemma TwoMarks(f: Factor, g: Factor)
    ensures MarksInArgs([RawExpr([f]), RawExpr([g])], 0) == 0
    ensures MarksInArgs([RawExpr([f]), RawExpr([g])], 1) == MarkCount(f)
  {
    hide MarksBefore, MarkCount;
    OneFactor(f);
  }

  lemma TwoArgsMean(name: string, f: Factor, g: Factor, base: nat, e: Expr)
    ensures Means(FuncTok(name, [RawExpr([f]), RawExpr([g])]), base, e) <==>
      && Supported(name) && e.FuncCall? && e.name == name && |e.args| == 2
      && Alone(f, base, e.args[0]) && Alone(g, base + MarkCount(f), e.args[1])
  {
    hide Denotes, MarksInArgs, Supported, MarkCount;
    TwoMarks(f, g);
  }

  lemma CallOfNothing(name: string, base: nat, e: Expr)
    ensures Alone(FuncTok(name, []), base, e) <==> name in FUNCTIONS && e == FuncCall(name, [])
  {
    hide Denotes, MarksBefore, Supported;
    KnownFunctions(name);
    SingleDenotes(FuncTok(name, []), base, e);
  }
}
