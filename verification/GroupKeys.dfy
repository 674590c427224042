/** The key a row is grouped by: the printed group values, joined by zero bytes. */
module GroupKeys {
  import opened Options
  import opened Bytes
  import opened Rows

  const SEPARATOR: char := '\0'

  function Decimal(n: nat): string {
    (if n < 10 then "" else Decimal(n / 10)) + [('0' as int + n % 10) as char]
  }

  function TextChars(text: Bytes): string {
    seq(|text|, i requires 0 <= i < |text| => text[i] as int as char)
  }

  /** How a value is printed; how numbers with a fraction, times, blobs and UUIDs
      are is a parameter. */
  function Printed(v: Value, other: Value -> string): string {
    match v
    case Null => "<nil>"
    case Int(i) => if i < 0 then "-" + Decimal(-i) else Decimal(i)
    case Text(text) => TextChars(text)
    case Bool(b) => if b then "true" else "false"
    case _ => other(v)
  }

  function AllPrinted(values: Row, other: Value -> string): (parts: seq<string>)
    ensures |parts| == |values| && forall i :: 0 <= i < |values| ==> parts[i] == Printed(values[i], other)
  {
    seq(|values|, i requires 0 <= i < |values| => Printed(values[i], other))
  }

  function Joined(parts: seq<string>): string {
    if parts == [] then ""
    else if |parts| == 1 then parts[0]
    else parts[0] + [SEPARATOR] + Joined(parts[1..])
  }

  /** The values of the group expressions; None where evaluating one fails. */
  function GroupValues(exprs: seq<Row -> Option<Value>>, row: Row): Option<Row> {
    if exprs == [] then Some([])
    else
      var first, rest := GroupValues(exprs[..|exprs| - 1], row), exprs[|exprs| - 1](row);
      if first.Some? && rest.Some? then Some(first.value + [rest.value]) else None
  }

  function GroupKeyOf(exprs: seq<Row -> Option<Value>>, other: Value -> string, row: Row): Option<string> {
    match GroupValues(exprs, row)
    case None => None
    case Some(values) => Some(Joined(AllPrinted(values, other)))
  }

  /** Evaluates and prints the group expressions of a row. */
  method GroupKey(exprs: seq<Row -> Option<Value>>, other: Value -> string, row: Row) returns (key: Option<string>)
    ensures key == GroupKeyOf(exprs, other, row)
  {
    if |exprs| == 0 {
      return Some("");
    }
    var parts: seq<string> := [];
    ghost var values: Row := [];
    var i := 0;
    while i < |exprs|
      invariant i <= |exprs| && GroupValues(exprs[..i], row) == Some(values)
      invariant |values| == i && parts == AllPrinted(values, other)
    {
      assert exprs[..i + 1][..i] == exprs[..i];
      var val := exprs[i](row);
      if val.None? {
        FailsAfter(exprs, row, i + 1);
        return None;
      }
      parts := parts + [Printed(val.value, other)];
      values := values + [val.value];
      i := i + 1;
    }
    assert exprs[..i] == exprs;
    var joined := Join(parts);
    key := Some(joined);
  }

  lemma {:induction false} FailsAfter(exprs: seq<Row -> Option<Value>>, row: Row, n: nat)
    requires n <= |exprs| && GroupValues(exprs[..n], row) == None
    ensures GroupValues(exprs, row) == None
    decreases |exprs| - n
  {
    if n == |exprs| {
      assert exprs[..n] == exprs;
    } else {
      assert exprs[..n + 1][..n] == exprs[..n];
      FailsAfter(exprs, row, n + 1);
    }
  }

  method Join(parts: seq<string>) returns (s: string)
    requires parts != []
    ensures s == Joined(parts)
  {
    s := parts[|parts| - 1];
    var i := |parts| - 1;
    while i > 0
      invariant 0 <= i < |parts| && s == Joined(parts[i..])
    {
      i := i - 1;
      assert parts[i..][1..] == parts[i + 1..];
      s := parts[i] + [SEPARATOR] + s;
    }
    assert parts[0..] == parts;
  }

  /* ---- when a key tells rows apart ---- */

  predicate Plain(s: string) {
    forall i :: 0 <= i < |s| ==> s[i] != SEPARATOR
  }

  /** Joined parts without a separator in them come apart again. */
  lemma {:induction false} JoinApart(a: seq<string>, b: seq<string>)
    requires |a| == |b| && forall i :: 0 <= i < |a| ==> Plain(a[i]) && Plain(b[i])
    ensures Joined(a) == Joined(b) <==> a == b
  {
    if |a| > 1 {
      JoinApart(a[1..], b[1..]);
      if Joined(a) == Joined(b) {
        FirstSeparator(a[0], Joined(a[1..]), b[0], Joined(b[1..]));
        assert a == [a[0]] + a[1..] && b == [b[0]] + b[1..];
      }
    }
  }

  lemma FirstSeparator(p: string, x: string, q: string, y: string)
    requires Plain(p) && Plain(q) && p + [SEPARATOR] + x == q + [SEPARATOR] + y
    ensures p == q && x == y
  {
    var s, t := p + [SEPARATOR] + x, q + [SEPARATOR] + y;
    assert s[|p|] == SEPARATOR && t[|q|] == SEPARATOR;
    assert |p| == |q|;
    assert s[..|p|] == p && t[..|q|] == q && s[|p| + 1..] == x && t[|q| + 1..] == y;
  }

  lemma {:induction false} DecimalDigits(n: nat)
    ensures Decimal(n) != [] && forall i :: 0 <= i < |Decimal(n)| ==> '0' <= Decimal(n)[i] <= '9'
  {
    if n >= 10 {
      DecimalDigits(n / 10);
    }
  }

  lemma {:induction false} DecimalApart(m: nat, n: nat)
    requires Decimal(m) == Decimal(n)
    ensures m == n
  {
    var s := Decimal(m);
    DecimalDigits(m / 10);
    DecimalDigits(n / 10);
    assert s[|s| - 1] == ('0' as int + m % 10) as char == ('0' as int + n % 10) as char;
    if m >= 10 && n >= 10 {
      assert s[..|s| - 1] == Decimal(m / 10) == Decimal(n / 10);
      DecimalApart(m / 10, n / 10);
    }
  }

  /** Values of one of these types print alike only if they are equal. */
  predicate PrintsPlainly(v: Value) {
    v.Null? || v.Int? || v.Bool? || (v.Text? && forall i :: 0 <= i < |v.text| ==> v.text[i] != 0)
  }

  lemma PrintedApart(v: Value, w: Value, other: Value -> string)
    requires DataType(v) == DataType(w) && PrintsPlainly(v) && PrintsPlainly(w)
    ensures Plain(Printed(v, other)) && (Printed(v, other) == Printed(w, other) <==> v == w)
  {
    match v {
      case Int(i) =>
        DecimalDigits(if i < 0 then -i else i);
        DecimalDigits(if w.i < 0 then -w.i else w.i);
        if Printed(v, other) == Printed(w, other) {
          IntegersApart(i, w.i);
        }
      case Text(text) =>
        if TextChars(text) == TextChars(w.text) {
          forall k | 0 <= k < |text|
            ensures text[k] == w.text[k]
          {
            assert TextChars(text)[k] == TextChars(w.text)[k];
          }
        }
      case _ =>
    }
  }

  lemma SignPrinted(i: int)
    ensures Printed(Int(i), _ => "") != "" && (Printed(Int(i), _ => "")[0] == '-' <==> i < 0)
  {
    DecimalDigits(if i < 0 then -i else i);
  }

  lemma IntegersApart(i: int, j: int)
    requires Printed(Int(i), _ => "") == Printed(Int(j), _ => "")
    ensures i == j
  {
    hide Decimal;
    SignPrinted(i);
    SignPrinted(j);
    if i < 0 {
      assert ("-" + Decimal(-i))[1..] == Decimal(-i) && ("-" + Decimal(-j))[1..] == Decimal(-j);
      DecimalApart(-i, -j);
    } else {
      DecimalApart(i, j);
    }
  }

  /** Rows whose group values are of the same types, and are null, whole numbers,
      truth values or text without a zero byte, fall into one group exactly if
      the values are the same. */
  lemma GroupsTellApart(a: Row, b: Row, other: Value -> string)
    requires |a| == |b| && forall i :: 0 <= i < |a| ==> DataType(a[i]) == DataType(b[i])
    requires forall i :: 0 <= i < |a| ==> PrintsPlainly(a[i]) && PrintsPlainly(b[i])
    ensures Joined(AllPrinted(a, other)) == Joined(AllPrinted(b, other)) <==> a == b
  {
    hide Printed, PrintsPlainly, Joined;
    var p, q := AllPrinted(a, other), AllPrinted(b, other);
    forall i | 0 <= i < |a|
      ensures Plain(p[i]) && Plain(q[i]) && (p[i] == q[i] <==> a[i] == b[i])
    {
      PrintedApart(a[i], b[i], other);
      PrintedApart(b[i], a[i], other);
    }
    JoinApart(p, q);
    if p == q {
      assert forall i :: 0 <= i < |a| ==> p[i] == q[i];
      assert a == b;
    }
  }

  /** Without these conditions different rows fall into one group: null and the
      text <nil>, a number and its digits, and texts with a zero byte. */
  lemma GroupsRunTogether(other: Value -> string)
    ensures Printed(Null, other) == Printed(Text([60, 110, 105, 108, 62]), other)
    ensures Printed(Int(1), other) == Printed(Text([49]), other)
    ensures Joined(AllPrinted([Text([0]), Text([])], other)) == Joined(AllPrinted([Text([]), Text([0])], other))
  {
    assert TextChars([60, 110, 105, 108, 62]) == "<nil>";
    assert TextChars([49]) == "1" == Decimal(1);
    var p, q := AllPrinted([Text([0]), Text([])], other), AllPrinted([Text([]), Text([0])], other);
    assert TextChars([0]) == [SEPARATOR] && TextChars([]) == "";
    assert p == [[SEPARATOR], ""] && q == ["", [SEPARATOR]];
    assert p[1..] == [""] && q[1..] == [[SEPARATOR]];
    assert Joined(p) == [SEPARATOR] + [SEPARATOR] + "" == "" + [SEPARATOR] + [SEPARATOR] == Joined(q);
  }

  /* ---- every group expression counts ---- */

  lemma {:induction false} ValuesOfAll(exprs: seq<Row -> Option<Value>>, row: Row)
    ensures GroupValues(exprs, row).Some? <==> forall i :: 0 <= i < |exprs| ==> exprs[i](row).Some?
    ensures GroupValues(exprs, row).Some? ==>
      && |GroupValues(exprs, row).value| == |exprs|
      && (forall i :: 0 <= i < |exprs| ==> exprs[i](row) == Some(GroupValues(exprs, row).value[i]))
  {
    if exprs != [] {
      var n := |exprs| - 1;
      ValuesOfAll(exprs[..n], row);
      assert forall i :: 0 <= i < n ==> exprs[..n][i] == exprs[i];
    }
  }

  /** Two rows are in one group exactly if every group expression has the same value
      over both, where their values print plainly; a row over which one fails has no
      group. */
  lemma GroupedByEvery(exprs: seq<Row -> Option<Value>>, other: Value -> string, a: Row, b: Row)
    ensures GroupKeyOf(exprs, other, a).Some? <==> forall i :: 0 <= i < |exprs| ==> exprs[i](a).Some?
    ensures (forall i :: 0 <= i < |exprs| ==>
              && exprs[i](a).Some? && exprs[i](b).Some?
              && DataType(exprs[i](a).value) == DataType(exprs[i](b).value)
              && PrintsPlainly(exprs[i](a).value) && PrintsPlainly(exprs[i](b).value)) ==>
      (GroupKeyOf(exprs, other, a) == GroupKeyOf(exprs, other, b) <==>
       forall i :: 0 <= i < |exprs| ==> exprs[i](a) == exprs[i](b))
  {
    hide Joined, GroupValues, PrintsPlainly, DataType;
    ValuesOfAll(exprs, a);
    ValuesOfAll(exprs, b);
    if forall i :: 0 <= i < |exprs| ==>
         && exprs[i](a).Some? && exprs[i](b).Some?
         && DataType(exprs[i](a).value) == DataType(exprs[i](b).value)
         && PrintsPlainly(exprs[i](a).value) && PrintsPlainly(exprs[i](b).value)
    {
      var v, w := GroupValues(exprs, a).value, GroupValues(exprs, b).value;
      GroupsTellApart(v, w, other);
      assert v == w <==> forall i :: 0 <= i < |exprs| ==> v[i] == w[i];
    }
  }

  /** Whole numbers are printed in decimal, the highest digit first. */
  lemma DecimalIs(n: nat, d: nat)
    requires d < 10
    ensures Decimal(d) == ["0123456789"[d]]
    ensures 0 < n ==> Decimal(10 * n + d) == Decimal(n) + Decimal(d)
    ensures 0 < n ==> Printed(Int(0 - n), _ => "") == "-" + Printed(Int(n), _ => "")
  {
    assert (10 * n + d) / 10 == n && (10 * n + d) % 10 == d;
    assert "0123456789"[d] == ('0' as int + d) as char by {
      DigitChar(d);
    }
  }

  lemma DigitChar(d: nat)
    requires d < 10
    ensures "0123456789"[d] == ('0' as int + d) as char
  {
    assert d == 0 || d == 1 || d == 2 || d == 3 || d == 4 || d == 5 || d == 6 || d == 7 || d == 8 || d == 9;
  }
}
