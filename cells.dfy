/** Spreadsheet cells as the readers hand them over, their Python `str()` rendering, and the
    column operations the upload code applies to a table (pandas `DataFrame`). */
module Cells {
  import opened Seqs
  import opened Strings

  /** A calendar date (the date part of a pandas `Timestamp` or a Python `datetime`). */
  datatype CalendarDate = CalendarDate(year: nat, month: nat, day: nat)

  /** One cell value: missing (None or NaN), an integer, a floating-point number (kept exact),
      a string, or a date. */
  datatype Cell = Empty | Int(i: int) | Real(r: real) | Text(s: string) | Date(date: CalendarDate)

  /** Python truthiness of a cell value, as `if cell:` tests it. */
  predicate Truthy(c: Cell) {
    match c
    case Empty => false
    case Int(i) => i != 0
    case Real(r) => r != 0.0
    case Text(s) => s != []
    case Date(_) => true
  }

  predicate NoLetters(s: string) {
    forall k :: 0 <= k < |s| ==> !IsLowerLetter(s[k]) && !IsUpperLetter(s[k])
  }

  /** Decimal digits of a fraction in [0, 1), at most `n` of them, without trailing zeros. */
  function FractionDigits(f: real, n: nat): (s: string)
    requires 0.0 <= f < 1.0
    ensures AllDigits(s)
    decreases n
  {
    if n == 0 || f == 0.0 then ""
    else
      var d := (f * 10.0).Floor;
      [DigitChar(d)] + FractionDigits(f * 10.0 - d as real, n - 1)
  }

  /** `str(x)` for a float: integral part, a point, and the fraction digits ("12.0", "-0.5"). */
  function FloatRepr(r: real): (s: string)
    ensures |s| >= 3 && NoLetters(s)
  {
    var a := if r < 0.0 then -r else r;
    var w := a.Floor;
    var f := a - w as real;
    var sign := if r < 0.0 then "-" else "";
    var fraction := if f == 0.0 then "0" else FractionDigits(f, 17);
    assert NoLetters(sign) && NoLetters(NatToString(w)) && NoLetters(".") && NoLetters(fraction);
    NoLettersConcat(sign, NatToString(w));
    NoLettersConcat(sign + NatToString(w), ".");
    NoLettersConcat(sign + NatToString(w) + ".", fraction);
    sign + NatToString(w) + "." + fraction
  }

  lemma NoLettersConcat(a: string, b: string)
    requires NoLetters(a) && NoLetters(b)
    ensures NoLetters(a + b)
  {
    assert forall k :: 0 <= k < |a + b| ==> (a + b)[k] == if k < |a| then a[k] else b[k - |a|];
  }

  /** `str()` of a pandas `Timestamp` at midnight: "YYYY-MM-DD 00:00:00". */
  function DateRepr(d: CalendarDate): (s: string)
    ensures NoLetters(s)
  {
    var y := ZFill(NatToString(d.year), 4);
    var m := ZFill(NatToString(d.month), 2);
    var dd := ZFill(NatToString(d.day), 2);
    NoLettersConcat(y, "-");
    NoLettersConcat(y + "-", m);
    NoLettersConcat(y + "-" + m, "-");
    NoLettersConcat(y + "-" + m + "-", dd);
    NoLettersConcat(y + "-" + m + "-" + dd, " 00:00:00");
    y + "-" + m + "-" + dd + " 00:00:00"
  }

  /** `str(value)`, which is also what `Series.astype(str)` produces cell by cell; a missing
      value renders as "nan". */
  function Render(c: Cell): string {
    match c
    case Empty => "nan"
    case Int(i) => IntToString(i)
    case Real(r) => FloatRepr(r)
    case Text(s) => s
    case Date(d) => DateRepr(d)
  }

  /** Only a text cell can render to something that contains a letter (besides the "nan" of a
      missing value). */
  lemma RenderNumberHasNoLetters(c: Cell)
    requires c.Int? || c.Real? || c.Date?
    ensures NoLetters(Render(c))
  {
  }

  /** A column-labelled table: `rows[i][j]` is the cell of row `i` under `header[j]`. */
  datatype Table = Table(header: seq<string>, rows: seq<seq<Cell>>)

  predicate Distinct(names: seq<string>) {
    forall i, j :: 0 <= i < j < |names| ==> names[i] != names[j]
  }

  /** Every row has one cell per column, and column labels are unique (both pandas readers
      de-duplicate repeated header labels). */
  predicate WellFormed(t: Table) {
    Distinct(t.header) && forall i :: 0 <= i < |t.rows| ==> |t.rows[i]| == |t.header|
  }

  /** Position of the first column labelled `name`. */
  function IndexOf(names: seq<string>, name: string): (j: nat)
    requires name in names
    ensures j < |names| && names[j] == name
    ensures forall k :: 0 <= k < j ==> names[k] != name
  {
    if names[0] == name then 0 else 1 + IndexOf(names[1..], name)
  }

  /** In a list without repeats the position of a label is the only one carrying it. */
  lemma IndexOfDistinct(names: seq<string>, j: nat)
    requires Distinct(names) && j < |names|
    ensures IndexOf(names, names[j]) == j
  {
  }

  /** `df[names]`: the named columns, in the order `names` gives. */
  function Select(t: Table, names: seq<string>): (r: Table)
    requires WellFormed(t)
    requires forall n :: n in names ==> n in t.header
    ensures r.header == names && |r.rows| == |t.rows|
    ensures forall i, j :: 0 <= i < |r.rows| && 0 <= j < |names| ==>
      |r.rows[i]| == |names| && r.rows[i][j] == t.rows[i][IndexOf(t.header, names[j])]
  {
    Table(names, seq(|t.rows|, i requires 0 <= i < |t.rows| =>
      seq(|names|, j requires 0 <= j < |names| => t.rows[i][IndexOf(t.header, names[j])])))
  }

  /** `df.iloc[:, :k]`: the first `k` columns. */
  function TakeColumns(t: Table, k: nat): (r: Table)
    requires WellFormed(t) && k <= |t.header|
    ensures WellFormed(r) && r.header == t.header[..k] && |r.rows| == |t.rows|
    ensures forall i :: 0 <= i < |r.rows| ==> r.rows[i] == t.rows[i][..k]
  {
    Table(t.header[..k], seq(|t.rows|, i requires 0 <= i < |t.rows| => t.rows[i][..k]))
  }

  function Without<T>(s: seq<T>, j: nat): (r: seq<T>)
    requires j < |s|
    ensures |r| == |s| - 1
    ensures forall k :: 0 <= k < |r| ==> r[k] == if k < j then s[k] else s[k + 1]
  {
    s[..j] + s[j + 1..]
  }

  /** The labels of `names` other than those listed in `drop`, in their original order. */
  function Minus(names: seq<string>, drop: seq<string>): (r: seq<string>)
    ensures |r| <= |names|
    ensures forall x :: x in r <==> x in names && x !in drop
  {
    if names == [] then [] else (if names[0] in drop then [] else [names[0]]) + Minus(names[1..], drop)
  }

  /** Minus distributes over concatenation of the label list. */
  lemma {:induction false} MinusAppend(a: seq<string>, b: seq<string>, drop: seq<string>)
    ensures Minus(a + b, drop) == Minus(a, drop) + Minus(b, drop)
  {
    if a == [] {
      assert a + b == b;
    } else {
      assert (a + b)[1..] == a[1..] + b;
      MinusAppend(a[1..], b, drop);
    }
  }

  /** `df.drop(columns=[name])` on a table whose labels are unique. */
  function DropColumn(t: Table, name: string): (r: Table)
    requires WellFormed(t) && name in t.header
    ensures WellFormed(r) && |r.rows| == |t.rows|
    ensures r.header == Minus(t.header, [name])
    ensures forall i :: 0 <= i < |r.rows| ==> r.rows[i] == Without(t.rows[i], IndexOf(t.header, name))
  {
    var j := IndexOf(t.header, name);
    DropOneLabel(t.header, j);
    Table(Without(t.header, j), seq(|t.rows|, i requires 0 <= i < |t.rows| => Without(t.rows[i], j)))
  }

  /** Removing the one position that holds a label of a repeat-free list is filtering that label out. */
  lemma DropOneLabel(names: seq<string>, j: nat)
    requires Distinct(names) && j < |names|
    ensures Without(names, j) == Minus(names, [names[j]])
    ensures Distinct(Without(names, j))
  {
    WithoutIsMinus(names, j);
    DistinctWithout(names, j);
  }

  lemma DistinctWithout(names: seq<string>, j: nat)
    requires Distinct(names) && j < |names|
    ensures Distinct(Without(names, j))
  {
    var w := Without(names, j);
    assert w == names[..j] + names[j + 1..];
    forall a, b | 0 <= a < b < |w| ensures w[a] != w[b] {
      if b < j {
        assert w[a] == names[a] && w[b] == names[b];
      } else if a < j {
        assert w[a] == names[a] && w[b] == names[b + 1];
      } else {
        assert w[a] == names[a + 1] && w[b] == names[b + 1];
      }
    }
  }

  lemma {:induction false} WithoutIsMinus(names: seq<string>, j: nat)
    requires Distinct(names) && j < |names|
    ensures Without(names, j) == Minus(names, [names[j]])
  {
    var tail := names[1..];
    if j == 0 {
      WithoutFirstIsMinus(names);
    } else {
      DistinctTail(names);
      WithoutIsMinus(tail, j - 1);
      WithoutCons(names, j);
      assert names[j] == tail[j - 1];
      assert names[0] != names[j];
      assert Minus(names, [names[j]]) == [names[0]] + Minus(tail, [names[j]]);
    }
  }

  lemma WithoutFirstIsMinus(names: seq<string>)
    requires Distinct(names) && names != []
    ensures Without(names, 0) == Minus(names, [names[0]])
  {
    var tail := names[1..];
    forall x | x in tail ensures x !in [names[0]] {
      var k :| 0 <= k < |tail| && tail[k] == x;
      assert names[k + 1] == x;
    }
    MinusNone(tail, [names[0]]);
    assert Without(names, 0) == tail;
  }

  lemma DistinctTail(names: seq<string>)
    requires Distinct(names) && names != []
    ensures Distinct(names[1..])
  {
    var tail := names[1..];
    forall a, b | 0 <= a < b < |tail| ensures tail[a] != tail[b] {
      assert tail[a] == names[a + 1] && tail[b] == names[b + 1];
    }
  }

  lemma WithoutCons<T>(s: seq<T>, j: nat)
    requires 0 < j < |s|
    ensures Without(s, j) == [s[0]] + Without(s[1..], j - 1)
  {
  }

  /** Removing labels that do not occur changes nothing. */
  lemma {:induction false} MinusNone(names: seq<string>, drop: seq<string>)
    requires forall x :: x in names ==> x !in drop
    ensures Minus(names, drop) == names
  {
    if names != [] {
      MinusNone(names[1..], drop);
    }
  }

  /** Removing one list of labels and then another is removing both. */
  lemma {:induction false} MinusTwice(names: seq<string>, a: seq<string>, b: seq<string>)
    ensures Minus(Minus(names, a), b) == Minus(names, a + b)
  {
    if names != [] {
      var x, rest := names[0], names[1..];
      MinusTwice(rest, a, b);
      if x in a {
        assert Minus(names, a) == Minus(rest, a);
      } else {
        var m := Minus(names, a);
        assert m == [x] + Minus(rest, a);
        assert m[1..] == Minus(rest, a);
      }
    }
  }

  /** `r` holds, for every row and every column it keeps, the cell `t` had there. */
  predicate Keeps(r: Table, t: Table)
    requires WellFormed(r) && WellFormed(t)
  {
    |r.rows| == |t.rows| && (forall n :: n in r.header ==> n in t.header)
    && forall i, n :: 0 <= i < |r.rows| && n in r.header ==>
      r.rows[i][IndexOf(r.header, n)] == t.rows[i][IndexOf(t.header, n)]
  }

  lemma KeepsTransitive(r: Table, s: Table, t: Table)
    requires WellFormed(r) && WellFormed(s) && WellFormed(t)
    requires Keeps(r, s) && Keeps(s, t)
    ensures Keeps(r, t)
  {
  }

  lemma KeepsSelf(t: Table)
    requires WellFormed(t)
    ensures Keeps(t, t)
  {
  }

  /** After removing position `j`, a label from elsewhere is found one place earlier when it
      came after `j`. */
  lemma IndexOfWithout(names: seq<string>, j: nat, p: nat)
    requires Distinct(names) && j < |names| && p < |names| && p != j
    ensures names[p] in Without(names, j)
    ensures IndexOf(Without(names, j), names[p]) == if p < j then p else p - 1
  {
    var w := Without(names, j);
    var q := if p < j then p else p - 1;
    assert w[q] == names[p];
    DistinctWithout(names, j);
    IndexOfDistinct(w, q);
  }

  /** Dropping a column leaves every other column's cells where their label says. */
  lemma DropColumnKeeps(t: Table, name: string)
    requires WellFormed(t) && name in t.header
    ensures Keeps(DropColumn(t, name), t)
  {
    var r := DropColumn(t, name);
    var j := IndexOf(t.header, name);
    DropOneLabel(t.header, j);
    assert r.header == Without(t.header, j);
    forall i, n | 0 <= i < |r.rows| && n in r.header
      ensures r.rows[i][IndexOf(r.header, n)] == t.rows[i][IndexOf(t.header, n)]
    {
      assert n in t.header && n != name;
      var p := IndexOf(t.header, n);
      assert p != j;
      IndexOfWithout(t.header, j, p);
      WithoutAt(t.rows[i], j, p);
    }
  }

  /** The element at position `p` of `s` sits, once position `j` is removed, one place lower
      when it came after `j`. */
  lemma WithoutAt<T>(s: seq<T>, j: nat, p: nat)
    requires j < |s| && p < |s| && p != j
    ensures Without(s, j)[if p < j then p else p - 1] == s[p]
  {
  }

  /** Keeping the first `k` columns keeps their cells. */
  lemma TakeColumnsKeeps(t: Table, k: nat)
    requires WellFormed(t) && k <= |t.header|
    ensures Keeps(TakeColumns(t, k), t)
  {
    var r := TakeColumns(t, k);
    forall i, n | 0 <= i < |r.rows| && n in r.header
      ensures r.rows[i][IndexOf(r.header, n)] == t.rows[i][IndexOf(t.header, n)]
    {
      var q := IndexOf(r.header, n);
      assert t.header[q] == n;
      IndexOfDistinct(t.header, q);
    }
  }
}
