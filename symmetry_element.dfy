/** An element of a point-group symmetry: the orthogonal matrix O (stored column by column),
    the translation t and the site permutation P, with its JSON-like text form. Number
    printing is a parameter (`num` for doubles, `inum` for ints). */
module PointGroupSymmetry {
  import opened Text
  import opened Arith

  /** Row i of O: the entries O[i + j*D] for j = 0..D-1, that is the column-major matrix
      read row by row. */
  function RowEntries(o: seq<real>, d: nat, i: nat, num: real -> string): (row: seq<string>)
    requires |o| == d * d && i < d
    ensures |row| == d
    ensures forall j :: 0 <= j < d ==> i + j * d < |o| && row[j] == num(o[i + j * d])
  {
    ColumnMajorRowInBounds(d, i);
    seq(d, j requires 0 <= j < d => num(o[i + j * d]))
  }

  /** Every entry of row i of a column-major D x D matrix lies inside its D*D storage. */
  lemma ColumnMajorRowInBounds(d: nat, i: nat)
    requires i < d
    ensures forall j :: 0 <= j < d ==> i + j * d < d * d
  {
    forall j | 0 <= j < d ensures i + j * d < d * d {
      MulMonotone(j + 1, d, d);
      assert (j + 1) * d == j * d + d;
    }
  }

  /** One printed row of O: its entries separated by ", " inside "[" and "]". */
  function RowText(o: seq<real>, d: nat, i: nat, num: real -> string): string
    requires |o| == d * d && i < d
  {
    "[" + Join(RowEntries(o, d, i, num), ", ") + "]"
  }

  function Rows(o: seq<real>, d: nat, num: real -> string): (rows: seq<string>)
    requires |o| == d * d
    ensures |rows| == d && forall i :: 0 <= i < d ==> rows[i] == RowText(o, d, i, num)
  {
    seq(d, i requires 0 <= i < d => RowText(o, d, i, num))
  }

  /** The "O" entry: the rows joined by ",\n", the last one followed by "\n],\n". */
  function OText(o: seq<real>, d: nat, num: real -> string): string
    requires |o| == d * d
  {
    "\"O\" : [\n" + (if d == 0 then "" else Join(Rows(o, d, num), ",\n") + "\n],\n")
  }

  /** The printed form of each value. */
  function Printed<T>(xs: seq<T>, show: T -> string): (r: seq<string>)
    ensures |r| == |xs| && forall k :: 0 <= k < |xs| ==> r[k] == show(xs[k])
  {
    seq(|xs|, k requires 0 <= k < |xs| => show(xs[k]))
  }

  /** The "t" entry: the D values separated by ", ", closed by "]", then ",\n". */
  function TText(t: seq<real>, num: real -> string): string
  {
    "\"t\" : [ " + (if |t| == 0 then "" else Join(Printed(t, num), ", ") + "]") + ",\n"
  }

  /** The "P" entry: "-1]" for an empty permutation, else its entries separated by ", " and
      closed by "]". */
  function PText(p: seq<int>, inum: int -> string): string
  {
    "\"P\" : [ " + (if |p| == 0 then "-1]" else Join(Printed(p, inum), ", ") + "]")
  }

  /** The whole text written by to_JSON. */
  function JsonText(o: seq<real>, t: seq<real>, p: seq<int>, d: nat, num: real -> string, inum: int -> string): string
    requires |o| == d * d && |t| == d
  {
    OText(o, d, num) + TText(t, num) + PText(p, inum) + "\n\n\n"
  }

  /** The text always ends with three newlines; an empty permutation prints exactly "-1]". */
  lemma JsonTextShape(o: seq<real>, t: seq<real>, p: seq<int>, d: nat, num: real -> string, inum: int -> string)
    requires |o| == d * d && |t| == d
    ensures var s := JsonText(o, t, p, d, num, inum);
      |s| >= 3 && s[|s| - 3..] == "\n\n\n"
    ensures |p| == 0 ==> PText(p, inum) == "\"P\" : [ -1]"
  {
    var s := JsonText(o, t, p, d, num, inum);
    var prefix := OText(o, d, num) + TText(t, num) + PText(p, inum);
    assert s == prefix + "\n\n\n";
    assert s[|s| - 3..] == s[|prefix|..];
  }

  /** With DIMENSION = 0 the O and t entries are only their opening parts: neither bracket
      is closed. */
  lemma DimensionZeroLeavesBracketsOpen(o: seq<real>, t: seq<real>, p: seq<int>, num: real -> string, inum: int -> string)
    requires |o| == 0 && |t| == 0
    ensures JsonText(o, t, p, 0, num, inum) == "\"O\" : [\n" + "\"t\" : [ ,\n" + PText(p, inum) + "\n\n\n"
  {
  }

  /** No printed value holds a bracket. */
  ghost predicate Bracketless(s: string)
  {
    CountChar(s, '[') == 0 && CountChar(s, ']') == 0
  }

  /** Bracketless items joined by a bracketless separator, then closed by "]": no '[' and one ']'. */
  lemma {:induction false} ClosedListBrackets(items: seq<string>, sep: string)
    requires Bracketless(sep)
    requires forall k :: 0 <= k < |items| ==> Bracketless(items[k])
    ensures CountChar(Join(items, sep) + "]", '[') == 0 && CountChar(Join(items, sep) + "]", ']') == 1
  {
    CountCharJoin(items, sep, '[', 0);
    CountCharJoin(items, sep, ']', 0);
    CountCharConcat(Join(items, sep), "]", '[');
    CountCharConcat(Join(items, sep), "]", ']');
  }

  /** Every printed row of O opens and closes one bracket. */
  lemma {:induction false} RowBrackets(o: seq<real>, d: nat, i: nat, num: real -> string)
    requires |o| == d * d && i < d
    requires forall x: real :: Bracketless(num(x))
    ensures CountChar(RowText(o, d, i, num), '[') == 1 && CountChar(RowText(o, d, i, num), ']') == 1
  {
    var entries := RowEntries(o, d, i, num);
    forall k | 0 <= k < |entries| ensures Bracketless(entries[k]) {
      var x := o[i + k * d];
      assert entries[k] == num(x) && Bracketless(num(x));
    }
    ClosedListBrackets(entries, ", ");
    CountCharConcat("[", Join(entries, ", ") + "]", '[');
    CountCharConcat("[", Join(entries, ", ") + "]", ']');
    assert RowText(o, d, i, num) == "[" + (Join(entries, ", ") + "]");
  }

  lemma {:induction false} OTextBrackets(o: seq<real>, d: nat, num: real -> string)
    requires |o| == d * d
    requires forall x: real :: Bracketless(num(x))
    ensures CountChar(OText(o, d, num), '[') == 1 + d
    ensures CountChar(OText(o, d, num), ']') == (if d == 0 then 0 else d + 1)
  {
    var rows := Rows(o, d, num);
    forall i | 0 <= i < d
      ensures CountChar(rows[i], '[') == 1 && CountChar(rows[i], ']') == 1
    {
      RowBrackets(o, d, i, num);
    }
    CountCharJoin(rows, ",\n", '[', 1);
    CountCharJoin(rows, ",\n", ']', 1);
    OHeadBrackets();
    ClosersBrackets();
    var head := "\"O\" : [\n";
    var tail := if d == 0 then "" else Join(rows, ",\n") + "\n],\n";
    if d > 0 {
      CountCharConcat(Join(rows, ",\n"), "\n],\n", '[');
      CountCharConcat(Join(rows, ",\n"), "\n],\n", ']');
    }
    assert OText(o, d, num) == head + tail;
    CountCharConcat(head, tail, '[');
    CountCharConcat(head, tail, ']');
  }

  /** The bracket counts of the fixed parts of the text, one literal at a time. */
  lemma OHeadBrackets()
    ensures CountChar("\"O\" : [\n", '[') == 1 && CountChar("\"O\" : [\n", ']') == 0
  {
  }

  lemma THeadBrackets()
    ensures CountChar("\"t\" : [ ", '[') == 1 && CountChar("\"t\" : [ ", ']') == 0
  {
  }

  lemma PHeadBrackets()
    ensures CountChar("\"P\" : [ ", '[') == 1 && CountChar("\"P\" : [ ", ']') == 0
  {
  }

  lemma SeparatorsBracketless()
    ensures Bracketless(",\n") && Bracketless(", ") && Bracketless("\n\n\n")
  {
  }

  lemma ClosersBrackets()
    ensures CountChar("\n],\n", '[') == 0 && CountChar("\n],\n", ']') == 1
    ensures CountChar("-1]", '[') == 0 && CountChar("-1]", ']') == 1
  {
  }

  lemma {:induction false} TTextBrackets(t: seq<real>, num: real -> string)
    requires forall x: real :: Bracketless(num(x))
    ensures CountChar(TText(t, num), '[') == 1
    ensures CountChar(TText(t, num), ']') == (if |t| == 0 then 0 else 1)
  {
    THeadBrackets();
    SeparatorsBracketless();
    var head := "\"t\" : [ ";
    if |t| == 0 {
      assert TText(t, num) == head + ",\n";
      CountCharConcat(head, ",\n", '[');
      CountCharConcat(head, ",\n", ']');
    } else {
      var ts := Printed(t, num);
      forall k | 0 <= k < |ts| ensures Bracketless(ts[k]) {
        var x := t[k];
        assert ts[k] == num(x) && Bracketless(num(x));
      }
      ClosedListBrackets(ts, ", ");
      var mid := Join(ts, ", ") + "]";
      assert TText(t, num) == head + mid + ",\n";
      CountCharConcat(head + mid, ",\n", '[');
      CountCharConcat(head + mid, ",\n", ']');
      CountCharConcat(head, mid, '[');
      CountCharConcat(head, mid, ']');
    }
  }

  lemma {:induction false} PTextBrackets(p: seq<int>, inum: int -> string)
    requires forall n: int :: Bracketless(inum(n))
    ensures CountChar(PText(p, inum), '[') == 1 && CountChar(PText(p, inum), ']') == 1
  {
    PHeadBrackets();
    ClosersBrackets();
    var head := "\"P\" : [ ";
    var tail := if |p| == 0 then "-1]" else Join(Printed(p, inum), ", ") + "]";
    if |p| > 0 {
      var ps := Printed(p, inum);
      forall k | 0 <= k < |ps| ensures Bracketless(ps[k]) {
        var n := p[k];
        assert ps[k] == inum(n) && Bracketless(inum(n));
      }
      ClosedListBrackets(ps, ", ");
    }
    assert PText(p, inum) == head + tail;
    CountCharConcat(head, tail, '[');
    CountCharConcat(head, tail, ']');
  }

  /** Counting brackets: when no printed number holds a bracket, the text holds as many '[' as
      ']' exactly when DIMENSION >= 1; with DIMENSION = 0 two '[' stay open. */
  lemma {:induction false} BracketBalance(o: seq<real>, t: seq<real>, p: seq<int>, d: nat, num: real -> string, inum: int -> string)
    requires |o| == d * d && |t| == d
    requires forall x: real :: Bracketless(num(x))
    requires forall n: int :: Bracketless(inum(n))
    ensures CountChar(JsonText(o, t, p, d, num, inum), '[') == CountChar(JsonText(o, t, p, d, num, inum), ']') + (if d == 0 then 2 else 0)
  {
    OTextBrackets(o, d, num);
    TTextBrackets(t, num);
    PTextBrackets(p, inum);
    var a, b, c := OText(o, d, num), TText(t, num), PText(p, inum);
    CountCharConcat(a, b, '[');
    CountCharConcat(a, b, ']');
    CountCharConcat(a + b, c, '[');
    CountCharConcat(a + b, c, ']');
    SeparatorsBracketless();
    CountCharConcat(a + b + c, "\n\n\n", '[');
    CountCharConcat(a + b + c, "\n\n\n", ']');
  }

  class PointGroupSymmetryElement {
    const dimension: nat
    /** The permutation of the cluster sites. */
    var P: seq<int>
    /** The D x D matrix, entry (i, j) at i + j*D. */
    const O: array<real>
    const t: array<real>

    ghost predicate Valid()
      reads this
    {
      O.Length == dimension * dimension && t.Length == dimension
    }

    constructor (d: nat)
      ensures Valid() && dimension == d && P == [] && fresh(O) && fresh(t)
    {
      dimension := d;
      P := [];
      O := new real[d * d];
      t := new real[d];
    }

    /** set_permutation: replaces P. */
    method SetPermutation(p: seq<int>)
      modifies this
      ensures P == p
    {
      P := p;
    }

    /** get_permutation: a copy of P. */
    method GetPermutation() returns (p: seq<int>)
      ensures p == P
    {
      p := P;
    }

    /** to_JSON: appends the text of this element to the stream contents `ss`. */
    method ToJson(ss: string, num: real -> string, inum: int -> string) returns (out: string)
      requires Valid()
      ensures out == ss + JsonText(O[..], t[..], P, dimension, num, inum)
    {
      out := WriteO(ss, num);
      out := WriteT(out, num);
      out := WriteP(out, inum);
      out := out + "\n\n\n";
    }

    /** The "O" part of to_JSON: one bracketed row per i, entries O[i + j*D]. */
    method WriteO(ss: string, num: real -> string) returns (out: string)
      requires Valid()
      ensures out == ss + OText(O[..], dimension, num)
    {
      var d := dimension;
      ghost var rows := Rows(O[..], d, num);
      out := ss + "\"O\" : [\n";
      ghost var start := out;
      var i := 0;
      while i < d
        invariant 0 <= i <= d
        invariant out == start + WrittenPrefix(rows, ",\n", "\n],\n", i)
      {
        WrittenPrefixStep(rows, ",\n", "\n],\n", i);
        AppendAssociates(start, WrittenPrefix(rows, ",\n", "\n],\n", i), rows[i], if i == d - 1 then "\n],\n" else ",\n");
        out := WriteRow(out, i, num);
        if i == d - 1 {
          out := out + "\n],\n";
        } else {
          out := out + ",\n";
        }
        i := i + 1;
      }
      if d > 0 {
        WrittenPrefixAll(rows, ",\n", "\n],\n");
      }
    }

    /** Row i of the "O" part: "[", the entries separated by ", ", then "]". */
    method WriteRow(ss: string, i: nat, num: real -> string) returns (out: string)
      requires Valid() && i < dimension
      ensures out == ss + RowText(O[..], dimension, i, num)
    {
      var d := dimension;
      ghost var entries := RowEntries(O[..], d, i, num);
      out := ss + "[";
      var j := 0;
      while j < d
        invariant 0 <= j <= d
        invariant out == ss + "[" + WrittenPrefix(entries, ", ", "]", j)
      {
        WrittenPrefixStep(entries, ", ", "]", j);
        if j == d - 1 {
          out := out + num(O[i + j * d]) + "]";
        } else {
          out := out + num(O[i + j * d]) + ", ";
        }
        j := j + 1;
      }
      WrittenPrefixAll(entries, ", ", "]");
    }

    /** The "t" part of to_JSON. */
    method WriteT(ss: string, num: real -> string) returns (out: string)
      requires Valid()
      ensures out == ss + TText(t[..], num)
    {
      var d := dimension;
      ghost var ts := Printed(t[..], num);
      out := ss + "\"t\" : [ ";
      var i := 0;
      while i < d
        invariant 0 <= i <= d
        invariant out == ss + "\"t\" : [ " + WrittenPrefix(ts, ", ", "]", i)
      {
        WrittenPrefixStep(ts, ", ", "]", i);
        if i == d - 1 {
          out := out + num(t[i]) + "]";
        } else {
          out := out + num(t[i]) + ", ";
        }
        i := i + 1;
      }
      if d > 0 {
        WrittenPrefixAll(ts, ", ", "]");
      }
      out := out + ",\n";
    }

    /** The "P" part of to_JSON. */
    method WriteP(ss: string, inum: int -> string) returns (out: string)
      ensures out == ss + PText(P, inum)
    {
      ghost var ps := Printed(P, inum);
      out := ss + "\"P\" : [ ";
      if |P| == 0 {
        out := out + "-1]";
      } else {
        var k := 0;
        while k < |P|
          invariant 0 <= k <= |P|
          invariant out == ss + "\"P\" : [ " + WrittenPrefix(ps, ", ", "]", k)
        {
          WrittenPrefixStep(ps, ", ", "]", k);
          if k == |P| - 1 {
            out := out + inum(P[k]) + "]";
          } else {
            out := out + inum(P[k]) + ", ";
          }
          k := k + 1;
        }
        WrittenPrefixAll(ps, ", ", "]");
      }
    }
  }
}
