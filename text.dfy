/** Joining strings with a separator, shared by the path builder and the JSON writer. */
module Text {

  /** The items with `sep` between consecutive ones: nothing before the first, nothing after
      the last. */
  function Join(items: seq<string>, sep: string): string
    decreases |items|
  {
    if |items| == 0 then ""
    else if |items| == 1 then items[0]
    else items[0] + sep + Join(items[1..], sep)
  }

  /** Appending an item appends the separator and the item. */
  lemma {:induction false} JoinSnoc(items: seq<string>, sep: string, item: string)
    requires |items| > 0
    ensures Join(items + [item], sep) == Join(items, sep) + sep + item
    decreases |items|
  {
    if |items| == 1 {
      assert items + [item] == [items[0], item];
      assert Join([item], sep) == item;
    } else {
      assert (items + [item])[1..] == items[1..] + [item];
      JoinSnoc(items[1..], sep, item);
    }
  }

  /** The number of occurrences of `c` in `s`. */
  function CountChar(s: string, c: char): nat
    decreases |s|
  {
    if |s| == 0 then 0 else (if s[0] == c then 1 else 0) + CountChar(s[1..], c)
  }

  lemma {:induction false} CountCharConcat(a: string, b: string, c: char)
    ensures CountChar(a + b, c) == CountChar(a, c) + CountChar(b, c)
    decreases |a|
  {
    if |a| > 0 {
      assert (a + b)[1..] == a[1..] + b;
      CountCharConcat(a[1..], b, c);
    } else {
      assert a + b == b;
    }
  }

  lemma MulSucc(n: nat, v: nat)
    ensures (n + 1) * v == n * v + v
  {
  }

  /** When every item holds `c` exactly `v` times and the separator does not hold it, the
      joined text holds it `|items| * v` times. */
  lemma {:induction false} CountCharJoin(items: seq<string>, sep: string, c: char, v: nat)
    requires CountChar(sep, c) == 0
    requires forall k :: 0 <= k < |items| ==> CountChar(items[k], c) == v
    ensures CountChar(Join(items, sep), c) == |items| * v
    decreases |items|
  {
    if |items| == 1 {
      assert CountChar(items[0], c) == v;
    } else if |items| > 1 {
      var rest := items[1..];
      assert forall k :: 0 <= k < |rest| ==> CountChar(rest[k], c) == v by {
        forall k | 0 <= k < |rest| ensures CountChar(rest[k], c) == v {
          assert rest[k] == items[k + 1];
        }
      }
      CountCharJoin(rest, sep, c, v);
      CountCharConcat(items[0] + sep, Join(rest, sep), c);
      CountCharConcat(items[0], sep, c);
      assert CountChar(items[0], c) == v;
      MulSucc(|rest|, v);
    }
  }

  /** Writing an item and its separator after a prefix extends the prefix. */
  lemma AppendAssociates(start: string, prefix: string, item: string, sep: string)
    ensures start + prefix + item + sep == start + (prefix + item + sep)
  {
  }

  /** What a loop has written after the first i items when it writes every item followed by
      `sep`, except the final one, which it follows by `last`. */
  function WrittenPrefix(items: seq<string>, sep: string, last: string, i: nat): string
    requires i <= |items|
  {
    Join(items[..i], sep) + (if 0 < i < |items| then sep else if 0 < i == |items| then last else "")
  }

  lemma WrittenPrefixStep(items: seq<string>, sep: string, last: string, i: nat)
    requires i < |items|
    ensures WrittenPrefix(items, sep, last, i + 1)
         == WrittenPrefix(items, sep, last, i) + items[i] + (if i == |items| - 1 then last else sep)
  {
    assert items[..i + 1] == items[..i] + [items[i]];
    if i > 0 {
      JoinSnoc(items[..i], sep, items[i]);
    } else {
      assert items[..1] == [items[0]];
    }
  }

  /** Once every item is written, the text is the items joined by `sep`, then `last`. */
  lemma WrittenPrefixAll(items: seq<string>, sep: string, last: string)
    requires |items| > 0
    ensures WrittenPrefix(items, sep, last, |items|) == Join(items, sep) + last
  {
    assert items[..|items|] == items;
  }
}
