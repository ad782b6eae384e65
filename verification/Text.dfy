/** String functions of the Go standard library that the models need. */
module Text {
  function CountOf(c: char, s: string): nat {
    if s == [] then 0 else (if s[0] == c then 1 else 0) + CountOf(c, s[1..])
  }

  /** Everything before the first `c`; the whole string when there is none. */
  function Before(c: char, s: string): string {
    if s == [] || s[0] == c then [] else [s[0]] + Before(c, s[1..])
  }

  /** Everything after the first `c`; empty when there is none. */
  function After(c: char, s: string): string {
    if s == [] then [] else if s[0] == c then s[1..] else After(c, s[1..])
  }

  lemma {:induction false} CountOfConcat(c: char, a: string, b: string)
    ensures CountOf(c, a + b) == CountOf(c, a) + CountOf(c, b)
  {
    if a == [] {
      assert a + b == b;
    } else {
      assert (a + b)[1..] == a[1..] + b;
      CountOfConcat(c, a[1..], b);
    }
  }

  lemma {:induction false} CountOfNone(c: char, s: string)
    requires c !in s
    ensures CountOf(c, s) == 0
  {
    if s != [] {
      CountOfNone(c, s[1..]);
    }
  }

  lemma {:induction false} CountOfSome(c: char, s: string)
    requires c in s
    ensures CountOf(c, s) > 0
  {
    if s[0] != c {
      CountOfSome(c, s[1..]);
    }
  }

  /** A string is cut at the first `c`. */
  lemma {:induction false} BeforeAfter(c: char, s: string)
    requires c in s
    ensures c !in Before(c, s) && s == Before(c, s) + [c] + After(c, s)
  {
    if s[0] != c {
      BeforeAfter(c, s[1..]);
      assert s == [s[0]] + s[1..];
    }
  }

  lemma {:induction false} BeforeConcat(c: char, a: string, b: string)
    requires c !in a
    ensures Before(c, a + [c] + b) == a
  {
    var s := a + [c] + b;
    if a != [] {
      assert s[1..] == a[1..] + [c] + b;
      BeforeConcat(c, a[1..], b);
    }
  }

  /** `strings.Split` on a one-character separator. */
  function Split(sep: char, s: string): (r: seq<string>)
    ensures r != []
  {
    if s == [] then [[]]
    else
      var rest := Split(sep, s[1..]);
      if s[0] == sep then [[]] + rest else [[s[0]] + rest[0]] + rest[1..]
  }

  /** `strings.Join` with a one-character separator. */
  function Join(sep: char, items: seq<string>): string {
    if items == [] then [] else if |items| == 1 then items[0] else items[0] + [sep] + Join(sep, items[1..])
  }

  lemma {:induction false} SplitParts(sep: char, s: string)
    ensures forall i :: 0 <= i < |Split(sep, s)| ==> sep !in Split(sep, s)[i]
  {
    if s != [] {
      SplitParts(sep, s[1..]);
    }
  }

  lemma {:induction false} SplitItem(sep: char, item: string, rest: string)
    requires sep !in item
    ensures Split(sep, item) == [item]
    ensures Split(sep, item + [sep] + rest) == [item] + Split(sep, rest)
  {
    var s := item + [sep] + rest;
    if item == [] {
      assert s[1..] == rest;
    } else {
      assert s[1..] == item[1..] + [sep] + rest;
      SplitItem(sep, item[1..], rest);
      assert item == [item[0]] + item[1..];
    }
  }

  /** Splitting undoes joining, except that joining nothing splits into one empty item. */
  lemma {:induction false} SplitJoin(sep: char, items: seq<string>)
    requires forall i :: 0 <= i < |items| ==> sep !in items[i]
    ensures Split(sep, Join(sep, items)) == if items == [] then [[]] else items
  {
    if items != [] {
      if |items| == 1 {
        SplitItem(sep, items[0], []);
        assert items == [items[0]];
      } else {
        SplitJoin(sep, items[1..]);
        SplitItem(sep, items[0], Join(sep, items[1..]));
        assert items == [items[0]] + items[1..];
      }
    }
  }
}
