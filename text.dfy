/** String helpers shared by the wire layer, the status formatter, the interpreter
    and the schema-tag parser: Go's strings.Split and strings.Join for a
    one-character separator, concatenation of a list of strings, and the
    orders in which a Go map with string keys can be iterated. */
module Text {

  /** strings.Split(s, sep) for a one-character separator: the pieces between
      separators, empty pieces included; the empty string gives one empty piece. */
  function Split(s: string, sep: char): (parts: seq<string>)
    ensures |parts| >= 1
    ensures forall k :: 0 <= k < |parts| ==> sep !in parts[k]
  {
    if |s| == 0 then [""]
    else
      var rest := Split(s[1..], sep);
      if s[0] == sep then [""] + rest
      else [[s[0]] + rest[0]] + rest[1..]
  }

  /** strings.Join(parts, sep) for a one-character separator. */
  function Join(parts: seq<string>, sep: char): string
  {
    if |parts| == 0 then ""
    else if |parts| == 1 then parts[0]
    else parts[0] + [sep] + Join(parts[1..], sep)
  }

  /** The concatenation of a list of strings. */
  function Concat(parts: seq<string>): string
  {
    if |parts| == 0 then "" else parts[0] + Concat(parts[1..])
  }

  /** No piece of the list holds the separator. */
  predicate NoSep(parts: seq<string>, sep: char)
  {
    forall k :: 0 <= k < |parts| ==> sep !in parts[k]
  }

  /** A string without the separator is one piece. */
  lemma {:induction false} SplitWithoutSep(s: string, sep: char)
    requires sep !in s
    ensures Split(s, sep) == [s]
  {
    if |s| > 0 {
      SplitWithoutSep(s[1..], sep);
      assert [s[0]] + s[1..] == s;
    }
  }

  /** The first piece of a split is the longest prefix without the
      separator. */
  lemma {:induction false} SplitFirst(s: string, sep: char)
    ensures var w := Split(s, sep)[0];
      |w| <= |s| && w == s[..|w|] && (|w| == |s| || s[|w|] == sep)
    decreases |s|
  {
    if |s| > 0 && s[0] != sep {
      SplitFirst(s[1..], sep);
      var w := Split(s[1..], sep)[0];
      assert s[..|w| + 1] == [s[0]] + s[1..][..|w|];
    }
  }

  /** The first piece ends at the first separator. */
  lemma {:induction false} SplitAtSep(a: string, b: string, sep: char)
    requires sep !in a
    ensures Split(a + [sep] + b, sep) == [a] + Split(b, sep)
  {
    if |a| == 0 {
      assert a + [sep] + b == [sep] + b;
      assert ([sep] + b)[1..] == b;
    } else {
      var s := a + [sep] + b;
      assert s[1..] == a[1..] + [sep] + b;
      SplitAtSep(a[1..], b, sep);
      assert [a[0]] + a[1..] == a;
    }
  }

  /** Splitting undoes joining, for pieces without the separator. */
  lemma {:induction false} SplitJoin(parts: seq<string>, sep: char)
    requires |parts| >= 1 && NoSep(parts, sep)
    ensures Split(Join(parts, sep), sep) == parts
  {
    if |parts| == 1 {
      SplitWithoutSep(parts[0], sep);
    } else {
      SplitJoin(parts[1..], sep);
      SplitAtSep(parts[0], Join(parts[1..], sep), sep);
      assert [parts[0]] + parts[1..] == parts;
    }
  }

  /** Joining undoes splitting: no character of the input is lost. */
  lemma {:induction false} JoinSplit(s: string, sep: char)
    ensures Join(Split(s, sep), sep) == s
  {
    if |s| > 0 {
      var rest := Split(s[1..], sep);
      JoinSplit(s[1..], sep);
      if s[0] == sep {
        assert ([""] + rest)[1..] == rest;
      } else {
        var parts := [[s[0]] + rest[0]] + rest[1..];
        assert parts[1..] == rest[1..];
        if |rest| > 1 {
          assert Join(rest, sep) == rest[0] + [sep] + Join(rest[1..], sep);
        }
        assert [s[0]] + s[1..] == s;
      }
    }
  }

  /** Appending one more piece appends the separator and the piece. */
  lemma {:induction false} JoinSnoc(parts: seq<string>, x: string, sep: char)
    requires |parts| >= 1
    ensures Join(parts + [x], sep) == Join(parts, sep) + [sep] + x
  {
    if |parts| == 1 {
      assert (parts + [x])[1..] == [x];
    } else {
      JoinSnoc(parts[1..], x, sep);
      assert (parts + [x])[1..] == parts[1..] + [x];
    }
  }

  /** Appending one more string to a concatenation. */
  lemma {:induction false} ConcatSnoc(parts: seq<string>, x: string)
    ensures Concat(parts + [x]) == Concat(parts) + x
  {
    if |parts| == 0 {
      assert parts + [x] == [x];
    } else {
      ConcatSnoc(parts[1..], x);
      assert (parts + [x])[1..] == parts[1..] + [x];
    }
  }

  /** No entry occurs twice. */
  predicate Distinct(s: seq<string>)
  {
    forall i, j :: 0 <= i < j < |s| ==> s[i] != s[j]
  }

  /** `order` lists every element of `keys` exactly once: one iteration order
      of a Go map with those keys. */
  predicate Lists(order: seq<string>, keys: set<string>)
  {
    Distinct(order) && (forall i :: 0 <= i < |order| ==> order[i] in keys)
    && (forall k :: k in keys ==> k in order)
  }

  /** Every finite set of names has an iteration order. */
  lemma ListingExists(keys: set<string>)
    ensures exists order :: Lists(order, keys)
    decreases |keys|
  {
    if keys == {} {
      assert Lists([], keys);
    } else {
      var x :| x in keys;
      ListingExists(keys - {x});
      var order :| Lists(order, keys - {x});
      assert Lists(order + [x], keys);
    }
  }

  /** Lists(order, keys) counts the keys: an order has one entry per key. */
  lemma {:induction false} ListsCount(order: seq<string>, keys: set<string>)
    requires Lists(order, keys)
    ensures |order| == |keys|
  {
    if |order| == 0 {
      assert forall k :: k in keys ==> k in order;
    } else {
      var x, rest := order[|order| - 1], order[..|order| - 1];
      assert order == rest + [x];
      forall i | 0 <= i < |rest| ensures rest[i] in keys - {x} {
        assert rest[i] == order[i];
      }
      forall k | k in keys - {x} ensures k in rest {
        var i :| 0 <= i < |order| && order[i] == k;
        assert i < |rest| && rest[i] == k;
      }
      ListsCount(rest, keys - {x});
    }
  }
}
