/** `list.sort(key=k, reverse=True)` for a str-valued key: the result is
    ordered by key, largest first, and holds the same elements. Python's sort
    is a stable merge sort; the model sorts by insertion, which orders ties
    the same way, but ties are left unspecified by the contracts. */
module Sorting {
  import opened Text

  /** Keys never increase along the sequence. */
  ghost predicate SortedDesc<T>(xs: seq<T>, key: T -> string) {
    forall i, j :: 0 <= i < j < |xs| ==> LexLessEq(key(xs[j]), key(xs[i]))
  }

  /** Inserts x after every element whose key is not smaller than its own. */
  function Insert<T(==)>(x: T, xs: seq<T>, key: T -> string): (r: seq<T>)
    requires SortedDesc(xs, key)
    ensures SortedDesc(r, key)
    ensures multiset(r) == multiset(xs) + multiset{x}
    ensures |r| == |xs| + 1
  {
    if xs == [] then [x]
    else if LexLess(key(xs[0]), key(x)) then
      InsertFirst(x, xs, key);
      [x] + xs
    else
      var rest := Insert(x, xs[1..], key);
      InsertLater(x, xs, rest, key);
      assert xs == [xs[0]] + xs[1..];
      [xs[0]] + rest
  }

  lemma InsertFirst<T>(x: T, xs: seq<T>, key: T -> string)
    requires xs != [] && SortedDesc(xs, key) && LexLess(key(xs[0]), key(x))
    ensures SortedDesc([x] + xs, key)
  {
    var r := [x] + xs;
    forall i, j | 0 <= i < j < |r| ensures LexLessEq(key(r[j]), key(r[i])) {
      if i == 0 && j > 1 {
        assert LexLessEq(key(xs[j - 1]), key(xs[0]));
        if key(xs[j - 1]) != key(xs[0]) {
          LexLessTransitive(key(xs[j - 1]), key(xs[0]), key(x));
        }
      }
    }
  }

  lemma InsertLater<T>(x: T, xs: seq<T>, rest: seq<T>, key: T -> string)
    requires xs != [] && SortedDesc(xs, key) && !LexLess(key(xs[0]), key(x))
    requires SortedDesc(rest, key)
    requires multiset(rest) == multiset(xs[1..]) + multiset{x}
    ensures SortedDesc([xs[0]] + rest, key)
  {
    var r := [xs[0]] + rest;
    NotLexLess(key(xs[0]), key(x));
    forall k | 0 <= k < |rest| ensures LexLessEq(key(rest[k]), key(xs[0])) {
      assert rest[k] in multiset(rest);
      if rest[k] != x {
        assert rest[k] in multiset(xs[1..]);
        var m :| 0 <= m < |xs[1..]| && xs[1..][m] == rest[k];
        assert xs[m + 1] == rest[k];
      }
    }
    forall i, j | 0 <= i < j < |r| ensures LexLessEq(key(r[j]), key(r[i])) {
      if i == 0 {
        assert r[j] == rest[j - 1];
      } else {
        assert r[i] == rest[i - 1] && r[j] == rest[j - 1];
      }
    }
  }

  /** The sort: each element in turn is inserted into the sorted prefix. */
  function SortDesc<T(==)>(xs: seq<T>, key: T -> string): (r: seq<T>)
    ensures SortedDesc(r, key)
    ensures multiset(r) == multiset(xs)
    ensures |r| == |xs|
  {
    if xs == [] then []
    else
      var init := xs[..|xs| - 1];
      assert xs == init + [xs[|xs| - 1]];
      Insert(xs[|xs| - 1], SortDesc(init, key), key)
  }

  /** The element found first is one with the largest key. */
  lemma FirstIsLargest<T>(xs: seq<T>, key: T -> string, i: int)
    requires SortedDesc(xs, key) && 0 <= i < |xs|
    ensures LexLessEq(key(xs[i]), key(xs[0]))
  {
    if i > 0 {
      assert LexLessEq(key(xs[i]), key(xs[0]));
    }
  }
}
