/**
 * The sequence helpers the formatter takes from a shared extensions library
 * (`Join`, `Split`, and LINQ's `Select` and `SelectMany`). That library is not part of this
 * model; each helper gets the smallest definition its use in
 * GCode/GCodeFormatter.cs admits.
 */
module Extensions {

  /** `Join(separator)`: the items with one separator between every two neighbours. */
  function Join<T>(items: seq<T>, separator: T): (r: seq<T>)
    ensures |r| == if items == [] then 0 else 2 * |items| - 1
  {
    if |items| <= 1 then items else [items[0], separator] + Join(items[1..], separator)
  }

  /** Every item sits at an even index, every separator at an odd one. */
  lemma {:induction false} JoinAt<T>(items: seq<T>, separator: T, i: nat)
    requires i < |Join(items, separator)|
    ensures Join(items, separator)[i] == if i % 2 == 0 then items[i / 2] else separator
  {
    if |items| > 1 && i >= 2 {
      JoinAt(items[1..], separator, i - 2);
    }
  }

  /** Joining a list with a leading item. */
  lemma JoinCons<T>(head: T, tail: seq<T>, separator: T)
    ensures Join([head] + tail, separator) == [head] + (if tail == [] then [] else [separator] + Join(tail, separator))
  {
    assert ([head] + tail)[1..] == tail;
  }

  /** `Select(f)`: every item mapped, in order. */
  function Select<A, B>(items: seq<A>, f: A -> B): (r: seq<B>)
    ensures |r| == |items| && forall i :: 0 <= i < |items| ==> r[i] == f(items[i])
  {
    seq(|items|, i requires 0 <= i < |items| => f(items[i]))
  }

  /** Mapping one more item appends its image. */
  lemma SelectSnoc<A, B>(items: seq<A>, f: A -> B, n: nat)
    requires n < |items|
    ensures Select(items[..n + 1], f) == Select(items[..n], f) + [f(items[n])]
  {
    assert items[..n + 1][n] == items[n];
    assert forall j :: 0 <= j < n ==> items[..n + 1][j] == items[..n][j];
  }

  /** Mapping a list with a leading item. */
  lemma SelectCons<A, B>(x: A, items: seq<A>, f: A -> B)
    ensures Select([x] + items, f) == [f(x)] + Select(items, f)
  {
    var r, q := Select([x] + items, f), [f(x)] + Select(items, f);
    forall j | 0 <= j < |r|
      ensures r[j] == q[j]
    {
      if j > 0 {
        assert ([x] + items)[j] == items[j - 1];
      }
    }
  }

  /** `SelectMany(t => t)`: the parts concatenated. */
  function Flatten<T>(parts: seq<seq<T>>): seq<T> {
    if parts == [] then [] else parts[0] + Flatten(parts[1..])
  }

  /** `Split(separator)`: the runs between separators, empty runs kept. */
  function Split<T(==)>(s: seq<T>, separator: T): (r: seq<seq<T>>)
    ensures |r| > 0
  {
    if s == [] then [[]]
    else
      assert s == [s[0]] + s[1..];
      var rest := Split(s[1..], separator);
      if s[0] == separator then [[]] + rest
      else [[s[0]] + rest[0]] + rest[1..]
  }

  /** n separators give n + 1 runs, and no run holds a separator. */
  lemma {:induction false} SplitParts<T>(s: seq<T>, separator: T)
    ensures |Split(s, separator)| == multiset(s)[separator] + 1
    ensures forall i :: 0 <= i < |Split(s, separator)| ==> separator !in Split(s, separator)[i]
  {
    if s != [] {
      assert s == [s[0]] + s[1..];
      SplitParts(s[1..], separator);
    }
  }

  /** Joining a leading part onto the rest, then flattening. */
  lemma FlattenJoinCons<T>(head: seq<T>, tail: seq<seq<T>>, separator: seq<T>)
    ensures Flatten(Join([head] + tail, separator))
         == head + (if tail == [] then [] else separator + Flatten(Join(tail, separator)))
  {
    if tail != [] {
      var j := Join(tail, separator);
      assert ([head] + tail)[1..] == tail;
      assert Join([head] + tail, separator) == [head, separator] + j;
      assert ([head, separator] + j)[1..] == [separator] + j;
      assert ([separator] + j)[1..] == j;
    } else {
      assert [head] + tail == [head];
      assert Flatten([head]) == head + Flatten([]);
    }
  }

  /** `Split` of a list with a leading item, in terms of the split of the rest. */
  lemma SplitCons<T>(x: T, t: seq<T>, separator: T)
    ensures var rest := Split(t, separator);
      Split([x] + t, separator) == if x == separator then [[]] + rest else [[x] + rest[0]] + rest[1..]
  {
    assert ([x] + t)[0] == x && ([x] + t)[1..] == t;
  }

  /** Splitting and joining back with the separator gives the input again. */
  lemma {:induction false} SplitRoundTrip<T>(s: seq<T>, separator: T)
    ensures Flatten(Join(Split(s, separator), [separator])) == s
  {
    if s == [] {
      var empty: seq<seq<T>> := [[]];
      assert Flatten(empty) == [] + Flatten(empty[1..]);
    } else {
      var x, t := s[0], s[1..];
      assert s == [x] + t;
      var rest := Split(t, separator);
      SplitRoundTrip(t, separator);
      SplitCons(x, t, separator);
      if x == separator {
        FlattenJoinCons([], rest, [separator]);
      } else {
        var tail := if rest[1..] == [] then [] else [separator] + Flatten(Join(rest[1..], [separator]));
        FlattenJoinCons([x] + rest[0], rest[1..], [separator]);
        FlattenJoinCons(rest[0], rest[1..], [separator]);
        assert [rest[0]] + rest[1..] == rest;
        calc {
          Flatten(Join(Split(s, separator), [separator]));
          ([x] + rest[0]) + tail;
          [x] + (rest[0] + tail);
          [x] + t;
        }
      }
    }
  }
}
