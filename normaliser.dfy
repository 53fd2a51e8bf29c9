/**
 * The trivia normaliser, `normaliseTrivia` in GCode/GCodeFormatter.cs: it
 * drops whitespace and excluded kinds, ends every comment with a line break,
 * rebuilds spacing line by line, adds a required prefix and suffix, and
 * removes any space left next to a line break.
 *
 * Each step is a function here; `Normalised` composes them and is the
 * specification that the imperative `NormaliseTrivia` is proved against.
 */
module TriviaNormaliser {
  import opened Wrappers
  import opened Trivias
  import opened Extensions

  /** The kinds the formatter bans between the tokens of one statement. */
  const InlineExclusions: set<Kind> := {EndOfLineKind, CommentKind}

  /** Whitespace is always dropped; so is every kind in `excluded`. */
  predicate Dropped(t: Trivia, excluded: set<Kind>) {
    t.Whitespace? || KindOf(t) in excluded
  }

  predicate NoWhitespace(s: seq<Trivia>) {
    forall i :: 0 <= i < |s| ==> !s[i].Whitespace?
  }

  /** The item at `i` is not a comment, or a line break follows it. */
  predicate TerminatedAt(s: seq<Trivia>, i: int)
    requires 0 <= i < |s| - 1
  {
    s[i].EndOfLineComment? ==> s[i + 1].EndOfLine?
  }

  /** Every comment except possibly the final item is followed by a line break. */
  predicate CommentsTerminated(s: seq<Trivia>) {
    forall i {:trigger TerminatedAt(s, i)} :: 0 <= i < |s| - 1 ==> TerminatedAt(s, i)
  }

  /** The items at `i` and `i + 1` are not both spaces. */
  predicate SingleSpaceAt(s: seq<Trivia>, i: int)
    requires 0 <= i < |s| - 1
  {
    !(s[i].Whitespace? && s[i + 1].Whitespace?)
  }

  predicate NoDoubleSpace(s: seq<Trivia>) {
    forall i {:trigger SingleSpaceAt(s, i)} :: 0 <= i < |s| - 1 ==> SingleSpaceAt(s, i)
  }

  /** The item at `i` is not a space directly before a line break. */
  predicate NoSpaceBeforeBreakAt(s: seq<Trivia>, i: int)
    requires 0 <= i < |s| - 1
  {
    !(s[i].Whitespace? && s[i + 1].EndOfLine?)
  }

  predicate NoSpaceBeforeBreak(s: seq<Trivia>) {
    forall i {:trigger NoSpaceBeforeBreakAt(s, i)} :: 0 <= i < |s| - 1 ==> NoSpaceBeforeBreakAt(s, i)
  }

  /** The item at `i` is not a line break directly before a space. */
  predicate NoSpaceAfterBreakAt(s: seq<Trivia>, i: int)
    requires 0 <= i < |s| - 1
  {
    !(s[i].EndOfLine? && s[i + 1].Whitespace?)
  }

  predicate NoSpaceAfterBreak(s: seq<Trivia>) {
    forall i {:trigger NoSpaceAfterBreakAt(s, i)} :: 0 <= i < |s| - 1 ==> NoSpaceAfterBreakAt(s, i)
  }

  /**
   * The four neighbour properties of `[a] + t` hold exactly when they hold for
   * the front pair and for `t`.
   */
  lemma NeighboursCons(a: Trivia, t: seq<Trivia>)
    requires t != []
    ensures var s := [a] + t;
      && (CommentsTerminated(s) <==> TerminatedAt(s, 0) && CommentsTerminated(t))
      && (NoDoubleSpace(s) <==> SingleSpaceAt(s, 0) && NoDoubleSpace(t))
      && (NoSpaceBeforeBreak(s) <==> NoSpaceBeforeBreakAt(s, 0) && NoSpaceBeforeBreak(t))
      && (NoSpaceAfterBreak(s) <==> NoSpaceAfterBreakAt(s, 0) && NoSpaceAfterBreak(t))
  {
    var s := [a] + t;
    forall i | 0 <= i < |t| - 1
      ensures TerminatedAt(t, i) == TerminatedAt(s, i + 1)
      ensures SingleSpaceAt(t, i) == SingleSpaceAt(s, i + 1)
      ensures NoSpaceBeforeBreakAt(t, i) == NoSpaceBeforeBreakAt(s, i + 1)
      ensures NoSpaceAfterBreakAt(t, i) == NoSpaceAfterBreakAt(s, i + 1)
    {
      assert s[i + 1] == t[i] && s[i + 2] == t[i + 1];
    }
    forall j | 1 <= j < |s| - 1
      ensures TerminatedAt(s, j) == TerminatedAt(t, j - 1)
      ensures SingleSpaceAt(s, j) == SingleSpaceAt(t, j - 1)
      ensures NoSpaceBeforeBreakAt(s, j) == NoSpaceBeforeBreakAt(t, j - 1)
      ensures NoSpaceAfterBreakAt(s, j) == NoSpaceAfterBreakAt(t, j - 1)
    {
      assert s[j] == t[j - 1] && s[j + 1] == t[j];
    }
  }

  /** The neighbour properties of a list carry over to its tail. */
  lemma NeighboursTail(s: seq<Trivia>)
    requires |s| >= 2
    ensures CommentsTerminated(s) ==> CommentsTerminated(s[1..])
    ensures NoDoubleSpace(s) ==> NoDoubleSpace(s[1..])
    ensures NoSpaceBeforeBreak(s) ==> NoSpaceBeforeBreak(s[1..])
    ensures NoSpaceAfterBreak(s) ==> NoSpaceAfterBreak(s[1..])
  {
    assert s == [s[0]] + s[1..];
    NeighboursCons(s[0], s[1..]);
  }

  /** The texts of the comments, in order. */
  function Comments(s: seq<Trivia>): seq<string> {
    if s == [] then []
    else (if s[0].EndOfLineComment? then [s[0].text] else []) + Comments(s[1..])
  }

  /** `x` can be obtained from `y` by deleting items. */
  predicate IsSubsequence(x: seq<Trivia>, y: seq<Trivia>)
    decreases |y|
  {
    if x == [] then true
    else if y == [] then false
    else (x[0] == y[0] && IsSubsequence(x[1..], y[1..])) || IsSubsequence(x, y[1..])
  }

  // ---------------------------------------------------------------------------
  // The steps
  // ---------------------------------------------------------------------------

  /** Step 1: keep the items that are neither whitespace nor excluded, in order. */
  function Filtered(source: seq<Trivia>, excluded: set<Kind>): (r: seq<Trivia>)
    ensures |r| <= |source|
  {
    if source == [] then []
    else
      assert source == [source[0]] + source[1..];
      (if Dropped(source[0], excluded) then [] else [source[0]]) + Filtered(source[1..], excluded)
  }

  /** The filter keeps exactly the input items that are neither whitespace nor excluded. */
  lemma {:induction false} FilteredItems(source: seq<Trivia>, excluded: set<Kind>)
    ensures forall i :: 0 <= i < |Filtered(source, excluded)| ==> !Dropped(Filtered(source, excluded)[i], excluded)
    ensures forall x :: x in Filtered(source, excluded) <==> x in source && !Dropped(x, excluded)
  {
    if source != [] {
      FilteredItems(source[1..], excluded);
      assert source == [source[0]] + source[1..];
    }
  }

  /**
   * Step 2: a line break after every comment that lacks one, except a comment
   * in last place (the source's backward loop starts at `Count - 2`).
   */
  function Repaired(s: seq<Trivia>): (r: seq<Trivia>)
    ensures |s| > 0 ==> |r| > 0 && r[0] == s[0] && r[|r| - 1] == s[|s| - 1]
    decreases |s|
  {
    if |s| < 2 then s
    else [s[0]] + ((if s[0].EndOfLineComment? && !s[1].EndOfLine? then [EndOfLine] else []) + Repaired(s[1..]))
  }

  /** `Repaired` of a list with a leading item, in terms of the repair of the rest. */
  lemma RepairedCons(x: Trivia, t: seq<Trivia>)
    requires t != []
    ensures Repaired([x] + t) == [x] + ((if x.EndOfLineComment? && !t[0].EndOfLine? then [EndOfLine] else []) + Repaired(t))
  {
    assert ([x] + t)[0] == x && ([x] + t)[1] == t[0] && ([x] + t)[1..] == t;
  }

  /** After the repair every comment but a final one is followed by a line break, and no whitespace appears. */
  lemma {:induction false} RepairedTerminates(s: seq<Trivia>)
    ensures CommentsTerminated(Repaired(s))
    ensures NoWhitespace(s) ==> NoWhitespace(Repaired(s))
    decreases |s|
  {
    if |s| >= 2 {
      var x, t := s[0], s[1..];
      assert s == [x] + t;
      var rest := Repaired(t);
      RepairedTerminates(t);
      RepairedCons(x, t);
      var gap := if x.EndOfLineComment? && !t[0].EndOfLine? then [EndOfLine] else [];
      var u := gap + rest;
      assert rest[0] == t[0];
      if gap != [] {
        NeighboursCons(EndOfLine, rest);
      } else {
        assert u == rest;
      }
      assert CommentsTerminated(u);
      NeighboursCons(x, u);
      assert TerminatedAt([x] + u, 0);
      if NoWhitespace(s) {
        assert NoWhitespace(t);
        forall k | 0 <= k < |[x] + u| ensures !([x] + u)[k].Whitespace? {
          if k >= 1 + |gap| {
            assert ([x] + u)[k] == rest[k - 1 - |gap|];
          }
        }
      }
    }
  }

  /** Every line's items joined with one space. */
  function SpacedLines(lines: seq<seq<Trivia>>): seq<seq<Trivia>> {
    Select(lines, line => Join(line, Space))
  }

  /** Every line's items joined with one space, the lines joined with line breaks. */
  function Lines(s: seq<Trivia>): seq<Trivia> {
    Flatten(Join(SpacedLines(Split(s, EndOfLine)), [EndOfLine]))
  }

  /** Step 3: the spacing rebuild, with the source's two branches. */
  function Spaced(s: seq<Trivia>): seq<Trivia> {
    if EndOfLine in s then Lines(s) else Join(s, Space)
  }

  /**
   * Reference for step 3: one `Space` between every two neighbours that are
   * not line breaks, and nothing else added.
   */
  function Spread(s: seq<Trivia>): (r: seq<Trivia>)
    ensures |s| > 0 ==> |r| > 0 && r[0] == s[0] && r[|r| - 1] == s[|s| - 1]
    decreases |s|
  {
    if |s| < 2 then s
    else [s[0]] + ((if !s[0].EndOfLine? && !s[1].EndOfLine? then [Space] else []) + Spread(s[1..]))
  }

  /** Spreading whitespace-free items never puts a space next to a space or a line break. */
  lemma {:induction false} SpreadTidy(s: seq<Trivia>)
    requires NoWhitespace(s)
    ensures var r := Spread(s);
      NoDoubleSpace(r) && NoSpaceBeforeBreak(r) && NoSpaceAfterBreak(r)
    decreases |s|
  {
    if |s| >= 2 {
      var rest := Spread(s[1..]);
      assert NoWhitespace(s[1..]);
      SpreadTidy(s[1..]);
      var mid := if !s[0].EndOfLine? && !s[1].EndOfLine? then [Space] else [];
      var u := mid + rest;
      assert rest[0] == s[1..][0] == s[1];
      if mid != [] {
        NeighboursCons(Space, rest);
      } else {
        assert u == rest;
      }
      assert NoDoubleSpace(u) && NoSpaceBeforeBreak(u) && NoSpaceAfterBreak(u);
      NeighboursCons(s[0], u);
      var r := [s[0]] + u;
      assert SingleSpaceAt(r, 0) && NoSpaceBeforeBreakAt(r, 0) && NoSpaceAfterBreakAt(r, 0);
    }
  }

  /** Step 4a: the prefix goes in front of a non-empty list that does not already start with it. */
  function WithPrefix(s: seq<Trivia>, prefix: Option<Trivia>): (r: seq<Trivia>)
    ensures r != s <==> prefix.Some? && s != [] && s[0] != prefix.value
    ensures r != s ==> r == [prefix.value] + s
    ensures prefix.Some? && s != [] ==> r[0] == prefix.value
  {
    if prefix.Some? && s != [] && s[0] != prefix.value then [prefix.value] + s else s
  }

  /** Step 4b: the suffix goes after an empty list or one that does not already end with it. */
  function WithSuffix(s: seq<Trivia>, suffix: Option<Trivia>): (r: seq<Trivia>)
    ensures r != s <==> suffix.Some? && (s == [] || s[|s| - 1] != suffix.value)
    ensures r != s ==> r == s + [suffix.value]
    ensures suffix.Some? ==> r != [] && r[|r| - 1] == suffix.value
  {
    if suffix.Some? && (s == [] || s[|s| - 1] != suffix.value) then s + [suffix.value] else s
  }

  /**
   * Step 5a, the first backward cleanup loop: a space followed by a line break
   * is removed, so a run of spaces before a break goes entirely.
   */
  function DropSpaceBeforeBreak(s: seq<Trivia>): (r: seq<Trivia>)
    ensures |s| > 0 ==> |r| > 0 && (r[0] == s[0] || (s[0].Whitespace? && r[0].EndOfLine?))
    decreases |s|
  {
    if |s| < 2 then s
    else
      var rest := DropSpaceBeforeBreak(s[1..]);
      assert rest[0] == s[1] || (s[1].Whitespace? && rest[0].EndOfLine?) by {
        assert s[1..][0] == s[1];
      }
      if s[0].Whitespace? && rest[0].EndOfLine? then rest else [s[0]] + rest
  }

  /**
   * After step 5a no space precedes a line break, no item was added, a list
   * without double spaces keeps that property, and a list already clean is
   * returned unchanged.
   */
  lemma {:induction false} DropSpaceBeforeBreakTidy(s: seq<Trivia>)
    ensures var r := DropSpaceBeforeBreak(s);
      && NoSpaceBeforeBreak(r)
      && (forall x :: x in r ==> x in s)
      && (NoDoubleSpace(s) ==> NoDoubleSpace(r))
      && (NoSpaceBeforeBreak(s) ==> r == s)
    decreases |s|
  {
    if |s| >= 2 {
      var rest := DropSpaceBeforeBreak(s[1..]);
      DropSpaceBeforeBreakTidy(s[1..]);
      NeighboursTail(s);
      assert s == [s[0]] + s[1..];
      assert rest[0] == s[1] || (s[1].Whitespace? && rest[0].EndOfLine?) by {
        assert s[1..][0] == s[1];
      }
      assert NoSpaceBeforeBreak(s) ==> NoSpaceBeforeBreakAt(s, 0);
      assert NoDoubleSpace(s) ==> SingleSpaceAt(s, 0);
      if !(s[0].Whitespace? && rest[0].EndOfLine?) {
        NeighboursCons(s[0], rest);
      }
    }
  }

  /**
   * Step 5b, the second backward cleanup loop: one space directly after a
   * line break is removed.
   */
  function DropSpaceAfterBreak(s: seq<Trivia>): (r: seq<Trivia>)
    ensures |s| > 0 ==> |r| > 0 && r[0] == s[0]
    decreases |s|
  {
    if |s| < 2 then s
    else
      var rest := DropSpaceAfterBreak(s[1..]);
      if s[0].EndOfLine? && rest[0].Whitespace? then [s[0]] + rest[1..] else [s[0]] + rest
  }

  /**
   * After step 5b no space follows a line break and, on a list without double
   * spaces, none precedes one either; no item was added, and a list already
   * clean is returned unchanged.
   */
  lemma {:induction false} DropSpaceAfterBreakTidy(s: seq<Trivia>)
    ensures var r := DropSpaceAfterBreak(s);
      && (forall x :: x in r ==> x in s)
      && (NoDoubleSpace(s) && NoSpaceBeforeBreak(s) ==> NoSpaceBeforeBreak(r) && NoSpaceAfterBreak(r))
      && (NoSpaceAfterBreak(s) ==> r == s)
    decreases |s|
  {
    if |s| >= 2 {
      var rest := DropSpaceAfterBreak(s[1..]);
      DropSpaceAfterBreakTidy(s[1..]);
      NeighboursTail(s);
      assert s == [s[0]] + s[1..];
      assert NoSpaceAfterBreak(s) ==> NoSpaceAfterBreakAt(s, 0);
      assert NoSpaceBeforeBreak(s) ==> NoSpaceBeforeBreakAt(s, 0);
      assert rest[0] == s[1..][0] == s[1];
      if s[0].EndOfLine? && rest[0].Whitespace? {
        assert !NoSpaceAfterBreakAt(s, 0);
        assert forall x :: x in rest[1..] ==> x in rest;
        if NoDoubleSpace(s) && NoSpaceBeforeBreak(s) && |s| > 2 {
          assert s[1..][1..] == s[2..];
          NeighboursTail(s[1..]);
          DropSpaceAfterBreakTidy(s[2..]);
          assert rest == [s[1]] + DropSpaceAfterBreak(s[2..]);
          assert SingleSpaceAt(s, 1);
          NeighboursCons(s[0], rest[1..]);
        }
      } else {
        NeighboursCons(s[0], rest);
      }
    }
  }

  /** An empty result is returned as absent. */
  function AsNullable(s: seq<Trivia>): (r: Option<seq<Trivia>>)
    ensures Items(r) == s && r != Some([])
  {
    if s == [] then None else Some(s)
  }

  /** The whole normaliser, step by step. */
  function Normalised(source: Option<seq<Trivia>>, prefix: Option<Trivia>, suffix: Option<Trivia>, excluded: set<Kind>): (r: Option<seq<Trivia>>)
    ensures r != Some([])
  {
    var spaced := Spaced(Repaired(Filtered(Items(source), excluded)));
    AsNullable(DropSpaceAfterBreak(DropSpaceBeforeBreak(WithSuffix(WithPrefix(spaced, prefix), suffix))))
  }

  // ---------------------------------------------------------------------------
  // The imperative normaliser
  // ---------------------------------------------------------------------------

  /**
   * One pass of the comment-repair loop at index `i`: given the list with
   * everything after `i` repaired, the loop's edit repairs from `i` on.
   */
  lemma TerminateCommentsStep(s: seq<Trivia>, i: nat, t: seq<Trivia>)
    requires i + 2 <= |s| && t == s[..i + 1] + Repaired(s[i + 1..])
    ensures i + 2 <= |t|
    ensures t[i].EndOfLineComment? && !t[i + 1].EndOfLine? ==>
      t[..i + 1] + [EndOfLine] + t[i + 1..] == s[..i] + Repaired(s[i..])
    ensures !(t[i].EndOfLineComment? && !t[i + 1].EndOfLine?) ==> t == s[..i] + Repaired(s[i..])
  {
    var rest := Repaired(s[i + 1..]);
    assert s[..i + 1] == s[..i] + [s[i]];
    assert rest[0] == s[i + 1] by {
      assert s[i + 1..][0] == s[i + 1];
    }
    assert Repaired(s[i..]) == [s[i]] + ((if s[i].EndOfLineComment? && !rest[0].EndOfLine? then [EndOfLine] else []) + rest) by {
      assert s[i..][0] == s[i] && s[i..][1] == s[i + 1];
      assert s[i..][1..] == s[i + 1..];
    }
    InsertAfter(s[..i], s[i], rest, t, Repaired(s[i..]));
  }

  /**
   * The loop's edit at the item `x` that follows `p`: inserting a line break
   * after a comment, or leaving the list alone, gives `p` followed by the
   * repaired list from `x` on.
   */
  lemma InsertAfter(p: seq<Trivia>, x: Trivia, rest: seq<Trivia>, t: seq<Trivia>, repaired: seq<Trivia>)
    requires t == p + [x] + rest && rest != []
    requires repaired == [x] + ((if x.EndOfLineComment? && !rest[0].EndOfLine? then [EndOfLine] else []) + rest)
    ensures |p| + 2 <= |t| && t[|p|] == x && t[|p| + 1] == rest[0]
    ensures x.EndOfLineComment? && !rest[0].EndOfLine? ==> t[..|p| + 1] + [EndOfLine] + t[|p| + 1..] == p + repaired
    ensures !(x.EndOfLineComment? && !rest[0].EndOfLine?) ==> t == p + repaired
  {
    assert t[..|p| + 1] == p + [x] && t[|p| + 1..] == rest;
  }

  /** The comment-repair loop: walks backwards, inserting a line break after each comment lacking one. */
  method TerminateComments(filtered: seq<Trivia>) returns (trivia: seq<Trivia>)
    ensures trivia == Repaired(filtered)
  {
    trivia := filtered;
    var i := |trivia| - 2;
    if i >= -1 {
      var tail := filtered[i + 1..];
      assert |tail| == 1 && Repaired(tail) == tail;
      assert filtered[..i + 1] + tail == filtered;
    }
    while i >= 0
      invariant -2 <= i <= |filtered| - 2
      invariant i == -2 ==> filtered == [] && trivia == []
      invariant i >= -1 ==> trivia == filtered[..i + 1] + Repaired(filtered[i + 1..])
    {
      TerminateCommentsStep(filtered, i, trivia);
      if trivia[i].EndOfLineComment? && !trivia[i + 1].EndOfLine? {
        trivia := trivia[..i + 1] + [EndOfLine] + trivia[i + 1..];
      }
      i := i - 1;
    }
    if i >= -1 {
      assert filtered[..0] == [] && filtered[0..] == filtered;
    }
  }

  /**
   * One pass of the first cleanup loop at index `i`: given the list with
   * everything after `i` cleaned, the loop's edit cleans from `i` on.
   */
  lemma RemoveSpacesBeforeBreaksStep(s: seq<Trivia>, i: nat, t: seq<Trivia>)
    requires i + 2 <= |s| && t == s[..i + 1] + DropSpaceBeforeBreak(s[i + 1..])
    ensures i + 2 <= |t|
    ensures t[i].Whitespace? && t[i + 1].EndOfLine? ==> t[..i] + t[i + 1..] == s[..i] + DropSpaceBeforeBreak(s[i..])
    ensures !(t[i].Whitespace? && t[i + 1].EndOfLine?) ==> t == s[..i] + DropSpaceBeforeBreak(s[i..])
  {
    assert s[i..][1..] == s[i + 1..];
    var rest := DropSpaceBeforeBreak(s[i + 1..]);
    assert s[..i + 1] == s[..i] + [s[i]];
    assert t == s[..i] + ([s[i]] + rest);
    assert t[..i] == s[..i] && t[i + 1..] == rest;
  }

  /** The first cleanup loop: walks backwards, removing a space that precedes a line break. */
  method RemoveSpacesBeforeBreaks(fenced: seq<Trivia>) returns (trivia: seq<Trivia>)
    ensures trivia == DropSpaceBeforeBreak(fenced)
  {
    trivia := fenced;
    var i := |trivia| - 2;
    while i >= 0
      invariant -2 <= i <= |fenced| - 2
      invariant i == -2 ==> |fenced| < 2 && trivia == fenced
      invariant i >= -1 ==> trivia == fenced[..i + 1] + DropSpaceBeforeBreak(fenced[i + 1..])
    {
      RemoveSpacesBeforeBreaksStep(fenced, i, trivia);
      if trivia[i].Whitespace? && trivia[i + 1].EndOfLine? {
        trivia := trivia[..i] + trivia[i + 1..];
      }
      i := i - 1;
    }
    if i >= -1 {
      assert fenced[..0] == [] && fenced[0..] == fenced;
    }
  }

  /**
   * One pass of the second cleanup loop at index `i`: given the list with
   * everything after `i` cleaned, the loop's edit cleans from `i` on.
   */
  lemma RemoveSpacesAfterBreaksStep(s: seq<Trivia>, i: nat, t: seq<Trivia>)
    requires i + 2 <= |s| && t == s[..i + 1] + DropSpaceAfterBreak(s[i + 1..])
    ensures i + 2 <= |t|
    ensures t[i].EndOfLine? && t[i + 1].Whitespace? ==> t[..i + 1] + t[i + 2..] == s[..i] + DropSpaceAfterBreak(s[i..])
    ensures !(t[i].EndOfLine? && t[i + 1].Whitespace?) ==> t == s[..i] + DropSpaceAfterBreak(s[i..])
  {
    assert s[i..][1..] == s[i + 1..];
    var rest := DropSpaceAfterBreak(s[i + 1..]);
    assert s[..i + 1] == s[..i] + [s[i]];
    assert t == s[..i] + ([s[i]] + rest);
    assert t[..i + 1] == s[..i] + [s[i]] && t[i + 1..] == rest;
    assert t[i + 2..] == rest[1..];
  }

  /** The second cleanup loop: walks backwards, removing a space that follows a line break. */
  method RemoveSpacesAfterBreaks(tidied: seq<Trivia>) returns (trivia: seq<Trivia>)
    ensures trivia == DropSpaceAfterBreak(tidied)
  {
    trivia := tidied;
    var i := |trivia| - 2;
    while i >= 0
      invariant -2 <= i <= |tidied| - 2
      invariant i == -2 ==> |tidied| < 2 && trivia == tidied
      invariant i >= -1 ==> trivia == tidied[..i + 1] + DropSpaceAfterBreak(tidied[i + 1..])
    {
      RemoveSpacesAfterBreaksStep(tidied, i, trivia);
      if trivia[i].EndOfLine? && trivia[i + 1].Whitespace? {
        trivia := trivia[..i + 1] + trivia[i + 2..];
      }
      i := i - 1;
    }
    if i >= -1 {
      assert tidied[..0] == [] && tidied[0..] == tidied;
    }
  }

  /** `normaliseTrivia`: one list, rebuilt step by step. */
  method NormaliseTrivia(source: Option<seq<Trivia>>, prefix: Option<Trivia>, suffix: Option<Trivia>, excluded: set<Kind>)
    returns (result: Option<seq<Trivia>>)
    ensures result == Normalised(source, prefix, suffix, excluded)
  {
    var trivia := Filtered(Items(source), excluded);
    trivia := TerminateComments(trivia);
    trivia := Spaced(trivia);
    ghost var spaced := trivia;
    if prefix.Some? && |trivia| > 0 && trivia[0] != prefix.value {
      trivia := [prefix.value] + trivia;
    }
    assert trivia == WithPrefix(spaced, prefix);
    ghost var prefixed := trivia;
    if suffix.Some? && (|trivia| == 0 || trivia[|trivia| - 1] != suffix.value) {
      trivia := trivia + [suffix.value];
    }
    assert trivia == WithSuffix(prefixed, suffix);
    trivia := RemoveSpacesBeforeBreaks(trivia);
    trivia := RemoveSpacesAfterBreaks(trivia);
    result := if |trivia| == 0 then None else Some(trivia);
  }
}
