/**
 * What the trivia normaliser promises: the spacing rebuild agrees with its
 * reference, survivors keep their order and comments their text, no space
 * touches a line break, each position's result has a fixed normal form, and
 * normalising twice changes nothing.
 */
module TriviaLaws {
  import opened Wrappers
  import opened Trivias
  import opened Extensions
  import opened TriviaNormaliser

  // ---------------------------------------------------------------------------
  // Step 3: the Split/Join rebuild against its reference
  // ---------------------------------------------------------------------------

  /** Without line breaks, `Join(Space)` is the reference spacing. */
  lemma {:induction false} JoinIsSpread(s: seq<Trivia>)
    requires EndOfLine !in s
    ensures Join(s, Space) == Spread(s)
  {
    if |s| >= 2 {
      assert s[0] in s && s[1] in s;
      assert EndOfLine !in s[1..] by {
        forall j | 0 <= j < |s[1..]| ensures s[1..][j] != EndOfLine {
          assert s[1..][j] == s[j + 1];
        }
      }
      JoinIsSpread(s[1..]);
      assert [s[0], Space] + Join(s[1..], Space) == [s[0]] + ([Space] + Join(s[1..], Space));
    }
  }

  /** A leading line break starts an empty line. */
  lemma LinesAfterBreak(tail: seq<Trivia>)
    ensures Lines([EndOfLine] + tail) == [EndOfLine] + Lines(tail)
  {
    var s := [EndOfLine] + tail;
    assert s[1..] == tail;
    var rest := Split(tail, EndOfLine);
    assert Split(s, EndOfLine) == [[]] + rest;
    assert SpacedLines([[]] + rest) == [[]] + SpacedLines(rest) by {
      assert ([[]] + rest)[1..] == rest;
    }
    FlattenJoinCons([], SpacedLines(rest), [EndOfLine]);
  }

  /** A leading item that is not a line break joins the first run. */
  lemma SplitAfterItem(a: Trivia, tail: seq<Trivia>)
    requires a != EndOfLine
    ensures var rest := Split(tail, EndOfLine);
      && Split([a] + tail, EndOfLine) == [[a] + rest[0]] + rest[1..]
      && (rest[0] == [] <==> tail == [] || tail[0] == EndOfLine)
  {
    SplitCons(a, tail, EndOfLine);
    if tail != [] {
      SplitCons(tail[0], tail[1..], EndOfLine);
      assert tail == [tail[0]] + tail[1..];
    }
  }

  lemma SpacedLinesCons(line: seq<Trivia>, lines: seq<seq<Trivia>>)
    ensures SpacedLines([line] + lines) == [Join(line, Space)] + SpacedLines(lines)
  {
    SelectCons(line, lines, l => Join(l, Space));
  }

  /**
   * Associativity for four parts, stated over plain variables so that a
   * proof needing it does not redo the extensional argument in its own context.
   */
  lemma Regroup<T>(x: seq<T>, y: seq<T>, z: seq<T>, w: seq<T>)
    ensures (x + y + z) + w == x + y + (z + w)
  {
  }

  /** A leading item joins the first line, with a space if that line goes on. */
  lemma LinesAfterItem(a: Trivia, tail: seq<Trivia>)
    requires a != EndOfLine
    ensures Lines([a] + tail)
         == [a] + (if tail == [] || tail[0] == EndOfLine then [] else [Space]) + Lines(tail)
  {
    var rest := Split(tail, EndOfLine);
    var line := [a] + rest[0];
    SplitAfterItem(a, tail);
    SpacedLinesCons(line, rest[1..]);
    SpacedLinesCons(rest[0], rest[1..]);
    assert [rest[0]] + rest[1..] == rest;
    var others := SpacedLines(rest[1..]);
    var after := if others == [] then [] else [EndOfLine] + Flatten(Join(others, [EndOfLine]));
    FlattenJoinCons(Join(line, Space), others, [EndOfLine]);
    FlattenJoinCons(Join(rest[0], Space), others, [EndOfLine]);
    assert Lines([a] + tail) == Join(line, Space) + after;
    assert Lines(tail) == Join(rest[0], Space) + after;
    var gap := if tail == [] || tail[0] == EndOfLine then [] else [Space];
    var joined := Join(rest[0], Space);
    assert Join(line, Space) == [a] + gap + joined by {
      JoinCons(a, rest[0], Space);
      if rest[0] == [] {
        assert joined == [] && gap == [];
        assert [a] + gap + joined == [a];
      } else {
        assert [a] + ([Space] + joined) == [a] + [Space] + joined;
      }
    }
    calc {
      Lines([a] + tail);
      Join(line, Space) + after;
      ([a] + gap + joined) + after;
      { Regroup([a], gap, joined, after); }
      [a] + gap + (joined + after);
    }
  }

  /** The reference spacing, one item at a time. */
  lemma SpreadCons(a: Trivia, tail: seq<Trivia>)
    ensures Spread([a] + tail)
         == [a] + (if tail != [] && a != EndOfLine && tail[0] != EndOfLine then [Space] else []) + Spread(tail)
  {
    assert ([a] + tail)[1..] == tail;
    if tail == [] {
      assert [a] + tail == [a];
    }
  }

  lemma LinesOfNothing()
    ensures Lines([]) == []
  {
    var empty: seq<seq<Trivia>> := [];
    var nothing: seq<Trivia> := [];
    assert Split(nothing, EndOfLine) == [[]];
    assert SpacedLines([[]]) == [[]] + SpacedLines(empty);
    FlattenJoinCons([], empty, [EndOfLine]);
  }

  /** The line-by-line rebuild is the reference spacing. */
  lemma {:induction false} LinesIsSpread(s: seq<Trivia>)
    ensures Lines(s) == Spread(s)
  {
    if s == [] {
      LinesOfNothing();
    } else {
      var tail := s[1..];
      assert s == [s[0]] + tail;
      LinesIsSpread(tail);
      SpreadCons(s[0], tail);
      if s[0] == EndOfLine {
        LinesAfterBreak(tail);
      } else {
        LinesAfterItem(s[0], tail);
      }
    }
  }

  /** Both branches of the spacing rebuild agree with the reference. */
  lemma SpacedIsSpread(s: seq<Trivia>)
    ensures Spaced(s) == Spread(s)
  {
    if EndOfLine in s {
      LinesIsSpread(s);
    } else {
      JoinIsSpread(s);
    }
  }

  // ---------------------------------------------------------------------------
  // Steps that change nothing on lists already in shape
  // ---------------------------------------------------------------------------

  lemma {:induction false} FilteredKeepsClean(s: seq<Trivia>, excluded: set<Kind>)
    requires forall i :: 0 <= i < |s| ==> !Dropped(s[i], excluded)
    ensures Filtered(s, excluded) == s
  {
    if s != [] {
      FilteredKeepsClean(s[1..], excluded);
      assert s == [s[0]] + s[1..];
    }
  }

  /** Between the tokens of a statement nothing survives the filter. */
  lemma {:induction false} FilteredInline(s: seq<Trivia>)
    ensures Filtered(s, InlineExclusions) == []
  {
    if s != [] {
      assert Dropped(s[0], InlineExclusions);
      FilteredInline(s[1..]);
    }
  }

  lemma {:induction false} RepairedKeepsTerminated(s: seq<Trivia>)
    requires CommentsTerminated(s)
    ensures Repaired(s) == s
  {
    if |s| >= 2 {
      NeighboursTail(s);
      var x, t := s[0], s[1..];
      RepairedKeepsTerminated(t);
      assert TerminatedAt(s, 0);
      assert s == [x] + t;
      RepairedCons(x, t);
      assert [] + t == t;
    }
  }

  /** With no whitespace and every comment but a final one closed, no two neighbours need a space. */
  lemma {:induction false} SpreadKeepsTerminated(s: seq<Trivia>)
    requires NoWhitespace(s) && CommentsTerminated(s)
    ensures Spread(s) == s
  {
    if |s| >= 2 {
      NeighboursTail(s);
      assert NoWhitespace(s[1..]);
      SpreadKeepsTerminated(s[1..]);
      assert !s[0].Whitespace? && TerminatedAt(s, 0) && s[1..][0] == s[1];
      assert [] + s[1..] == s[1..];
      assert s == [s[0]] + s[1..];
    }
  }

  lemma NoWhitespaceTidy(s: seq<Trivia>)
    requires NoWhitespace(s)
    ensures NoDoubleSpace(s) && NoSpaceBeforeBreak(s) && NoSpaceAfterBreak(s)
  {
  }

  /** The surviving items after steps 1 and 2: no whitespace, every comment but a final one closed. */
  lemma Survivors(source: seq<Trivia>, excluded: set<Kind>)
    ensures var r := Repaired(Filtered(source, excluded));
      NoWhitespace(r) && CommentsTerminated(r) && Spaced(r) == r
  {
    var f := Filtered(source, excluded);
    FilteredItems(source, excluded);
    assert NoWhitespace(f);
    var r := Repaired(f);
    RepairedTerminates(f);
    SpacedIsSpread(r);
    SpreadKeepsTerminated(r);
  }

  // ---------------------------------------------------------------------------
  // Normal forms of the four positions
  // ---------------------------------------------------------------------------

  /** `r` closed by a line break, unless it already ends in one. */
  function Terminated(r: seq<Trivia>): (t: seq<Trivia>)
    ensures t != [] && t[|t| - 1] == EndOfLine
  {
    if r != [] && r[|r| - 1] == EndOfLine then r else r + [EndOfLine]
  }

  /** The shape of a statement's last trailing trivia: one space unless a line break comes first. */
  function LineEnd(r: seq<Trivia>): (line: seq<Trivia>)
    ensures line != [] && line[|line| - 1] == EndOfLine
    ensures line[0] == Space || line[0] == EndOfLine
  {
    var t := Terminated(r);
    if t[0] == EndOfLine then t else [Space] + t
  }

  /**
   * No prefix, no suffix, nothing excluded (a statement's first leading
   * trivia): whitespace goes, every comment but a final one is closed by a
   * line break, nothing else changes.
   */
  lemma OpenNormalForm(source: Option<seq<Trivia>>)
    ensures Normalised(source, None, None, {}) == AsNullable(Repaired(Filtered(Items(source), {})))
  {
    var r := Repaired(Filtered(Items(source), {}));
    Survivors(Items(source), {});
    NoWhitespaceTidy(r);
    DropSpaceBeforeBreakTidy(r);
    DropSpaceAfterBreakTidy(r);
  }

  /**
   * Line breaks and comments excluded (between tokens): only the suffix is
   * left, or nothing.
   */
  lemma InlineNormalForm(source: Option<seq<Trivia>>, prefix: Option<Trivia>, suffix: Option<Trivia>)
    ensures Normalised(source, prefix, suffix, InlineExclusions)
         == if suffix.Some? then Some([suffix.value]) else None
  {
    FilteredInline(Items(source));
    var none: seq<Trivia> := [];
    assert Repaired(none) == none;
    SpacedIsSpread(none);
    assert Spaced(none) == none;
    assert WithPrefix(none, prefix) == none;
    var fenced := WithSuffix(none, suffix);
    assert fenced == if suffix.Some? then [suffix.value] else [];
    assert DropSpaceAfterBreak(DropSpaceBeforeBreak(fenced)) == fenced;
    assert Normalised(source, prefix, suffix, InlineExclusions) == AsNullable(fenced);
  }

  /** Steps 4a and 4b on survivors: a space in front, a line break at the end. */
  lemma FenceSurvivors(r: seq<Trivia>)
    requires NoWhitespace(r) && r != []
    ensures WithSuffix(WithPrefix(r, Some(Space)), Some(EndOfLine)) == [Space] + Terminated(r)
  {
    assert r[0] != Space;
    var prefixed := WithPrefix(r, Some(Space));
    assert prefixed == [Space] + r;
    assert prefixed[|prefixed| - 1] == r[|r| - 1];
    if r[|r| - 1] != EndOfLine {
      assert WithSuffix(prefixed, Some(EndOfLine)) == ([Space] + r) + [EndOfLine];
    }
  }

  /** Step 5 on a fenced line: the space goes if a line break follows it. */
  lemma CleanFenced(t: seq<Trivia>)
    requires NoWhitespace(t) && t != []
    ensures var line := if t[0] == EndOfLine then t else [Space] + t;
      DropSpaceAfterBreak(DropSpaceBeforeBreak([Space] + t)) == line
  {
    NoWhitespaceTidy(t);
    DropSpaceBeforeBreakTidy(t);
    var fenced := [Space] + t;
    assert fenced[1..] == t;
    var line := if t[0] == EndOfLine then t else [Space] + t;
    assert DropSpaceBeforeBreak(fenced) == line;
    assert NoSpaceAfterBreak(line) by {
      if line != t {
        NeighboursCons(Space, t);
      }
    }
    DropSpaceAfterBreakTidy(line);
  }

  /**
   * Prefix a space, suffix a line break, nothing excluded (a statement's last
   * trailing trivia): the survivors, closed by a line break, after one space
   * unless they start with a line break.
   */
  lemma TerminatedNormalForm(source: Option<seq<Trivia>>)
    ensures Normalised(source, Some(Space), Some(EndOfLine), {})
         == Some(LineEnd(Repaired(Filtered(Items(source), {}))))
  {
    var r := Repaired(Filtered(Items(source), {}));
    Survivors(Items(source), {});
    var t := Terminated(r);
    TerminatedIsClosed(r);
    if r == [] {
      assert WithSuffix(WithPrefix(r, Some(Space)), Some(EndOfLine)) == [EndOfLine];
    } else {
      FenceSurvivors(r);
      CleanFenced(t);
    }
  }

  lemma TerminatedIsClosed(r: seq<Trivia>)
    requires NoWhitespace(r) && CommentsTerminated(r)
    ensures NoWhitespace(Terminated(r)) && CommentsTerminated(Terminated(r))
  {
    var t := Terminated(r);
    if t != r {
      forall i | 0 <= i < |t| - 1 ensures TerminatedAt(t, i) {
        if i < |r| - 1 {
          assert TerminatedAt(r, i);
        }
      }
    }
  }

  /** Filtering a fenced line gives back the closed survivors. */
  lemma FilteredLineEnd(r: seq<Trivia>)
    requires NoWhitespace(r) && CommentsTerminated(r)
    ensures Filtered(LineEnd(r), {}) == Terminated(r)
  {
    var t := Terminated(r);
    var line := LineEnd(r);
    TerminatedIsClosed(r);
    FilteredKeepsClean(t, {});
    if line != t {
      assert line == [Space] + t && line[1..] == t;
      assert Dropped(line[0], {});
      assert Filtered(line, {}) == [] + Filtered(line[1..], {});
    }
  }

  // ---------------------------------------------------------------------------
  // Idempotence
  // ---------------------------------------------------------------------------

  lemma OpenIdempotent(source: Option<seq<Trivia>>)
    ensures var once := Normalised(source, None, None, {});
      Normalised(once, None, None, {}) == once
  {
    var r := Repaired(Filtered(Items(source), {}));
    OpenNormalForm(source);
    Survivors(Items(source), {});
    OpenNormalForm(AsNullable(r));
    FilteredKeepsClean(r, {});
    RepairedKeepsTerminated(r);
  }

  lemma InlineIdempotent(source: Option<seq<Trivia>>, prefix: Option<Trivia>, suffix: Option<Trivia>)
    ensures var once := Normalised(source, prefix, suffix, InlineExclusions);
      Normalised(once, prefix, suffix, InlineExclusions) == once
  {
    InlineNormalForm(source, prefix, suffix);
    InlineNormalForm(Normalised(source, prefix, suffix, InlineExclusions), prefix, suffix);
  }

  lemma TerminatedIdempotent(source: Option<seq<Trivia>>)
    ensures var once := Normalised(source, Some(Space), Some(EndOfLine), {});
      Normalised(once, Some(Space), Some(EndOfLine), {}) == once
  {
    var r := Repaired(Filtered(Items(source), {}));
    TerminatedNormalForm(source);
    Survivors(Items(source), {});
    var t := Terminated(r);
    TerminatedIsClosed(r);
    var line := LineEnd(r);
    TerminatedNormalForm(Some(line));
    FilteredLineEnd(r);
    RepairedKeepsTerminated(t);
    assert Terminated(t) == t;
  }

  // ---------------------------------------------------------------------------
  // What survives, what is added, where spaces may stand
  // ---------------------------------------------------------------------------

  lemma {:induction false} RepairedItems(s: seq<Trivia>)
    ensures forall x :: x in Repaired(s) ==> x in s || x == EndOfLine
  {
    if |s| >= 2 {
      RepairedItems(s[1..]);
      assert forall x :: x in s[1..] ==> x in s;
    }
  }

  /** The list that reaches the cleanup loops: the survivors with prefix and suffix. */
  function Fenced(source: Option<seq<Trivia>>, prefix: Option<Trivia>, suffix: Option<Trivia>, excluded: set<Kind>): seq<Trivia> {
    WithSuffix(WithPrefix(Spaced(Repaired(Filtered(Items(source), excluded))), prefix), suffix)
  }

  lemma FencedIsNormalised(source: Option<seq<Trivia>>, prefix: Option<Trivia>, suffix: Option<Trivia>, excluded: set<Kind>)
    ensures Items(Normalised(source, prefix, suffix, excluded))
         == DropSpaceAfterBreak(DropSpaceBeforeBreak(Fenced(source, prefix, suffix, excluded)))
  {
  }

  /** Spaces can only stand at the two ends of the fenced list, and never side by side. */
  lemma FencedNoDoubleSpace(r: seq<Trivia>, prefix: Option<Trivia>, suffix: Option<Trivia>)
    requires NoWhitespace(r)
    ensures NoDoubleSpace(WithSuffix(WithPrefix(r, prefix), suffix))
  {
    var p := WithPrefix(r, prefix);
    assert NoDoubleSpace(p) by {
      forall i | 0 <= i < |p| - 1 ensures !(p[i].Whitespace? && p[i + 1].Whitespace?) {
        if p != r {
          assert p[i + 1] == r[i];
        }
      }
    }
    assert p != [] ==> !p[|p| - 1].Whitespace?;
    var q := WithSuffix(p, suffix);
    forall i | 0 <= i < |q| - 1 ensures !(q[i].Whitespace? && q[i + 1].Whitespace?) {
      if q != p {
        assert q[i] == p[i];
      }
    }
  }

  /** The result never has a space directly before or after a line break. */
  lemma NormalisedTidy(source: Option<seq<Trivia>>, prefix: Option<Trivia>, suffix: Option<Trivia>, excluded: set<Kind>)
    ensures var out := Items(Normalised(source, prefix, suffix, excluded));
      NoSpaceBeforeBreak(out) && NoSpaceAfterBreak(out)
  {
    var r := Repaired(Filtered(Items(source), excluded));
    Survivors(Items(source), excluded);
    FencedNoDoubleSpace(r, prefix, suffix);
    var q := WithSuffix(WithPrefix(r, prefix), suffix);
    DropSpaceBeforeBreakTidy(q);
    DropSpaceAfterBreakTidy(DropSpaceBeforeBreak(q));
    FencedIsNormalised(source, prefix, suffix, excluded);
  }

  /**
   * The cleanup is reachable: the last token's trailing trivia `[EndOfLine]`
   * gets the space prefix in front of its line break, and step 5a removes it.
   */
  lemma CleanupReachable()
    ensures Fenced(Some([EndOfLine]), Some(Space), Some(EndOfLine), {}) == [Space, EndOfLine]
    ensures Normalised(Some([EndOfLine]), Some(Space), Some(EndOfLine), {}) == Some([EndOfLine])
  {
    var lone := [EndOfLine];
    assert Filtered(lone, {}) == [EndOfLine] + Filtered(lone[1..], {});
    assert Repaired(lone) == lone;
    SpacedIsSpread(lone);
    assert WithPrefix(lone, Some(Space)) == [Space, EndOfLine];
    var fenced := [Space, EndOfLine];
    assert fenced[1..] == lone;
    assert DropSpaceBeforeBreak(fenced) == lone;
  }

  /**
   * The repair loop starts at the last-but-one item, and a statement's first
   * leading trivia gets no suffix: a comment that ends the list is left open.
   */
  lemma OpenCommentStaysOpen()
    ensures Normalised(Some([EndOfLineComment(" x")]), None, None, {}) == Some([EndOfLineComment(" x")])
  {
    var s := [EndOfLineComment(" x")];
    OpenNormalForm(Some(s));
    assert s[1..] == [];
    assert Filtered(s, {}) == s;
    assert Repaired(s) == s;
  }

  /**
   * Every item of the result is a surviving input item (not whitespace, not
   * excluded), a line break, or the given prefix or suffix. The spacing step
   * adds nothing, so a space appears only as a prefix or suffix.
   */
  lemma NormalisedAddsOnly(source: Option<seq<Trivia>>, prefix: Option<Trivia>, suffix: Option<Trivia>, excluded: set<Kind>)
    ensures forall x :: x in Items(Normalised(source, prefix, suffix, excluded)) ==>
      (x in Items(source) && !Dropped(x, excluded)) || x == EndOfLine || prefix == Some(x) || suffix == Some(x)
  {
    var f := Filtered(Items(source), excluded);
    FilteredItems(Items(source), excluded);
    Survivors(Items(source), excluded);
    RepairedItems(f);
    FencedIsNormalised(source, prefix, suffix, excluded);
    var fenced := Fenced(source, prefix, suffix, excluded);
    assert forall x :: x in fenced ==> x in Repaired(f) || prefix == Some(x) || suffix == Some(x);
    DropSpaceBeforeBreakTidy(fenced);
    DropSpaceAfterBreakTidy(DropSpaceBeforeBreak(fenced));
  }

  // ---------------------------------------------------------------------------
  // Order
  // ---------------------------------------------------------------------------

  lemma {:induction false} SubsequenceOfSelf(x: seq<Trivia>)
    ensures IsSubsequence(x, x)
  {
    if x != [] {
      SubsequenceOfSelf(x[1..]);
    }
  }

  lemma SubsequenceSkip(x: seq<Trivia>, a: Trivia, y: seq<Trivia>)
    requires IsSubsequence(x, y)
    ensures IsSubsequence(x, [a] + y)
  {
    assert ([a] + y)[1..] == y;
  }

  lemma SubsequenceTake(a: Trivia, x: seq<Trivia>, y: seq<Trivia>)
    requires IsSubsequence(x, y)
    ensures IsSubsequence([a] + x, [a] + y)
  {
    assert ([a] + x)[1..] == x && ([a] + y)[1..] == y;
  }

  lemma {:induction false} SubsequenceSnoc(x: seq<Trivia>, y: seq<Trivia>, a: Trivia)
    requires IsSubsequence(x, y)
    ensures IsSubsequence(x, y + [a])
  {
    if x != [] {
      assert (y + [a])[1..] == y[1..] + [a];
      if x[0] == y[0] && IsSubsequence(x[1..], y[1..]) {
        SubsequenceSnoc(x[1..], y[1..], a);
      } else {
        SubsequenceSnoc(x, y[1..], a);
      }
    }
  }

  lemma {:induction false} RepairedKeepsOrder(s: seq<Trivia>)
    ensures IsSubsequence(s, Repaired(s))
  {
    if |s| < 2 {
      SubsequenceOfSelf(s);
    } else {
      var rest := Repaired(s[1..]);
      RepairedKeepsOrder(s[1..]);
      assert [s[0]] + s[1..] == s;
      if s[0].EndOfLineComment? && !s[1].EndOfLine? {
        SubsequenceSkip(s[1..], EndOfLine, rest);
        SubsequenceTake(s[0], s[1..], [EndOfLine] + rest);
        assert Repaired(s) == [s[0]] + ([EndOfLine] + rest);
      } else {
        SubsequenceTake(s[0], s[1..], rest);
        assert Repaired(s) == [s[0]] + rest by {
          assert [] + rest == rest;
        }
      }
    }
  }

  /** Removing spaces before breaks keeps every whitespace-free subsequence. */
  lemma {:induction false} DropSpaceBeforeBreakKeepsOrder(x: seq<Trivia>, y: seq<Trivia>)
    requires NoWhitespace(x) && IsSubsequence(x, y)
    ensures IsSubsequence(x, DropSpaceBeforeBreak(y))
  {
    if x != [] && |y| >= 2 {
      var rest := DropSpaceBeforeBreak(y[1..]);
      if x[0] == y[0] && IsSubsequence(x[1..], y[1..]) {
        assert NoWhitespace(x[1..]);
        DropSpaceBeforeBreakKeepsOrder(x[1..], y[1..]);
        assert DropSpaceBeforeBreak(y) == [y[0]] + rest;
        SubsequenceTake(y[0], x[1..], rest);
        assert [x[0]] + x[1..] == x;
      } else {
        DropSpaceBeforeBreakKeepsOrder(x, y[1..]);
        if DropSpaceBeforeBreak(y) != rest {
          SubsequenceSkip(x, y[0], rest);
        }
      }
    }
  }

  /** Removing spaces after breaks keeps every whitespace-free subsequence. */
  lemma {:induction false} DropSpaceAfterBreakKeepsOrder(x: seq<Trivia>, y: seq<Trivia>)
    requires NoWhitespace(x) && IsSubsequence(x, y)
    ensures IsSubsequence(x, DropSpaceAfterBreak(y))
  {
    if x != [] && |y| >= 2 {
      var rest := DropSpaceAfterBreak(y[1..]);
      if x[0] == y[0] && IsSubsequence(x[1..], y[1..]) {
        assert NoWhitespace(x[1..]);
        DropSpaceAfterBreakKeepsOrder(x[1..], y[1..]);
        if y[0].EndOfLine? && rest[0].Whitespace? {
          // the removed space cannot be the next item of x
          assert rest == [rest[0]] + rest[1..];
          assert IsSubsequence(x[1..], rest[1..]) by {
            if x[1..] != [] {
              assert x[1..][0] != rest[0];
            }
          }
          SubsequenceTake(y[0], x[1..], rest[1..]);
        } else {
          SubsequenceTake(y[0], x[1..], rest);
        }
        assert [x[0]] + x[1..] == x;
      } else {
        DropSpaceAfterBreakKeepsOrder(x, y[1..]);
        if y[0].EndOfLine? && rest[0].Whitespace? {
          assert rest == [rest[0]] + rest[1..];
          assert IsSubsequence(x, rest[1..]) by {
            assert x[0] != rest[0];
          }
          SubsequenceSkip(x, y[0], rest[1..]);
        } else {
          SubsequenceSkip(x, y[0], rest);
        }
      }
    }
  }

  /** The surviving input items appear in the result in their original order. */
  lemma NormalisedKeepsOrder(source: Option<seq<Trivia>>, prefix: Option<Trivia>, suffix: Option<Trivia>, excluded: set<Kind>)
    ensures IsSubsequence(Filtered(Items(source), excluded), Items(Normalised(source, prefix, suffix, excluded)))
  {
    var f := Filtered(Items(source), excluded);
    var r := Repaired(f);
    Survivors(Items(source), excluded);
    RepairedKeepsOrder(f);
    var p := WithPrefix(r, prefix);
    if p != r {
      SubsequenceSkip(f, prefix.value, r);
    }
    var q := WithSuffix(p, suffix);
    if q != p {
      SubsequenceSnoc(f, p, suffix.value);
    }
    FilteredItems(Items(source), excluded);
    assert NoWhitespace(f);
    DropSpaceBeforeBreakKeepsOrder(f, q);
    DropSpaceAfterBreakKeepsOrder(f, DropSpaceBeforeBreak(q));
    FencedIsNormalised(source, prefix, suffix, excluded);
  }

  // ---------------------------------------------------------------------------
  // Comments
  // ---------------------------------------------------------------------------

  lemma {:induction false} CommentsAppend(a: seq<Trivia>, b: seq<Trivia>)
    ensures Comments(a + b) == Comments(a) + Comments(b)
  {
    if a != [] {
      assert (a + b)[1..] == a[1..] + b;
      CommentsAppend(a[1..], b);
    } else {
      assert a + b == b;
    }
  }

  lemma {:induction false} CommentsFiltered(s: seq<Trivia>, excluded: set<Kind>)
    ensures Comments(Filtered(s, excluded)) == if CommentKind in excluded then [] else Comments(s)
  {
    if s != [] {
      CommentsFiltered(s[1..], excluded);
      var head := if Dropped(s[0], excluded) then [] else [s[0]];
      CommentsAppend(head, Filtered(s[1..], excluded));
    }
  }

  lemma {:induction false} CommentsRepaired(s: seq<Trivia>)
    ensures Comments(Repaired(s)) == Comments(s)
  {
    if |s| >= 2 {
      CommentsRepaired(s[1..]);
      var mid := if s[0].EndOfLineComment? && !s[1].EndOfLine? then [EndOfLine] else [];
      CommentsAppend([s[0]], mid + Repaired(s[1..]));
      CommentsAppend(mid, Repaired(s[1..]));
    }
  }

  lemma {:induction false} CommentsDropSpaceBeforeBreak(s: seq<Trivia>)
    ensures Comments(DropSpaceBeforeBreak(s)) == Comments(s)
  {
    if |s| >= 2 {
      CommentsDropSpaceBeforeBreak(s[1..]);
      CommentsAppend([s[0]], DropSpaceBeforeBreak(s[1..]));
    }
  }

  lemma {:induction false} CommentsDropSpaceAfterBreak(s: seq<Trivia>)
    ensures Comments(DropSpaceAfterBreak(s)) == Comments(s)
  {
    if |s| >= 2 {
      var rest := DropSpaceAfterBreak(s[1..]);
      CommentsDropSpaceAfterBreak(s[1..]);
      if s[0].EndOfLine? && rest[0].Whitespace? {
        CommentsAppend([rest[0]], rest[1..]);
        assert [rest[0]] + rest[1..] == rest;
        CommentsAppend([s[0]], rest[1..]);
      } else {
        CommentsAppend([s[0]], rest);
      }
    }
  }

  /** A prefix or suffix that is not a comment adds no comment. */
  lemma CommentsFenced(r: seq<Trivia>, prefix: Option<Trivia>, suffix: Option<Trivia>)
    requires prefix.Some? ==> !prefix.value.EndOfLineComment?
    requires suffix.Some? ==> !suffix.value.EndOfLineComment?
    ensures Comments(WithSuffix(WithPrefix(r, prefix), suffix)) == Comments(r)
  {
    var p := WithPrefix(r, prefix);
    if p != r {
      assert Comments([prefix.value]) == [];
      CommentsAppend([prefix.value], r);
    }
    var q := WithSuffix(p, suffix);
    if q != p {
      assert Comments([suffix.value]) == [];
      CommentsAppend(p, [suffix.value]);
    }
  }

  /**
   * Comments come through in order and with their text unchanged, unless
   * comments are excluded, in which case none is left.
   */
  lemma NormalisedKeepsComments(source: Option<seq<Trivia>>, prefix: Option<Trivia>, suffix: Option<Trivia>, excluded: set<Kind>)
    requires prefix.Some? ==> !prefix.value.EndOfLineComment?
    requires suffix.Some? ==> !suffix.value.EndOfLineComment?
    ensures Comments(Items(Normalised(source, prefix, suffix, excluded)))
         == if CommentKind in excluded then [] else Comments(Items(source))
  {
    var f := Filtered(Items(source), excluded);
    var r := Repaired(f);
    Survivors(Items(source), excluded);
    CommentsFiltered(Items(source), excluded);
    CommentsRepaired(f);
    CommentsFenced(r, prefix, suffix);
    var q := WithSuffix(WithPrefix(r, prefix), suffix);
    CommentsDropSpaceBeforeBreak(q);
    CommentsDropSpaceAfterBreak(DropSpaceBeforeBreak(q));
    FencedIsNormalised(source, prefix, suffix, excluded);
  }
}
