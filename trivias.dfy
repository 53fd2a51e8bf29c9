/**
 * Trivia: the non-semantic text (spaces, line breaks, `;` comments) that a
 * token carries before and after its text. The trivia classes are not part of
 * this model; their shape is read off the way GCode/GCodeFormatter.cs builds,
 * tests and compares them.
 */
module Trivias {
  import opened Wrappers

  /** A closed union compared by value, like the source's records. */
  datatype Trivia =
    | Whitespace(width: nat)
    | EndOfLine
    | EndOfLineComment(text: string)

  /** The runtime class of an item, which the formatter tests with `typeof`. */
  datatype Kind = WhitespaceKind | EndOfLineKind | CommentKind

  function KindOf(t: Trivia): Kind {
    match t
    case Whitespace(_) => WhitespaceKind
    case EndOfLine => EndOfLineKind
    case EndOfLineComment(_) => CommentKind
  }

  /** The single-width space that the formatter synthesises. */
  const Space: Trivia := Whitespace(1)

  function Spaces(n: nat): (r: string)
    ensures |r| == n
    ensures forall i :: 0 <= i < n ==> r[i] == ' '
  {
    if n == 0 then "" else Spaces(n - 1) + " "
  }

  /** The raw characters of one item. */
  function ToText(t: Trivia): string {
    match t
    case Whitespace(w) => Spaces(w)
    case EndOfLine => "\n"
    case EndOfLineComment(c) => ";" + c
  }

  /** A nullable trivia array read as a list: null is the empty list. */
  function Items(trivia: Option<seq<Trivia>>): seq<Trivia> {
    if trivia.Some? then trivia.value else []
  }

  /** The items rendered one after the other. */
  function RenderAll(items: seq<Trivia>): string {
    if items == [] then "" else ToText(items[0]) + RenderAll(items[1..])
  }

  /** `ToText` on a nullable trivia array: null renders as "". */
  function Render(trivia: Option<seq<Trivia>>): (r: string)
    ensures trivia == None ==> r == ""
  {
    RenderAll(Items(trivia))
  }

  /** Rendering distributes over concatenation. */
  lemma {:induction false} RenderAllAppend(a: seq<Trivia>, b: seq<Trivia>)
    ensures RenderAll(a + b) == RenderAll(a) + RenderAll(b)
  {
    if a == [] {
      assert a + b == b;
    } else {
      assert (a + b)[1..] == a[1..] + b;
      RenderAllAppend(a[1..], b);
    }
  }
}
