/**
 * The formatter (GCode/GCodeFormatter.cs): every command statement is rebuilt
 * token by token, each token's trivia normalised under the rules for its
 * position; every other statement passes through.
 */
module Formatter {
  import opened Wrappers
  import opened Trivias
  import opened Extensions
  import opened Tokens
  import opened Statements
  import opened TriviaNormaliser
  import opened TriviaLaws

  /** Trivia that ends its statement's line: present, non-empty, last item a line break. */
  predicate EndsLine(trivia: Option<seq<Trivia>>) {
    trivia.Some? && trivia.value != [] && trivia.value[|trivia.value| - 1] == EndOfLine
  }

  /**
   * Leading trivia as the formatter leaves it before a command: no whitespace,
   * and every comment but a final one followed by a line break. A final
   * comment stays open (`OpenCommentSwallowsCommand`).
   */
  predicate OpensLine(trivia: Option<seq<Trivia>>) {
    trivia != Some([]) && NoWhitespace(Items(trivia)) && CommentsTerminated(Items(trivia))
  }

  /**
   * Leading trivia of a statement's first token: whitespace goes, and every
   * comment but a final one is followed by a line break.
   */
  function OpeningTrivia(trivia: Option<seq<Trivia>>): (r: Option<seq<Trivia>>)
    ensures Items(r) == Repaired(Filtered(Items(trivia), {}))
    ensures OpensLine(r)
    ensures Comments(Items(r)) == Comments(Items(trivia))
    ensures IsSubsequence(Filtered(Items(trivia), {}), Items(r))
  {
    OpenNormalForm(trivia);
    Survivors(Items(trivia), {});
    NormalisedKeepsComments(trivia, None, None, {});
    NormalisedKeepsOrder(trivia, None, None, {});
    Normalised(trivia, None, None, {})
  }

  /** Leading trivia of any other token: all of it goes. */
  function InnerLeadingTrivia(trivia: Option<seq<Trivia>>): (r: Option<seq<Trivia>>)
    ensures r == None
  {
    InlineNormalForm(trivia, None, None);
    Normalised(trivia, None, None, InlineExclusions)
  }

  /** Trailing trivia of a statement's last token: one space, its comments, then a line break. */
  function ClosingTrivia(trivia: Option<seq<Trivia>>): (r: Option<seq<Trivia>>)
    ensures r == Some(LineEnd(Repaired(Filtered(Items(trivia), {}))))
    ensures EndsLine(r)
    ensures r.value[0] == Space || r.value[0] == EndOfLine
    ensures Comments(Items(r)) == Comments(Items(trivia))
    ensures CommentsTerminated(Items(r))
  {
    TerminatedNormalForm(trivia);
    NormalisedKeepsComments(trivia, Some(Space), Some(EndOfLine), {});
    var survivors := Repaired(Filtered(Items(trivia), {}));
    Survivors(Items(trivia), {});
    TerminatedIsClosed(survivors);
    assert CommentsTerminated(LineEnd(survivors)) by {
      if LineEnd(survivors) != Terminated(survivors) {
        NeighboursCons(Space, Terminated(survivors));
      }
    }
    Normalised(trivia, Some(Space), Some(EndOfLine), {})
  }

  /** Trailing trivia of any other token: exactly one space. */
  function InnerTrailingTrivia(trivia: Option<seq<Trivia>>): (r: Option<seq<Trivia>>)
    ensures r == Some([Space])
  {
    InlineNormalForm(trivia, Some(Space), Some(Space));
    Normalised(trivia, Some(Space), Some(Space), InlineExclusions)
  }

  /**
   * `normaliseTokenWhitespace`: the leading trivia of the first token keeps its
   * comments and line breaks, that of any other token goes; the trailing
   * trivia of the last token ends the line, that of any other token is one
   * space. The token's kind and text are kept.
   */
  function NormaliseTokenWhitespace(token: Token, firstTokenOfStatement: bool, lastTokenOfStatement: bool): (r: Token)
    ensures r.Command? == token.Command? && r.text == token.text
    ensures firstTokenOfStatement ==> OpensLine(r.leading)
    ensures firstTokenOfStatement ==> Comments(Items(r.leading)) == Comments(Items(token.leading))
    ensures !firstTokenOfStatement ==> r.leading == None
    ensures lastTokenOfStatement ==> EndsLine(r.trailing)
    ensures lastTokenOfStatement ==> Comments(Items(r.trailing)) == Comments(Items(token.trailing))
    ensures lastTokenOfStatement ==> CommentsTerminated(Items(r.trailing))
    ensures !lastTokenOfStatement ==> r.trailing == Some([Space])
  {
    var leading := if firstTokenOfStatement then OpeningTrivia(token.leading) else InnerLeadingTrivia(token.leading);
    var trailing := if lastTokenOfStatement then ClosingTrivia(token.trailing) else InnerTrailingTrivia(token.trailing);
    token.WithLeadingTrivia(leading).WithTrailingTrivia(trailing)
  }

  /**
   * A comment that ends a command's leading trivia stays open, so the command
   * word is written inside that comment.
   */
  lemma OpenCommentSwallowsCommand()
    ensures var comment := Some([EndOfLineComment(" x")]);
      OpeningTrivia(comment) == comment
      && NormaliseTokenWhitespace(Command("G28", comment, None), true, true).FullText() == "; xG28\n"
  {
    OpenCommentStaysOpen();
    var comment := Some([EndOfLineComment(" x")]);
    var closing := ClosingTrivia(None);
    assert Items(None) == [] && Filtered([], {}) == [] && Repaired([]) == [];
    assert Terminated([]) == [EndOfLine];
    assert closing == Some([EndOfLine]);
    var r := NormaliseTokenWhitespace(Command("G28", comment, None), true, true);
    assert r == Command("G28", comment, closing);
    assert Render(comment) == "; x" && Render(closing) == "\n";
  }

  predicate NoArguments(statement: CommandStatementSyntax) {
    statement.arguments.None? || |statement.arguments.value| == 0
  }

  /** Same kind and same text: only trivia differs. */
  predicate SameWord(a: Token, b: Token) {
    a.Command? == b.Command? && a.text == b.text
  }

  predicate SameWords(a: seq<Token>, b: seq<Token>) {
    |a| == |b| && forall i :: 0 <= i < |a| ==> SameWord(a[i], b[i])
  }

  /**
   * The shape of a formatted argument array: no argument has leading trivia,
   * each but the last is followed by one space, the last ends the line.
   */
  predicate SpacedArguments(arguments: seq<Token>) {
    && arguments != []
    && (forall i :: 0 <= i < |arguments| ==> arguments[i].leading == None)
    && (forall i :: 0 <= i < |arguments| - 1 ==> arguments[i].trailing == Some([Space]))
    && EndsLine(arguments[|arguments| - 1].trailing)
  }

  /** The shape of a formatted command statement. */
  predicate WellSpaced(statement: CommandStatementSyntax) {
    var arguments := ArgumentList(statement.arguments);
    && OpensLine(statement.command.leading)
    && (arguments == [] ==> statement.arguments == None && EndsLine(statement.command.trailing))
    && (arguments != [] ==> statement.command.trailing == Some([Space]) && SpacedArguments(arguments))
  }

  /**
   * The arguments of a statement that has some, each normalised for its
   * position: only the last one ends the statement.
   */
  function NormaliseArguments(arguments: seq<ArgumentToken>): (r: seq<ArgumentToken>)
    requires arguments != []
    ensures |r| == |arguments|
  {
    seq(|arguments|, i requires 0 <= i < |arguments| =>
      NormaliseTokenWhitespace(arguments[i], false, i == |arguments| - 1))
  }

  /** The argument at position `i` is normalised for that position. */
  lemma ArgumentAt(arguments: seq<ArgumentToken>, i: nat)
    requires i < |arguments|
    ensures NormaliseArguments(arguments)[i] == NormaliseTokenWhitespace(arguments[i], false, i == |arguments| - 1)
  {
  }

  /** A token rebuilt for a position after the first: its word kept, its trivia in shape. */
  predicate Placed(r: Token, token: Token, last: bool) {
    && SameWord(r, token)
    && r.leading == None
    && (last ==> EndsLine(r.trailing) && Comments(Items(r.trailing)) == Comments(Items(token.trailing)))
    && (!last ==> r.trailing == Some([Space]))
  }

  /** Tokens each placed for their position form a spaced argument array. */
  lemma PlacedArguments(r: seq<Token>, arguments: seq<Token>)
    requires |r| == |arguments| > 0
    requires forall i :: 0 <= i < |r| ==> Placed(r[i], arguments[i], i == |r| - 1)
    ensures SameWords(r, arguments)
    ensures SpacedArguments(r)
    ensures Comments(Items(r[|r| - 1].trailing)) == Comments(Items(arguments[|arguments| - 1].trailing))
  {
    assert Placed(r[|r| - 1], arguments[|r| - 1], true);
  }

  /**
   * Normalised arguments keep their words and are spaced: no leading trivia,
   * one space after each but the last, and the last ends the line keeping
   * its comments.
   */
  lemma ArgumentsShape(arguments: seq<ArgumentToken>)
    requires arguments != []
    ensures var r := NormaliseArguments(arguments);
      && SameWords(r, arguments)
      && SpacedArguments(r)
      && Comments(Items(r[|r| - 1].trailing)) == Comments(Items(arguments[|arguments| - 1].trailing))
  {
    var r := NormaliseArguments(arguments);
    forall i | 0 <= i < |r|
      ensures Placed(r[i], arguments[i], i == |r| - 1)
    {
      ArgumentAt(arguments, i);
    }
    PlacedArguments(r, arguments);
  }

  /**
   * `normaliseStatementWhitespace`: the command is the first token, and the
   * last one too when there are no arguments; the last argument ends the
   * statement. A statement without arguments comes back with none.
   */
  function NormaliseStatementWhitespace(statement: CommandStatementSyntax): (r: CommandStatementSyntax)
    ensures SameWord(r.command, statement.command)
    ensures SameWords(ArgumentList(r.arguments), ArgumentList(statement.arguments))
    ensures r.arguments == None <==> NoArguments(statement)
    ensures WellSpaced(r)
    ensures Comments(Items(r.command.leading)) == Comments(Items(statement.command.leading))
    ensures var a, b := r.Tokens(), statement.Tokens();
      Comments(Items(a[|a| - 1].trailing)) == Comments(Items(b[|b| - 1].trailing))
  {
    var noArguments := NoArguments(statement);
    var command := NormaliseTokenWhitespace(statement.command, true, noArguments);
    if noArguments then CommandStatementSyntax(command, None)
    else
      ArgumentsShape(statement.arguments.value);
      CommandStatementSyntax(command, Some(NormaliseArguments(statement.arguments.value)))
  }

  /** `normaliseWhitespace`: command statements are rebuilt, others returned as they are. */
  function NormaliseWhitespace(statement: StatementSyntax, previousStatement: Option<StatementSyntax>): (r: StatementSyntax)
    ensures r.CommandStatement? == statement.CommandStatement?
    ensures statement.OtherStatement? ==> r == statement
    ensures statement.CommandStatement? ==>
      && WellSpaced(r.statement)
      && SameWord(r.statement.command, statement.statement.command)
      && SameWords(ArgumentList(r.statement.arguments), ArgumentList(statement.statement.arguments))
  {
    match statement
    case CommandStatement(s) => CommandStatement(NormaliseStatementWhitespace(s))
    case OtherStatement(_) => statement
  }

  /** No rule consults the previous statement. */
  lemma PreviousIgnored(statement: StatementSyntax, previousStatement: Option<StatementSyntax>)
    ensures NormaliseWhitespace(statement, previousStatement) == NormaliseWhitespace(statement, None)
  {
  }

  /** `Format` as a map over the statements. */
  function FormatAll(statements: seq<StatementSyntax>): seq<StatementSyntax> {
    Select(statements, statement => NormaliseWhitespace(statement, None))
  }

  /**
   * `Format`: one output per input, in order. Each statement is normalised
   * with the previously produced one at hand, and the result is the same as
   * normalising every statement with none: no rule consults it.
   */
  method Format(statements: seq<StatementSyntax>) returns (formatted: seq<StatementSyntax>)
    ensures formatted == FormatAll(statements)
  {
    var previousStatement: Option<StatementSyntax> := None;
    formatted := [];
    for i := 0 to |statements|
      invariant formatted == FormatAll(statements[..i])
    {
      var statement := NormaliseWhitespace(statements[i], previousStatement);
      PreviousIgnored(statements[i], previousStatement);
      SelectSnoc(statements, statement => NormaliseWhitespace(statement, None), i);
      previousStatement := Some(statement);
      formatted := formatted + [statement];
    }
    assert statements[..|statements|] == statements;
  }

  /**
   * What formatting promises about a run of statements: one output per
   * input, non-command statements untouched, every command statement in
   * shape with its words kept.
   */
  lemma FormatAllShape(statements: seq<StatementSyntax>)
    ensures var formatted := FormatAll(statements);
      && |formatted| == |statements|
      && (forall i :: 0 <= i < |statements| && statements[i].OtherStatement? ==> formatted[i] == statements[i])
      && (forall i :: 0 <= i < |statements| && statements[i].CommandStatement? ==>
            formatted[i].CommandStatement? && WellSpaced(formatted[i].statement)
            && SameWord(formatted[i].statement.command, statements[i].statement.command))
  {
  }

  // ---------------------------------------------------------------------------
  // Idempotence
  // ---------------------------------------------------------------------------

  /** Normalising a normalised token at the same position changes nothing. */
  lemma TokenIdempotent(token: Token, firstTokenOfStatement: bool, lastTokenOfStatement: bool)
    ensures var once := NormaliseTokenWhitespace(token, firstTokenOfStatement, lastTokenOfStatement);
      NormaliseTokenWhitespace(once, firstTokenOfStatement, lastTokenOfStatement) == once
  {
    OpenIdempotent(token.leading);
    InlineIdempotent(token.leading, None, None);
    TerminatedIdempotent(token.trailing);
    InlineIdempotent(token.trailing, Some(Space), Some(Space));
  }

  /** Normalising normalised arguments changes nothing. */
  lemma ArgumentsIdempotent(arguments: seq<ArgumentToken>)
    requires arguments != []
    ensures NormaliseArguments(NormaliseArguments(arguments)) == NormaliseArguments(arguments)
  {
    var once := NormaliseArguments(arguments);
    forall i | 0 <= i < |once|
      ensures NormaliseTokenWhitespace(once[i], false, i == |once| - 1) == once[i]
    {
      TokenIdempotent(arguments[i], false, i == |arguments| - 1);
    }
  }

  /** Formatting a formatted command statement changes nothing. */
  lemma StatementIdempotent(statement: CommandStatementSyntax)
    ensures var once := NormaliseStatementWhitespace(statement);
      NormaliseStatementWhitespace(once) == once
  {
    var noArguments := NoArguments(statement);
    TokenIdempotent(statement.command, true, noArguments);
    if !noArguments {
      ArgumentsIdempotent(statement.arguments.value);
    }
  }

  /** Formatting a formatted sequence of statements changes nothing. */
  lemma FormatIdempotent(statements: seq<StatementSyntax>)
    ensures FormatAll(FormatAll(statements)) == FormatAll(statements)
  {
    var once := FormatAll(statements);
    forall i | 0 <= i < |once|
      ensures NormaliseWhitespace(once[i], None) == once[i]
    {
      if statements[i].CommandStatement? {
        StatementIdempotent(statements[i].statement);
      }
    }
  }
}
