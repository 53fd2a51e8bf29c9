/**
 * Statements: an ordered group of tokens forming one instruction line
 * (GCode/Statements/CommandStatementSyntax.cs,
 * GCode/Statements/StatementSyntaxExtensions.cs). The abstract base record
 * `StatementSyntax` is not part of this model; its token list and `FullText`
 * follow how the command statement's constructor feeds it.
 */
module Statements {
  import opened Wrappers
  import opened Trivias
  import opened Tokens

  /** The tokens' full texts one after the other. */
  function TokensText(tokens: seq<Token>): string {
    if tokens == [] then "" else tokens[0].FullText() + TokensText(tokens[1..])
  }

  /** `Arguments ?? Enumerable.Empty<ArgumentToken>()`. */
  function ArgumentList(arguments: Option<seq<ArgumentToken>>): seq<ArgumentToken> {
    if arguments.Some? then arguments.value else []
  }

  /**
   * The argument-array helper `WithTrailingTrivia`: it rewrites the trailing
   * trivia of the last argument (the helper is not part of this model).
   */
  function LastWithTrailingTrivia(arguments: seq<ArgumentToken>, trivia: Option<seq<Trivia>>): (r: seq<ArgumentToken>)
    ensures |r| == |arguments|
    ensures |arguments| > 0 ==> r[..|r| - 1] == arguments[..|arguments| - 1]
    ensures |arguments| > 0 ==> r[|r| - 1] == arguments[|arguments| - 1].WithTrailingTrivia(trivia)
  {
    if arguments == [] then []
    else arguments[..|arguments| - 1] + [arguments[|arguments| - 1].WithTrailingTrivia(trivia)]
  }

  /** A command word with its optional argument array. */
  datatype CommandStatementSyntax = CommandStatementSyntax(command: CommandToken, arguments: Option<seq<ArgumentToken>>)
  {
    /**
     * The token list handed to the base record: the command, then the
     * arguments in order; an absent array counts as none.
     */
    function Tokens(): (r: seq<Token>)
      ensures |r| == 1 + |ArgumentList(arguments)|
      ensures r[0] == command
      ensures r[1..] == ArgumentList(arguments)
    {
      [command] + ArgumentList(arguments)
    }

    function FullText(): string {
      TokensText(Tokens())
    }

    /** Rewrites the leading trivia of the first token (the command) only. */
    function WithLeadingTrivia(trivia: Option<seq<Trivia>>): (r: CommandStatementSyntax)
      ensures r.arguments == arguments
      ensures r.Tokens() == [Tokens()[0].WithLeadingTrivia(trivia)] + Tokens()[1..]
    {
      CommandStatementSyntax(command.WithLeadingTrivia(trivia), arguments)
    }

    /**
     * Rewrites the trailing trivia of the last token only: the last argument
     * when there is one, else the command, and then the argument array is
     * dropped.
     */
    function WithTrailingTrivia(trivia: Option<seq<Trivia>>): (r: CommandStatementSyntax)
      ensures |ArgumentList(arguments)| > 0 ==> r.command == command && r.arguments.Some?
      ensures |ArgumentList(arguments)| == 0 ==> r.arguments == None
      ensures var n := |Tokens()|;
        r.Tokens() == Tokens()[..n - 1] + [Tokens()[n - 1].WithTrailingTrivia(trivia)]
    {
      if arguments.Some? && |arguments.value| > 0 then
        CommandStatementSyntax(command, Some(LastWithTrailingTrivia(arguments.value, trivia)))
      else
        CommandStatementSyntax(command.WithTrailingTrivia(trivia), None)
    }
  }

  /** Command statements and every other statement kind. */
  datatype StatementSyntax =
    | CommandStatement(statement: CommandStatementSyntax)
    | OtherStatement(otherTokens: seq<Token>)
  {
    function Tokens(): seq<Token> {
      match this
      case CommandStatement(s) => s.Tokens()
      case OtherStatement(ts) => ts
    }

    function FullText(): string {
      TokensText(Tokens())
    }
  }

  /** `ToFullText`: the statements' full texts joined with no separator. */
  function ToFullText(statements: seq<StatementSyntax>): (r: string)
    ensures statements == [] ==> r == ""
  {
    if statements == [] then "" else statements[0].FullText() + ToFullText(statements[1..])
  }

  /** Writing two runs of statements is writing one after the other. */
  lemma {:induction false} ToFullTextAppend(a: seq<StatementSyntax>, b: seq<StatementSyntax>)
    ensures ToFullText(a + b) == ToFullText(a) + ToFullText(b)
  {
    if a == [] {
      assert a + b == b;
    } else {
      assert (a + b)[1..] == a[1..] + b;
      ToFullTextAppend(a[1..], b);
    }
  }

  function SumOfLengths(statements: seq<StatementSyntax>): nat {
    if statements == [] then 0 else |statements[0].FullText()| + SumOfLengths(statements[1..])
  }

  /** The written text is exactly as long as the statements' texts together. */
  lemma {:induction false} ToFullTextLength(statements: seq<StatementSyntax>)
    ensures |ToFullText(statements)| == SumOfLengths(statements)
  {
    if statements != [] {
      ToFullTextLength(statements[1..]);
    }
  }

  /** Each statement's text appears, in order, at the offset of the texts before it. */
  lemma {:induction false} ToFullTextSlice(statements: seq<StatementSyntax>, i: nat)
    requires i < |statements|
    ensures var start := |ToFullText(statements[..i])|;
      start + |statements[i].FullText()| <= |ToFullText(statements)|
      && ToFullText(statements)[start..start + |statements[i].FullText()|] == statements[i].FullText()
  {
    assert statements == statements[..i] + ([statements[i]] + statements[i + 1..]);
    ToFullTextAppend(statements[..i], [statements[i]] + statements[i + 1..]);
    assert ([statements[i]] + statements[i + 1..])[1..] == statements[i + 1..];
  }
}
