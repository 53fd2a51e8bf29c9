/**
 * Tokens: a command word or an argument, with its leading and trailing trivia
 * (GCode/Tokens/Token.cs). Tokens are immutable; `With*Trivia` builds a copy.
 */
module Tokens {
  import opened Wrappers
  import opened Trivias

  /**
   * The two concrete token records. `text` stands for the kind-specific
   * `Text` property; absent trivia (the constructor's default) is `None`.
   */
  datatype Token =
    | Command(text: string, leading: Option<seq<Trivia>>, trailing: Option<seq<Trivia>>)
    | Argument(text: string, leading: Option<seq<Trivia>>, trailing: Option<seq<Trivia>>)
  {
    /** The token's exact text: leading trivia, then its text, then trailing trivia. */
    function FullText(): string {
      Render(leading) + text + Render(trailing)
    }

    /** A copy of the same kind with only its leading trivia replaced. */
    function WithLeadingTrivia(trivia: Option<seq<Trivia>>): (r: Token)
      ensures r.Command? == Command? && r.text == text && r.trailing == trailing
      ensures r.leading == trivia
    {
      this.(leading := trivia)
    }

    /** A copy of the same kind with only its trailing trivia replaced. */
    function WithTrailingTrivia(trivia: Option<seq<Trivia>>): (r: Token)
      ensures r.Command? == Command? && r.text == text && r.leading == leading
      ensures r.trailing == trivia
    {
      this.(trailing := trivia)
    }
  }

  type CommandToken = t: Token | t.Command? witness Command("", None, None)

  type ArgumentToken = t: Token | t.Argument? witness Argument("", None, None)

  /** A token without trivia renders as its bare text. */
  lemma BareFullText(t: Token)
    requires t.leading == None && t.trailing == None
    ensures t.FullText() == t.text
  {
  }

  /**
   * The full text is as long as its three parts, and the token's own text
   * sits at the offset of the rendered leading trivia.
   */
  lemma FullTextLayout(t: Token)
    ensures var lead := Render(t.leading);
      && |t.FullText()| == |lead| + |t.text| + |Render(t.trailing)|
      && t.FullText()[..|lead|] == lead
      && t.FullText()[|lead|..|lead| + |t.text|] == t.text
      && t.FullText()[|lead| + |t.text|..] == Render(t.trailing)
  {
  }

  /** Replacing the leading trivia changes only the first part of the full text. */
  lemma WithLeadingTriviaText(t: Token, trivia: Option<seq<Trivia>>)
    ensures t.WithLeadingTrivia(trivia).FullText() == Render(trivia) + t.text + Render(t.trailing)
  {
  }

  /** Replacing the trailing trivia changes only the last part of the full text. */
  lemma WithTrailingTriviaText(t: Token, trivia: Option<seq<Trivia>>)
    ensures t.WithTrailingTrivia(trivia).FullText() == Render(t.leading) + t.text + Render(trivia)
  {
  }
}
