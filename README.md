# G-code trivia normaliser

A Dafny model of the whitespace formatter of a lossless G-code syntax tree.
Every command statement is rebuilt token by token. The "trivia" around each
token (spaces, line breaks, `;` comments) is normalised under rules that
depend on the token's position:

- the command's leading trivia keeps its comments and line breaks;
- the leading trivia of every other token is dropped;
- the trivia after the last token ends the line;
- between tokens there is exactly one space.

The model covers:

- the formatter's `Format`, `normaliseWhitespace`,
  `normaliseStatementWhitespace`, `normaliseTokenWhitespace` and
  `normaliseTrivia`;
- the immutable `Token` and `CommandStatementSyntax` records;
- the writer-side `ToFullText`.

Modules, one per file:

- `Trivias` (trivias.dfy): the trivia items and their rendering.
- `Tokens` (tokens.dfy): the token records and their full text.
- `Statements` (statements.dfy): the command statement, its token list and
  `ToFullText`.
- `Extensions` (extensions.dfy): the list helpers the formatter uses (`Join`,
  `Split`, `Select`, `SelectMany`), with their laws.
- `TriviaNormaliser` (normaliser.dfy): `normaliseTrivia`. Each of its steps is
  a function, and `Normalised` composes them. `NormaliseTrivia` is the
  imperative version: a local list edited by three backward loops, proved
  equal to `Normalised`.
- `TriviaLaws` (normaliser_laws.dfy): what the normaliser promises:
  - the `Split`/`Join` spacing agrees with an independent reference;
  - survivors keep their order, and comments keep their text;
  - no space touches a line break;
  - each of the four positional calls has a closed normal form;
  - normalising twice changes nothing.
- `Formatter` (formatter.dfy): the positional rules, the statement rebuild,
  and `Format` as a loop threading the previous statement. Token, statement
  and whole-run idempotence are proved here.

Points where the code's behaviour may surprise a reader, or contradicts its
own comments. The model follows the code in each case.

- The prefix is inserted only into a non-empty list, while the suffix is also
  appended to an empty one. Empty trivia after the last token therefore becomes
  a lone line break with no space in front.
- When the surviving trailing trivia starts with a line break, the space
  prefix is inserted and then removed by the first cleanup loop. The last
  token is then followed directly by the line break.
- The cleanup loops are commented "SHOULD NOT HAPPEN". They are reachable:
  `TriviaLaws.CleanupReachable` exhibits the input `[EndOfLine]`.
- The comment above the repair loop (GCode/GCodeFormatter.cs, lines 70-74)
  says every comment must be followed by a line break, but the loop starts
  at the last-but-one item, and the command's leading trivia gets no suffix
  (line 47). A comment that ends the leading trivia therefore stays open,
  and the command word is written inside it: `TriviaLaws.OpenCommentStaysOpen`
  and `Formatter.OpenCommentSwallowsCommand` exhibit `; xG28` on one line.
- Given only the three trivia kinds, the spacing rebuild (GCode/GCodeFormatter.cs, lines 76-90) adds
  nothing after
  filtering and comment repair. The survivors are line breaks and comments,
  and no two of them that are not line breaks are neighbours
  (`TriviaLaws.Survivors`). The only spaces in a result are the prefix and
  the suffix (`TriviaLaws.NormalisedAddsOnly`).

## Model

| member | source | states |
|---|---|---|
| `Trivias.Render` | GCode/Tokens/Token.cs:5-8 | absent trivia (the records' default) renders as the empty string |
| `Trivias.RenderAllAppend` | GCode/Tokens/Token.cs:8 | rendering a concatenation of trivia is the concatenation of the renderings |
| `Tokens.Token.FullText` | GCode/Tokens/Token.cs:8 | leading trivia rendered, then the text, then trailing trivia rendered; its layout is stated by `Tokens.FullTextLayout` and the two `With*TriviaText` lemmas |
| `Tokens.Token.WithLeadingTrivia` | GCode/Tokens/Token.cs:10 | the copy keeps the token's kind, its text and its trailing trivia, and carries the given leading trivia |
| `Tokens.Token.WithTrailingTrivia` | GCode/Tokens/Token.cs:11 | the copy keeps the token's kind, its text and its leading trivia, and carries the given trailing trivia |
| `Tokens.BareFullText` | GCode/Tokens/Token.cs:5-8 | a token with absent leading and trailing trivia has its bare text as full text |
| `Tokens.FullTextLayout` | GCode/Tokens/Token.cs:7-8 | full-text length is the sum of the three parts; the leading rendering, the text and the trailing rendering sit at consecutive offsets |
| `Tokens.WithLeadingTriviaText` | GCode/Tokens/Token.cs:8-10 | replacing the leading trivia changes only the first part of the full text |
| `Tokens.WithTrailingTriviaText` | GCode/Tokens/Token.cs:8-11 | replacing the trailing trivia changes only the last part of the full text |
| `Statements.CommandStatementSyntax.Tokens` | GCode/Statements/CommandStatementSyntax.cs:7-11 | the command is the first token, followed by the arguments in order; an absent array counts as none, so there are 1 + n tokens |
| `Statements.ArgumentList` | GCode/Statements/CommandStatementSyntax.cs:9 | an absent argument array read as the empty list; its use is stated by `Statements.CommandStatementSyntax.Tokens` |
| `Statements.LastWithTrailingTrivia` | GCode/Statements/CommandStatementSyntax.cs:16 | same length; every argument but the last unchanged; the last gets the given trailing trivia |
| `Statements.CommandStatementSyntax.WithLeadingTrivia` | GCode/Statements/CommandStatementSyntax.cs:13 | the arguments pass through; the token list differs only in the first token's leading trivia |
| `Statements.CommandStatementSyntax.WithTrailingTrivia` | GCode/Statements/CommandStatementSyntax.cs:14-18 | with arguments, the command is unchanged and an array is kept; without (absent or empty), the array becomes absent; either way only the last token's trailing trivia changes |
| `Statements.ToFullText` | GCode/Statements/StatementSyntaxExtensions.cs:5 | no statements give the empty string |
| `Statements.ToFullTextAppend` | GCode/Statements/StatementSyntaxExtensions.cs:5 | writing `a + b` is writing `a` then `b` |
| `Statements.ToFullTextLength` | GCode/Statements/StatementSyntaxExtensions.cs:5 | the written length is the sum of the statements' full-text lengths |
| `Statements.ToFullTextSlice` | GCode/Statements/StatementSyntaxExtensions.cs:5 | each statement's full text appears, in order, at the offset of the texts before it |
| `Extensions.Join` | GCode/GCodeFormatter.cs:80-81 | joining n > 0 items gives 2n - 1 items, none gives none |
| `Extensions.JoinAt` | GCode/GCodeFormatter.cs:87-89 | items stand at even indices in order, the separator at every odd index |
| `Extensions.Select` | GCode/GCodeFormatter.cs:80 | one output per input, each the image of the input at that index |
| `Extensions.Flatten` | GCode/GCodeFormatter.cs:82 | `SelectMany(t => t)`: the parts concatenated in order; with `Join` and `Split` it completes the round trip of `Extensions.SplitRoundTrip` |
| `Extensions.Split` | GCode/GCodeFormatter.cs:79 | splitting always yields at least one run |
| `Extensions.SplitParts` | GCode/GCodeFormatter.cs:79 | n separators give n + 1 runs, and no run holds a separator |
| `Extensions.SplitRoundTrip` | GCode/GCodeFormatter.cs:79-83 | splitting, joining with the separator and flattening gives the input back |
| `TriviaNormaliser.Filtered` | GCode/GCodeFormatter.cs:66-68 | the filter never lengthens the list |
| `TriviaNormaliser.FilteredItems` | GCode/GCodeFormatter.cs:61-68 | no whitespace or excluded item is left, and an item is kept exactly when it is an input item that is neither |
| `TriviaNormaliser.Repaired` | GCode/GCodeFormatter.cs:70-74 | the repair keeps the first and the last item |
| `TriviaNormaliser.RepairedTerminates` | GCode/GCodeFormatter.cs:70-74 | after the repair every comment but a final one is followed by a line break; no whitespace is introduced |
| `TriviaNormaliser.SpacedLines` | GCode/GCodeFormatter.cs:80 | every line joined with one space, as a `Select`; its meaning is stated through `TriviaLaws.LinesIsSpread` |
| `TriviaNormaliser.Lines` | GCode/GCodeFormatter.cs:79-83 | the line-by-line rebuild: split at line breaks, space each line, join with line breaks, flatten; meaning stated by `TriviaLaws.LinesIsSpread` |
| `TriviaNormaliser.Spaced` | GCode/GCodeFormatter.cs:77-90 | both branches of the spacing step; meaning stated by `TriviaLaws.SpacedIsSpread` and `TriviaLaws.Survivors` |
| `TriviaNormaliser.Spread` | GCode/GCodeFormatter.cs:76-90 | reference spacing: keeps the first and the last item |
| `TriviaNormaliser.SpreadTidy` | GCode/GCodeFormatter.cs:76-90 | spreading whitespace-free items never puts a space next to a space or a line break |
| `TriviaNormaliser.WithPrefix` | GCode/GCodeFormatter.cs:92 | the list changes exactly when a prefix is given, the list is non-empty and its first item differs; the only change is the prefix in front |
| `TriviaNormaliser.WithSuffix` | GCode/GCodeFormatter.cs:93 | the list changes exactly when a suffix is given and the list is empty or its last item differs; the only change is the suffix at the end, which is then last |
| `TriviaNormaliser.DropSpaceBeforeBreak` | GCode/GCodeFormatter.cs:95-99 | the first item stays, unless it is a space that a line break now replaces |
| `TriviaNormaliser.DropSpaceBeforeBreakTidy` | GCode/GCodeFormatter.cs:95-99 | afterwards no space precedes a line break; nothing is added; no double space appears; a clean list is unchanged |
| `TriviaNormaliser.DropSpaceAfterBreak` | GCode/GCodeFormatter.cs:101-105 | the first item stays |
| `TriviaNormaliser.DropSpaceAfterBreakTidy` | GCode/GCodeFormatter.cs:101-105 | nothing is added; on a list with no double space and no space before a break, no space touches a break afterwards; a clean list is unchanged |
| `TriviaNormaliser.AsNullable` | GCode/GCodeFormatter.cs:107 | the items are kept and an empty result is absent, never an empty array |
| `TriviaNormaliser.Normalised` | GCode/GCodeFormatter.cs:59-108 | the steps composed in the source's order; never an empty array; its laws are `TriviaLaws.NormalisedTidy`, `NormalisedAddsOnly`, `NormalisedKeepsOrder`, `NormalisedKeepsComments` and the normal forms |
| `TriviaNormaliser.TerminateComments` | GCode/GCodeFormatter.cs:70-74 | the backward insertion loop computes exactly `Repaired` of the filtered list |
| `TriviaNormaliser.RemoveSpacesBeforeBreaks` | GCode/GCodeFormatter.cs:95-99 | the first backward cleanup loop computes exactly `DropSpaceBeforeBreak` |
| `TriviaNormaliser.RemoveSpacesAfterBreaks` | GCode/GCodeFormatter.cs:101-105 | the second backward cleanup loop computes exactly `DropSpaceAfterBreak` |
| `TriviaNormaliser.NormaliseTrivia` | GCode/GCodeFormatter.cs:59-108 | the imperative normaliser returns the composition of the specified steps |
| `TriviaLaws.JoinIsSpread` | GCode/GCodeFormatter.cs:85-90 | without line breaks, joining with one space is the reference spacing |
| `TriviaLaws.LinesIsSpread` | GCode/GCodeFormatter.cs:77-84 | the split-join-flatten rebuild is the reference spacing |
| `TriviaLaws.SpacedIsSpread` | GCode/GCodeFormatter.cs:76-90 | both branches of the spacing step agree with the reference |
| `TriviaLaws.FilteredKeepsClean` | GCode/GCodeFormatter.cs:61-68 | a list with nothing to drop passes the filter unchanged |
| `TriviaLaws.FilteredInline` | GCode/GCodeFormatter.cs:48 | with line breaks and comments excluded, nothing survives the filter |
| `TriviaLaws.RepairedKeepsTerminated` | GCode/GCodeFormatter.cs:70-74 | a list whose comments are all closed is unchanged by the repair |
| `TriviaLaws.Survivors` | GCode/GCodeFormatter.cs:61-90 | after filter and repair: no whitespace, every comment but a final one followed by a line break, and the spacing step changes nothing |
| `TriviaLaws.Terminated` | GCode/GCodeFormatter.cs:93 | the result is non-empty and ends in a line break |
| `TriviaLaws.LineEnd` | GCode/GCodeFormatter.cs:51 | the last token's trailing shape: non-empty, ends in a line break, starts with a space or a line break |
| `TriviaLaws.OpenNormalForm` | GCode/GCodeFormatter.cs:47 | with no prefix, suffix or exclusion, the result is the repaired survivors, absent when there are none |
| `TriviaLaws.InlineNormalForm` | GCode/GCodeFormatter.cs:48-52 | with line breaks and comments excluded, the result is exactly the suffix, or absent when there is none |
| `TriviaLaws.TerminatedNormalForm` | GCode/GCodeFormatter.cs:51 | space prefix and line-break suffix give the survivors closed by a line break, after one space unless they start with a line break |
| `TriviaLaws.OpenIdempotent` | GCode/GCodeFormatter.cs:47 | normalising the first token's leading trivia twice equals normalising it once |
| `TriviaLaws.InlineIdempotent` | GCode/GCodeFormatter.cs:48-52 | normalising inner trivia twice equals normalising it once |
| `TriviaLaws.TerminatedIdempotent` | GCode/GCodeFormatter.cs:51 | normalising the last token's trailing trivia twice equals normalising it once |
| `TriviaLaws.NormalisedTidy` | GCode/GCodeFormatter.cs:95-107 | for every input and every prefix, suffix and exclusion set, no space stands directly before or after a line break in the result |
| `TriviaLaws.CleanupReachable` | GCode/GCodeFormatter.cs:92-99 | trailing `[EndOfLine]` of a last token reaches the cleanup as `[space, line break]` and comes out as `[EndOfLine]` |
| `TriviaLaws.OpenCommentStaysOpen` | GCode/GCodeFormatter.cs:70-74 | a lone comment with no prefix and no suffix comes out unchanged: the repair never looks at the last item, so the comment stays open |
| `TriviaLaws.NormalisedAddsOnly` | GCode/GCodeFormatter.cs:61-93 | every result item is a surviving input item, a line break, the prefix or the suffix |
| `TriviaLaws.RepairedKeepsOrder` | GCode/GCodeFormatter.cs:70-74 | the input is a subsequence of its repair |
| `TriviaLaws.DropSpaceBeforeBreakKeepsOrder` | GCode/GCodeFormatter.cs:95-99 | every whitespace-free subsequence survives the first cleanup |
| `TriviaLaws.DropSpaceAfterBreakKeepsOrder` | GCode/GCodeFormatter.cs:101-105 | every whitespace-free subsequence survives the second cleanup |
| `TriviaLaws.NormalisedKeepsOrder` | GCode/GCodeFormatter.cs:59-108 | the surviving input items appear in the result in their original order |
| `TriviaLaws.CommentsFiltered` | GCode/GCodeFormatter.cs:63-68 | the filter keeps every comment text in order, or none when comments are excluded |
| `TriviaLaws.CommentsRepaired` | GCode/GCodeFormatter.cs:70-74 | the repair keeps the comment texts |
| `TriviaLaws.NormalisedKeepsComments` | GCode/GCodeFormatter.cs:59-108 | with a prefix and suffix that are not comments, the result's comment texts are the input's, or none when comments are excluded |
| `Formatter.OpeningTrivia` | GCode/GCodeFormatter.cs:46-47 | the command's leading trivia: the repaired survivors, with no whitespace, every comment but a final one followed by a line break, never an empty array; comments kept and survivors in order |
| `Formatter.InnerLeadingTrivia` | GCode/GCodeFormatter.cs:48 | the leading trivia of a non-first token is always absent |
| `Formatter.ClosingTrivia` | GCode/GCodeFormatter.cs:50-51 | the last token's trailing trivia is the line-end form of the survivors; it ends the line, starts with a space or a break, keeps the comments, and every comment in it but a final one is followed by a line break |
| `Formatter.InnerTrailingTrivia` | GCode/GCodeFormatter.cs:52 | the trailing trivia of a non-last token is always exactly one single-width space |
| `Formatter.NormaliseTokenWhitespace` | GCode/GCodeFormatter.cs:44-57 | kind and text kept; first position: no whitespace and every comment but a final one followed by a line break, comments kept, else no leading trivia; last position: ends the line with comments kept and closed, else one space |
| `Formatter.NormaliseArguments` | GCode/GCodeFormatter.cs:38-40 | one normalised argument per input argument |
| `Formatter.ArgumentsShape` | GCode/GCodeFormatter.cs:38-41 | arguments keep kind and text in order; none has leading trivia; each but the last is followed by one space; the last ends the line keeping its comments |
| `Formatter.OpenCommentSwallowsCommand` | GCode/GCodeFormatter.cs:44-57 | a command whose leading trivia ends in a comment keeps that comment open, and its full text is `; xG28` followed by the line break |
| `Formatter.NoArguments` | GCode/GCodeFormatter.cs:33 | an absent or empty argument array; `Formatter.NormaliseStatementWhitespace` states that exactly these statements come back with no array |
| `Formatter.NormaliseStatementWhitespace` | GCode/GCodeFormatter.cs:31-42 | command and argument words kept; arguments absent exactly when they were absent or empty; the statement is well spaced; the command's leading comments and the last token's trailing comments are kept |
| `Formatter.NormaliseWhitespace` | GCode/GCodeFormatter.cs:25-29 | command statements stay command statements, well spaced with their words kept; every other statement is returned unchanged |
| `Formatter.PreviousIgnored` | GCode/GCodeFormatter.cs:20-29 | the result does not depend on the previous statement |
| `Formatter.FormatAll` | GCode/GCodeFormatter.cs:15-23 | every statement normalised on its own, as a `Select`; `Formatter.Format` is proved to compute it and `Formatter.FormatAllShape` states its meaning |
| `Formatter.Format` | GCode/GCodeFormatter.cs:15-23 | the loop threading the previous statement yields the same as normalising every statement on its own |
| `Formatter.FormatAllShape` | GCode/GCodeFormatter.cs:15-29 | one output per input in order; non-command statements unchanged; command statements well spaced with their command kept |
| `Formatter.TokenIdempotent` | GCode/GCodeFormatter.cs:44-57 | re-normalising a normalised token at the same position changes nothing |
| `Formatter.ArgumentsIdempotent` | GCode/GCodeFormatter.cs:38-40 | re-normalising normalised arguments changes nothing |
| `Formatter.StatementIdempotent` | GCode/GCodeFormatter.cs:31-42 | re-normalising a normalised command statement changes nothing |
| `Formatter.FormatIdempotent` | GCode/GCodeFormatter.cs:15-23 | formatting formatted statements changes nothing |

## Left out

- Laziness: `Format` yields its results on demand. Here it builds the whole sequence; the order and the values are the same.
- The formatter's `Default` singleton and its `NormaliseWhiteSpace`/`RemoveAllComments` flags: they are settable but never read, and they are not modelled.
- Runtime type tests: `typeof` exclusion sets become a set of `Kind` values, and `is` tests become constructor tests. The downcasts to `CommandToken`/`ArgumentToken` become subset types kept by the `With*` copies.
- Null entries in an argument array (`WhereNotNull`): array elements are non-null tokens here, so the filter is the identity.
- The trivia classes are not part of this model. A trivia item is one of three kinds: whitespace of a width, a line break, and a comment with its text. A line break renders as `"\n"`, a comment as `;` followed by its text, and whitespace as that many spaces. No other trivia kind is modelled.
- The shared extension library is not part of this model. `Join` is intersperse; `Split` keeps empty runs; `ToText` renders an absent array as the empty string; the array `WithTrailingTrivia` rewrites the last element.
- `StatementSyntax`: the abstract base record is not part of this model. Statements other than command statements are one variant carrying their tokens.
- The lexer, the parser, the writer and all file or console I/O.
- Formatter.NormaliseArguments: its own contract states only the length. The shape of the result is stated by `Formatter.ArgumentsShape`.
- TriviaNormaliser.Filtered: its own contract states only the length bound. What it keeps is stated by `TriviaNormaliser.FilteredItems`.
- Extensions.Split: its own contract states only that there is a run. The count and content of the runs are stated by `Extensions.SplitParts` and `Extensions.SplitRoundTrip`.
- TriviaNormaliser.Repaired: its own contract states only the ends. The repair's effect is stated by `TriviaNormaliser.RepairedTerminates`, `TriviaLaws.RepairedKeepsOrder` and `TriviaLaws.CommentsRepaired`.
