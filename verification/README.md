# renderContent, modelled in Dafny

This project models `renderContent`. It is the function of the documentation site that turns a Markdown page containing Liquid tags into the HTML that is served.

The function runs these steps in order:

1. It deletes the LF directly before each `<!--`.
2. It removes the comments.
3. It runs the Liquid engine.
4. It applies three textual rewrites:
   - Shell code blocks are replaced by a copyable snippet.
   - Blank lines between the items of a table-of-contents list are removed.
   - Runs of three line breaks become two newlines.
5. It runs the Markdown processor.
6. It post-processes the HTML:
   - It removes the newlines around inline tags inside table cells.
   - It applies the caller's options: text only, an XML document, or entity encoding.
7. It trims the result.

Each of the five textual rewrites (lines 26, 33, 43, 48 and 83) is a JavaScript global `replace` with a regular expression. Each is modelled as an explicit scanner that follows JavaScript's rules:

- a match is searched at each position from the left;
- alternatives are tried in order;
- greedy quantifiers try the longest run first and lazy quantifiers the shortest, with backtracking;
- matches do not overlap, and the search resumes just after a match.

Lemmas then characterise what each scanner matches and what the rewrite does to the text.

The libraries that the pipeline calls are parameters of the model. These are the comment stripper, the Liquid engine, the Markdown processor, the HTML parser and the entity encoder. The pipeline method records which calls it makes, in order, each with its input. Its contract states:

- when each call happens;
- in which order the calls happen;
- what each call is given;
- what the caller gets back.

Modules:

- `Text`: JavaScript's character classes and helper facts.
  - `\s` and the line terminators;
  - `\r?\n`;
  - `String.prototype.trim`;
  - "erased": one string is another with only certain characters deleted.
- `CommentPrePass`: `template.replace(/\n<!--/g, '<!--')`.
- `ShellSnippet`: the shell code block rewrite.
- `TocLists`: the blank-line clean-up in TOC lists, `blankLineInList`.
- `BlankLines`: `replace(/(\r?\n){3}/g, '\n\n')`.
- `InlineTags`: `inlineTagRegex` with the `'$1'` replacement, applied to table cells.
- `ContentRenderer`: the pipeline.

## Model

| member | source | states |
|---|---|---|
| Text.LineBreakSlice | lib/render-content/renderContent.js:48 | the text of a line break found at a position is LF or CR LF |
| Text.LineBreakAt | lib/render-content/renderContent.js:48 | `\r?\n` at a position is an LF (length 1), a CR LF (length 2), or absent (0), and 0 only when neither literal starts there |
| Text.Trim | lib/render-content/renderContent.js:67 | the result of `trim` neither starts nor ends with whitespace |
| Text.TrimCutsOnlyWhitespace | lib/render-content/renderContent.js:67 | the trimmed text is a contiguous piece of the input, and everything cut before and after it is whitespace |
| Text.TrimIdempotent | lib/render-content/renderContent.js:58-67 | trimming trimmed text changes nothing, so the second `trim` of a text-only result has no effect |
| CommentPrePass.JoinCommentLines | lib/render-content/renderContent.js:26 | the global replace of `\n<!--` by `<!--` never lengthens the text; `JoinDeletesOnlyNewlines`, `JoinShortensByOccurrences` and `JoinKeepsCommentOpeners` state what it deletes |
| CommentPrePass.JoinCopiesNonNewline | lib/render-content/renderContent.js:26 | a first character other than an LF is copied and the scan goes on after it |
| CommentPrePass.JoinCopiesNewlineFreePrefix | lib/render-content/renderContent.js:26 | text without a newline is copied unchanged before the rewrite of whatever follows it |
| CommentPrePass.JoinKeepsLeadingLiteral | lib/render-content/renderContent.js:26 | a literal without newline or `<` starts the output exactly when it starts the input |
| CommentPrePass.JoinDeletesOnlyNewlines | lib/render-content/renderContent.js:26 | the output is the input with some LF characters deleted and nothing else changed |
| CommentPrePass.JoinShortensByOccurrences | lib/render-content/renderContent.js:26 | exactly one character is removed for each non-overlapping `\n<!--` of the input |
| CommentPrePass.JoinKeepsCommentOpeners | lib/render-content/renderContent.js:24-26 | the number of `<!--` openers is the same before and after, so no comment is lost or created for the stripper |
| CommentPrePass.JoinWithoutMatchIsIdentity | lib/render-content/renderContent.js:26 | text without `\n<!--` is left unchanged |
| CommentPrePass.BlankLineBeforeCommentKeepsOneNewline | lib/render-content/renderContent.js:24-26 | a blank line before a comment keeps one of its two newlines |
| CommentPrePass.CommentJoinsPrecedingLine | lib/render-content/renderContent.js:24-26 | the LF directly before a `<!--` on its own line is deleted, so the comment ends up at the end of the line before |
| ShellSnippet.MatchShellSnippet | lib/render-content/renderContent.js:33 | a match lies inside the text, and its capture is non-empty and ends before the closing fence; `MatchShellSnippetShape` and `MatchWhenClosed` state what it matches and that it always matches a closed block |
| ShellSnippet.RenderShellSnippets | lib/render-content/renderContent.js:32-35 | text without a backtick is left unchanged; `ShellBlockRendered` states how a shell block is rewritten and `ShellSnippetWithoutHeaderIsIdentity` that text without a header is left unchanged |
| ShellSnippet.FenceAtIsLiteral | lib/render-content/renderContent.js:33 | the index-based fence test holds exactly where the literal three backticks start |
| ShellSnippet.HeaderLength | lib/render-content/renderContent.js:33 | a header is found exactly when the text starts with "```shell" or "``` shell" followed by `\r?\n`, and then the header is exactly one of the four spellings "```shell\n", "```shell\r\n", "``` shell\n" and "``` shell\r\n" |
| ShellSnippet.HeaderSpellings | lib/render-content/renderContent.js:33 | either tag followed by either line break is one of the four spellings of the opening line |
| ShellSnippet.FirstNonWhitespace | lib/render-content/renderContent.js:33 | the lazy `\s*?` followed by `\S` stops at the first non-whitespace character, with only whitespace before it, and fails when only whitespace remains |
| ShellSnippet.FenceOnLine | lib/render-content/renderContent.js:33 | `.*?```` finds the first three backticks that can be reached without crossing a line terminator, and there is none when it fails |
| ShellSnippet.CloseFrom | lib/render-content/renderContent.js:33 | the lazy capture ends at the first position where a line break is followed by a line holding three backticks, and nowhere earlier |
| ShellSnippet.MatchShellSnippetShape | lib/render-content/renderContent.js:33 | a match consists of a header, whitespace, a capture that starts with a non-whitespace character and runs to the first closing line, then the text of that line up to and including its first three backticks, with no three backticks earlier on that line |
| ShellSnippet.FirstNonWhitespaceUnique | lib/render-content/renderContent.js:33 | the position after a whitespace run that holds a non-whitespace character is the one the lazy search finds |
| ShellSnippet.MatchWhenClosed | lib/render-content/renderContent.js:33 | a header, optional whitespace, code and a later closing line always produce a match, whose capture starts at the first non-whitespace character and ends no later than that closing line |
| ShellSnippet.ShellSnippetWithoutHeaderIsIdentity | lib/render-content/renderContent.js:32-35 | text without "```shell" or "``` shell" is left unchanged |
| ShellSnippet.ShellSnippetCopiesPlainPrefix | lib/render-content/renderContent.js:32-35 | text without a backtick is copied unchanged, in order, before the rewrite of what follows it |
| ShellSnippet.NoFenceBeforeBreak | lib/render-content/renderContent.js:33 | the closing `.*?```` fails when a line terminator comes before any three backticks |
| ShellSnippet.FenceAfterPlainText | lib/render-content/renderContent.js:33 | the closing `.*?```` skips text free of line terminators and backticks and stops at the first three backticks |
| ShellSnippet.NoCloseInsideCode | lib/render-content/renderContent.js:33 | code lines without three backticks cannot end the capture |
| ShellSnippet.ShellHeader | lib/render-content/renderContent.js:33 | "```shell" and an LF make a header of nine characters |
| ShellSnippet.ShellBlockMatch | lib/render-content/renderContent.js:33 | a block with a "```shell" line, code without backtick fences, and a closing line is matched from the first code character to the LF before the closing line, and the match ends after the closing fence |
| ShellSnippet.MatchFromParts | lib/render-content/renderContent.js:33 | the three searches (header, first code character, closing line) determine the match |
| ShellSnippet.ClosingLine | lib/render-content/renderContent.js:33 | an LF followed by text free of line terminators and backticks, then three backticks, is a closing line whose fence is found |
| ShellSnippet.CloseFromFirst | lib/render-content/renderContent.js:33 | the first closing line at or after a position is the one the lazy capture stops at |
| ShellSnippet.ShellBlockRendered | lib/render-content/renderContent.js:32-35 | a shell block becomes the snippet wrapped around its code, and the rewrite goes on after the closing fence. Whitespace before the code and text before the closing fence are dropped |
| TocLists.CollapseTocBlankLines | lib/render-content/renderContent.js:42-44 | the global replace of `blankLineInList` never lengthens the text; `CollapseTocDeletesOnlyWhitespace`, `CollapseTocWithoutAnchorIsIdentity` and `BlankLinesBetweenItemsRemoved` state what it deletes |
| TocLists.ItemStart | lib/render-content/renderContent.js:10 | `[^\S\r\n]*?[-\*] <a` matches indentation without CR or LF, then a bullet, a space and `<a` |
| TocLists.CrLfRun | lib/render-content/renderContent.js:9 | the greedy `[\r\n]*` takes the longest run of CR and LF |
| TocLists.GiveBack | lib/render-content/renderContent.js:9-10 | backtracking `[\r\n]*` gives back characters until the item pattern matches; it fails only when no item starts at the run's start |
| TocLists.Widen | lib/render-content/renderContent.js:9-11 | the lazy `\s*?` is widened one character at a time, and the match it finds lies after the first group |
| TocLists.MatchTocGap | lib/render-content/renderContent.js:8-11 | a match lies inside the text, with its first group ending before its second group starts; `MatchTocGapShape` states that the first group is `</a>` plus a line break, and `GapMatch` when a match is found |
| TocLists.ItemStartSkipsIndent | lib/render-content/renderContent.js:10 | an indentation character before an item does not change where the item ends |
| TocLists.GiveBackStartsAtLine | lib/render-content/renderContent.js:9-10 | the item found by giving back line breaks starts right after a line break |
| TocLists.WidenStep | lib/render-content/renderContent.js:9 | when no item is found at one width, the lazy search goes on with the next |
| TocLists.WidenTakesGiveBack | lib/render-content/renderContent.js:9-10 | the first width at which an item is found gives the match |
| TocLists.WidenStartsAtLine | lib/render-content/renderContent.js:9-10 | the second group always starts at the beginning of a line, so the item keeps its indentation |
| TocLists.ItemLine | lib/render-content/renderContent.js:10 | an item on a new line consists of its indentation and then its bullet mark |
| TocLists.MatchTocGapShape | lib/render-content/renderContent.js:8-11 | a match is `</a>` and a line break, then only whitespace, then a whole item line start (indentation, bullet, ` <a`) beginning after a line break |
| TocLists.MatchErases | lib/render-content/renderContent.js:43 | replacing a match by its two groups only deletes whitespace |
| TocLists.CollapseTocDeletesOnlyWhitespace | lib/render-content/renderContent.js:43 | the rewrite only deletes whitespace characters |
| TocLists.CollapseTocStepLength | lib/render-content/renderContent.js:43 | one step of the replace consumes the whole match, or one character where none starts |
| TocLists.CollapseTocStepErases | lib/render-content/renderContent.js:43 | one step of the replace deletes only whitespace, provided the rest of the rewrite does |
| TocLists.MatchStepErases | lib/render-content/renderContent.js:43 | the step at a match deletes only whitespace, provided the rest of the rewrite does |
| TocLists.CollapseTocKeepsText | lib/render-content/renderContent.js:43 | the rewrite never lengthens the text, and it keeps every other character in order |
| TocLists.AnchorCloseIsLiteral | lib/render-content/renderContent.js:8 | at every position, the index-based `</a>` test holds if and only if the literal starts there |
| TocLists.CollapseTocCopiesPlainPrefix | lib/render-content/renderContent.js:43 | text without `<` is copied unchanged before the rewrite of whatever follows it |
| TocLists.CollapseTocPlainStep | lib/render-content/renderContent.js:43 | the first character of text without `<` is copied, and the rest is again such text |
| TocLists.CollapseTocWithoutAnchorIsIdentity | lib/render-content/renderContent.js:42-44 | text without `</a>` is left unchanged |
| TocLists.ItemStartAfterIndent | lib/render-content/renderContent.js:10 | indentation and a bullet mark make an item that ends after ` <a` |
| TocLists.NoItemInsideGap | lib/render-content/renderContent.js:10 | no item starts inside whitespace that ends in a line break |
| TocLists.GiveBackInsideGap | lib/render-content/renderContent.js:9-10 | inside such whitespace, giving back line breaks finds no item |
| TocLists.RunStopsAtItem | lib/render-content/renderContent.js:9 | the greedy `[\r\n]*` never runs past the start of an item |
| TocLists.GapEnd | lib/render-content/renderContent.js:9-10 | when the run of line breaks reaches an item, that item is matched |
| TocLists.GapStep | lib/render-content/renderContent.js:9 | when the run stops short of the item inside the gap, the lazy `\s*?` takes one more character and the match is the same |
| TocLists.GapOneStep | lib/render-content/renderContent.js:9-10 | at each width inside the gap, the item is either found or the search goes on at the next width |
| TocLists.WidenAcrossGap | lib/render-content/renderContent.js:9-10 | from any width inside whitespace ending in a line break, the lazy search reaches the item right after that whitespace |
| TocLists.GapMatch | lib/render-content/renderContent.js:8-11 | `</a>` and a line break, then any whitespace ending in CR or LF, then an item: the match skips all that whitespace and its second group is the whole item line |
| TocLists.CollapseStep | lib/render-content/renderContent.js:43 | a match is replaced by its two groups, and the rewrite goes on after it |
| TocLists.ItemAfterBlankLinesMatch | lib/render-content/renderContent.js:8-11 | blank lines (any whitespace ending in a line break, spaces on emptied lines included) between a link's end and the next item make up exactly the deleted part of the match |
| TocLists.ItemAfterBlankLinesParts | lib/render-content/renderContent.js:8-11 | in that text, `</a>` and an LF come first, then the blank lines, the indentation and the bullet mark |
| TocLists.ItemAfterGap | lib/render-content/renderContent.js:8-11 | `</a>`, an LF, whitespace ending in a line break, indentation and a bullet mark give the match whose groups surround that whitespace |
| TocLists.ItemAfterBlankLinesStep | lib/render-content/renderContent.js:43 | the rewrite of that text keeps `</a>`, the LF and the item line and goes on after the item's `<a` |
| TocLists.ItemAfterBlankLinesLayout | lib/render-content/renderContent.js:8-11 | the positions of the pieces of `</a>`, blank lines, indentation and item in the joined text |
| TocLists.BlankLinesBetweenItemsRemoved | lib/render-content/renderContent.js:37-44 | blank lines between two TOC items are removed, whether empty or holding spaces and tabs, and the next item keeps its indentation |
| BlankLines.CollapseBlankLines | lib/render-content/renderContent.js:48 | the global replace of `(\r?\n){3}` by two LFs never lengthens the text; `CollapseDeletesOnlyLineBreaks` and `CollapseNewlineRun` state what it does |
| BlankLines.TripleBreak | lib/render-content/renderContent.js:48 | a match is found exactly when three line breaks follow one another, and then it is exactly those three line breaks, each LF or CR LF, and nothing more |
| BlankLines.CollapseCopiesBreakFreePrefix | lib/render-content/renderContent.js:48 | text without CR or LF is copied unchanged before the rewrite of whatever follows it |
| BlankLines.CollapseBreakFreeStep | lib/render-content/renderContent.js:48 | the first character of text without CR or LF is copied, and the rest is again such text |
| BlankLines.MatchErases | lib/render-content/renderContent.js:48 | replacing a match by two LFs only deletes CR and LF characters |
| BlankLines.CollapseDeletesOnlyLineBreaks | lib/render-content/renderContent.js:48 | the rewrite only deletes CR and LF characters |
| BlankLines.CollapseNeverLengthens | lib/render-content/renderContent.js:48 | the rewrite never lengthens the text, and it keeps every other character in order |
| BlankLines.LineBreakRunShift | lib/render-content/renderContent.js:48 | whether line breaks follow a position does not depend on the characters before it |
| BlankLines.CollapseWithoutTripleIsIdentity | lib/render-content/renderContent.js:48 | text that never has three line breaks in a row is left unchanged |
| BlankLines.Newlines | lib/render-content/renderContent.js:48 | a run of n LFs |
| BlankLines.CollapseNewlineRun | lib/render-content/renderContent.js:46-48 | a run of n LFs becomes 2·(n div 3) + n mod 3 LFs: each group of three becomes two |
| BlankLines.NewlinesSplit | lib/render-content/renderContent.js:48 | a run of LFs is a shorter run followed by the rest |
| BlankLines.CollapseThreeNewlines | lib/render-content/renderContent.js:48 | a run of three or more LFs starts with a match, which becomes two LFs |
| BlankLines.CollapseOneNewline | lib/render-content/renderContent.js:48 | in a run of one or two LFs the first LF is copied |
| BlankLines.FourNewlinesBecomeThree | lib/render-content/renderContent.js:46-48 | the rewrite is a single pass: four LFs become three, and a second pass would change them again |
| BlankLines.CrLfRunBecomesTwoLf | lib/render-content/renderContent.js:48 | three CR LF line breaks become two bare LFs |
| InlineTags.StripInlineTagNewlines | lib/render-content/renderContent.js:83 | the global replace of `inlineTagRegex` by `$1` never lengthens a cell; `StripDeletesOnlyNewlines` and `StripWithoutTagIsIdentity` state what it deletes |
| InlineTags.NameFrom | lib/render-content/renderContent.js:14-15 | the alternation `(?:a\|code\|em)` takes the first name, in the listed order, that occurs at the position, and fails when none does |
| InlineTags.TagAt | lib/render-content/renderContent.js:16 | `</?name>?` matches `<`, an optional `/`, a tag name and a `>` exactly when one follows |
| InlineTags.MatchInlineTag | lib/render-content/renderContent.js:16 | a match lies inside the text and its group is a tag |
| InlineTags.TokenIsInlineTag | lib/render-content/renderContent.js:14-16 | every token the pattern can match spells an inline tag |
| InlineTags.TagAtSpellsToken | lib/render-content/renderContent.js:16 | the matched text is exactly the token found, an inline tag |
| InlineTags.MatchShape | lib/render-content/renderContent.js:16 | a match is at most one LF, an inline tag, then at most one LF, and the trailing LF is taken whenever it is there |
| InlineTags.MatchSpellsTag | lib/render-content/renderContent.js:16 | the text captured by a match is an inline tag |
| InlineTags.TagAtOpener | lib/render-content/renderContent.js:16 | `<` or `</` followed by a listed name always starts a tag |
| InlineTags.AfterLeadingNewline | lib/render-content/renderContent.js:16 | a literal after a leading LF starts at the next position |
| InlineTags.MatchAtTagOpener | lib/render-content/renderContent.js:16 | a tag opener, with or without an LF before it, is matched, and the LF is part of the match |
| InlineTags.MatchErases | lib/render-content/renderContent.js:83 | replacing a match by its group only deletes LF characters |
| InlineTags.StripDeletesOnlyNewlines | lib/render-content/renderContent.js:83 | the rewrite only deletes LF characters |
| InlineTags.StripKeepsAllButNewlines | lib/render-content/renderContent.js:83 | the rewrite never lengthens the cell, and it keeps every other character in order |
| InlineTags.StripWithoutNewlineIsIdentity | lib/render-content/renderContent.js:83 | a cell without an LF is left unchanged |
| InlineTags.StripWithoutTagIsIdentity | lib/render-content/renderContent.js:83 | a cell without `<` is left unchanged |
| InlineTags.OpeningCodeAfterNewline | lib/render-content/renderContent.js:16 | `\n<code>` followed by something other than an LF is matched with its leading LF |
| InlineTags.ClosingCodeLosesNewline | lib/render-content/renderContent.js:83 | the LF after `</code>` is removed |
| InlineTags.StripStep | lib/render-content/renderContent.js:83 | at a match the group is kept and the rest is rewritten; elsewhere the first character is kept |
| InlineTags.NoMatchWithoutLt | lib/render-content/renderContent.js:16 | no match starts at a character that is neither `<` nor an LF followed by `<` |
| InlineTags.StripCopiesFirst | lib/render-content/renderContent.js:83 | a first character that cannot begin a match is copied and the scan goes on after it |
| InlineTags.StripCopiesTaglessPrefix | lib/render-content/renderContent.js:83 | text without `<` that does not end in an LF is copied unchanged before the rewrite of what follows it |
| InlineTags.StripTaglessStep | lib/render-content/renderContent.js:83 | the first character of such text is copied, and the rest is again such text |
| InlineTags.CodeOnItsOwnLine | lib/render-content/renderContent.js:83 | `\n<code>x</code>\n` in a cell becomes `<code>x</code>` |
| InlineTags.ClosedCodeLine | lib/render-content/renderContent.js:83 | text ending in `</code>` and an LF loses only that LF |
| InlineTags.OpeningCodeLosesNewline | lib/render-content/renderContent.js:83 | the LF before `<code>` is removed |
| InlineTags.BlankLineBeforeTagKeepsOneNewline | lib/render-content/renderContent.js:16 | of two LFs before a tag, only the one next to it is removed |
| InlineTags.PrefixOfLongerTagMatches | lib/render-content/renderContent.js:14-16 | `<a` and `<em` are matched as prefixes, so the LF before `<abbr>` is removed too |
| ContentRenderer.Prepare | lib/render-content/renderContent.js:32-48 | the three rewrites between the Liquid engine and the processor; on text without a backtick they never lengthen it; `PlainTextPassesUnchanged` and `RewriteRendered` state more |
| ContentRenderer.TocGuardRedundant | lib/render-content/renderContent.js:42-44 | the test for `</a>` before the TOC rewrite makes no difference |
| ContentRenderer.PlainTextPassesUnchanged | lib/render-content/renderContent.js:32-48 | text without a shell header, without `</a>` and without three line breaks in a row goes through the three rewrites unchanged |
| ContentRenderer.Extend | lib/render-content/renderContent.js:55-65 | a later call that is given the output of the last one keeps the calls in order and chained |
| ContentRenderer.RewriteRendered | lib/render-content/renderContent.js:32-48 | the three rewrites, with the guarded TOC rewrite, give the same text as applying all three |
| ContentRenderer.ApplyOptions | lib/render-content/renderContent.js:57-67 | the text is extracted exactly when `textOnly` is set, and this comes first. A document is returned exactly when `cheerioObject` is set. Entities are encoded exactly when `encodeEntities` is set and `cheerioObject` is not. Each call is given the previous one's output, and a string result is the last output, trimmed |
| ContentRenderer.Finish | lib/render-content/renderContent.js:54-67 | the table cells are rewritten exactly when `<table>` occurs in the processed HTML, and before the options. The options behave as in `ApplyOptions` |
| ContentRenderer.ProcessAndFinish | lib/render-content/renderContent.js:50-67 | the processor runs first, on the prepared text. Its failure is returned, and nothing more runs. Otherwise the post-processing follows as in `Finish` |
| ContentRenderer.RenderTemplate | lib/render-content/renderContent.js:23-73 | the comment pass, the comment stripper, the Liquid engine, the rewrites, the processor and the post-processing run in that order. Each gets the previous output. A failure of the Liquid engine or the processor ends the run and is passed to the caller |
| ContentRenderer.PipelineOutcome | lib/render-content/renderContent.js:29-73 | a run succeeds if and only if the Liquid engine and the processor both succeed on what they are given, and a failure is the error one of the two returned, rethrown |
| ContentRenderer.RenderContent | lib/render-content/renderContent.js:19-73 | an empty template is returned unchanged without any library call. Any other template is rendered as in `RenderTemplate`, with the clipboard snippet of line 34 as the shell block replacement. Every string result is trimmed |

## Left out

- The libraries are parameters of the model: the Liquid engine (`liquid.js`), the Markdown processor (`create-processor.js`), cheerio, `strip-html-comments` and `html-entities`. Only the results they return are related to their inputs. `liquid.js` and `create-processor.js` are not part of this model.
- Of `removeNewlinesFromInlineTags` (lines 76-86), only the string rewrite of each cell is modelled: `InlineTags.StripInlineTagNewlines`. Three parts are folded into the `rewriteCells` parameter, which is given that rewrite:
  - selecting the `td` elements that hold an inline tag;
  - loading and serialising the DOM;
  - the `<body>` extraction.
- The `async`/`await` structure is not modelled; the pipeline is a sequential method.
- Failures of the comment stripper, cheerio and the encoder are not modelled; those calls are total functions. The failures of the Liquid engine and the processor are modelled, and passed on unchanged, as the `catch` block rethrows them.
- The `console.error` line for `options.filename` (lines 69-71) is output only and is left out.
- A `null` or `undefined` template is not modelled: Dafny strings are never null, so the empty string is the only falsy template. Its default (`''`) and the defaults of `context` and `options` are the values the caller passes.
- `renderContent.liquid` (line 88) only re-exports the Liquid engine; it is not modelled.
- The shell block replacement HTML (line 34) is spelled out in `ShellSnippet.ClipboardSnippet`, split around `$1`, and `RenderContent` uses it. `RenderTemplate` and the lemmas hold for any replacement of the form `before + $1 + after`; no property depends on the markup of the snippet.
- ContentRenderer.ProcessAndFinish: the Markdown processor is created from the context and run in one step. The model does not separate `createProcessor`, `process` and `toString`.

## Behaviour of the patterns

The model follows the regular expressions as written, including these consequences, which a reading of their intent alone would miss:

- On the closing line of a shell block, any text BEFORE the three backticks is dropped with the match (`.*?```` in line 33). Any text after them stays in the output. `ShellSnippet.ShellBlockRendered` states this.
- The first line of a shell block's content does not have to start with a non-whitespace character. Leading whitespace, including whole blank lines, is skipped by the lazy `\s*?` before `\S` and is dropped from the code.
- The triple-newline rewrite is a single pass, so four newlines become three and not two. `BlankLines.FourNewlinesBecomeThree` states this.
- `(?:a|code|em)` is not followed by a word boundary, so `<a` and `<em` also match the start of `<abbr>`, `<article>`, `<aside>` and `<embed>`, and the LF around those tags inside a table cell is removed as well. `InlineTags.PrefixOfLongerTagMatches` states this for `<abbr>`.
- The content of a shell block may be only whitespace. Then the capture starts at the first non-whitespace character after the header, which can be the block's own closing fence. The match then runs on to a later closing line. `ShellSnippet.MatchShellSnippetShape` describes the match in every case.
