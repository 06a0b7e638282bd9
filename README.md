# Documentation to Markdown in jupyterlab-lsp

Language servers often send hover and completion documentation as plain text or
reStructuredText, not as Markdown. This project models the part of
jupyterlab-lsp that turns that documentation into the Markdown the editor shows.
It has two parts:

- **`documentation.ts`**
  - `parse_documentation` splits a docstring into the call signatures at its
    head and the body after them.
  - `wrap_code` puts a text in a fenced code block.
  - `string_to_markdown` does one of three things. It passes text that is
    already Markdown through unchanged. Otherwise it fences the signatures,
    collapsing the extra ones of a Python symbol into a `<details>` block, and
    then either converts the body from reStructuredText or fences it as plain
    text.
- **`rst.ts`**
  - `looks_like_rst` is the heuristic that decides whether a body is
    reStructuredText.
  - `rst_to_markdown` is a line-driven converter. Lines that belong to no
    block collect in a buffer. Four block parsers, tried in a fixed order,
    turn doctest prompts, `::` literal blocks, `.. math::` and
    `.. code-block::` / `.. productionlist::` into fenced blocks. A fifth
    parser follows the prompt parser and fences the output after a prompt. When the
    buffer is flushed, its text goes through the ordered table of directive
    rules, the section-heading rewrite and the indentation fix.

The Dafny modules follow the source:

| file | module | models |
|---|---|---|
| `text.dfy` | `Text` | The JavaScript string operations the code relies on: `trim`, `trimLeft`, `trimRight`, `includes`, `indexOf`, `replace` with a string pattern, `split` and `join`. |
| `rst_directives.dfy` | `RstDirectives` | `RST_DIRECTIVES`. Each of its twelve regular expressions is written out as a leftmost-match scanner, global rules replace every match. |
| `block_parsers.dfy` | `BlockParsers` | `BlockParser`, `IndentedBlockParser` and the five parsers. Each operation has a meaning on the parser's fields (`ParserState`). The class `BlockParser` updates those fields in place, and each of its methods is proved against that meaning. |
| `rst.dfy` | `Rst` | `RST_SECTIONS`, `looks_like_rst`, `flush_buffer` and `rst_to_markdown`. The conversion is stated on values (`Step`, `Run`, `Converted`). The class `Converter` runs the loop on the shared parser objects and is proved to compute exactly `Converted`. |
| `rst_properties.dfy` | `RstProperties` | What the converter and the heuristic promise, stated on the value-level conversion. |
| `documentation.dfy` | `Documentation` | `parse_documentation`, `wrap_code` and `string_to_markdown`. Each is a specification function plus a method with the source's loops, proved equal to it. |
| `version_note.dfy` | `VersionNote` | A `versionchanged` note followed through both files, down to the documented outputs. |

## Model

All source paths are under `packages/jupyterlab-lsp/src/features/documentation/`;
the table gives them in full.

| member | source | states |
|---|---|---|
| Text.TrimLeftSpec | packages/jupyterlab-lsp/src/features/documentation/rst.ts:349 | `trimLeft` removes exactly the leading run of whitespace: the result is a suffix of the input, what it drops is all whitespace, and it starts with a non-whitespace character unless it is empty. |
| Text.TrimRightSpec | packages/jupyterlab-lsp/src/features/documentation/rst.ts:248 | `trimRight` removes exactly the trailing run of whitespace: the result is a prefix, what it drops is all whitespace, and it ends with a non-whitespace character unless it is empty. |
| Text.LeadingSpaceSpec | packages/jupyterlab-lsp/src/features/documentation/rst.ts:188 | `line.length - line.trimLeft().length` is the length of the leading whitespace, which is followed by a non-whitespace character or by the end of the line. |
| Text.IndexOf | packages/jupyterlab-lsp/src/features/documentation/rst.ts:343 | The first occurrence at or after the start index: the pattern occurs there and nowhere before it, and no result means it occurs nowhere. |
| Text.ReplaceFirst | packages/jupyterlab-lsp/src/features/documentation/rst.ts:340-343 | `replace` with a string pattern replaces only the first occurrence, and returns the text unchanged when the pattern is absent. |
| Text.AbsentChar | packages/jupyterlab-lsp/src/features/documentation/documentation.ts:20 | A pattern holding a character the text lacks does not occur in it (`includes` is false). |
| Text.Split | packages/jupyterlab-lsp/src/features/documentation/rst.ts:348 | `split` on one character gives at least one piece, and no piece holds the separator. |
| Text.FirstPieceSpec | packages/jupyterlab-lsp/src/features/documentation/documentation.ts:22 | `split(sep)[0]` is a prefix of the text without the separator, followed by the separator or by the end of the text. |
| Text.JoinSplit | packages/jupyterlab-lsp/src/features/documentation/rst.ts:335-348 | Joining the pieces of a split gives back the text, so no character is lost. |
| Text.SplitJoin | packages/jupyterlab-lsp/src/features/documentation/rst.ts:335-348 | Splitting joined lines that hold no separator gives back the lines. |
| Text.JoinAppend | packages/jupyterlab-lsp/src/features/documentation/rst.ts:146-147 | Joining lines with one more line at the end adds the separator and that line to the joined text. |
| Text.BlankIffAllSpace | packages/jupyterlab-lsp/src/features/documentation/rst.ts:143 | `trim() == ''` holds exactly when every character is whitespace. |
| Text.RunEnd | packages/jupyterlab-lsp/src/features/documentation/rst.ts:9 | The end of the longest run of characters outside a stop set: no character of the run stops it, and the character after it does. |
| RstDirectives.LineEndAt | packages/jupyterlab-lsp/src/features/documentation/rst.ts:9 | `(?<end>$\|\n)` captures the empty string only at the end of the input, and otherwise only a line break. |
| RstDirectives.LineDirectiveAt | packages/jupyterlab-lsp/src/features/documentation/rst.ts:25-26 | A `<head>(.*)($\|\n)` match starts with the head and ends inside the text, and its group is non-empty for `.+`. |
| RstDirectives.VersionNoteAt | packages/jupyterlab-lsp/src/features/documentation/rst.ts:8-19 | A version-note match starts with its directive and covers at least one version character after it. |
| RstDirectives.RoleAt | packages/jupyterlab-lsp/src/features/documentation/rst.ts:36-48 | A `:mod:` or `:math:` match starts with its role and covers at least one character after it. |
| RstDirectives.RefAt | packages/jupyterlab-lsp/src/features/documentation/rst.ts:28-31 | A `:ref:` match starts with `` :ref:` `` and ends inside the text. |
| RstDirectives.TrailingSpaceStart | packages/jupyterlab-lsp/src/features/documentation/rst.ts:29 | The lazy label before `\s*<` ends where the final run of whitespace starts. |
| RstDirectives.LinkAt | packages/jupyterlab-lsp/src/features/documentation/rst.ts:32-35 | A link match starts at a backtick and ends inside the text. |
| RstDirectives.NamedMatchAt | packages/jupyterlab-lsp/src/features/documentation/rst.ts:49-58 | A `highlight` or `code-block` match ends after its start and inside the text. |
| RstDirectives.MatchAt | packages/jupyterlab-lsp/src/features/documentation/rst.ts:7-59 | A match of any rule at an index ends after that index and inside the text. |
| RstDirectives.FirstMatch | packages/jupyterlab-lsp/src/features/documentation/rst.ts:86 | Regular-expression search is leftmost: the rule matches at the result and nowhere before it, and no result means it matches nowhere. |
| RstDirectives.LanguageGroup | packages/jupyterlab-lsp/src/features/documentation/rst.ts:61-66 | The `language` group of `highlight` or `code-block` exists exactly when the rule matches. |
| RstDirectives.ApplyWithoutMatch | packages/jupyterlab-lsp/src/features/documentation/rst.ts:338 | A rule that matches nowhere leaves the text unchanged. |
| RstDirectives.ReplaceWithoutMatch | packages/jupyterlab-lsp/src/features/documentation/rst.ts:338 | A global replacement with no match from an index on copies the rest of the text. |
| RstDirectives.ApplyAllWithoutMatch | packages/jupyterlab-lsp/src/features/documentation/rst.ts:337-339 | If no rule of the table matches, the directive loop returns its input. |
| RstDirectives.ApplyAllFirst | packages/jupyterlab-lsp/src/features/documentation/rst.ts:337-339 | Applying the table means applying its first rule, then the other rules to that result. |
| RstDirectives.NoMarkerNoMatch | packages/jupyterlab-lsp/src/features/documentation/rst.ts:7-59 | Text with neither `.. ` nor a backtick is matched by no rule of the table. |
| RstDirectives.RoleMatch | packages/jupyterlab-lsp/src/features/documentation/rst.ts:36-48 | A role followed by a title without backticks and a closing backtick matches at the role: the match ends just after the closing backtick, and its replacement is the title between the rule's delimiters. |
| RstDirectives.RoleRewritten | packages/jupyterlab-lsp/src/features/documentation/rst.ts:36-48 | In a text whose only backticks belong to one role, the `:mod:` rule turns ``:mod:`x` `` into `` `x` `` and the `:math:` rule turns ``:math:`x` `` into `$x$`. The text before and after the role is kept. |
| RstDirectives.RoleReplacedAt | packages/jupyterlab-lsp/src/features/documentation/rst.ts:36-48 | In such a text, the rule changes only the role: what comes before it and after it is copied. |
| RstDirectives.ModuleRoleExample | packages/jupyterlab-lsp/src/features/documentation/rst.spec.ts:351-355 | The `:mod:` rule turns ``Discrete Fourier Transform (:mod:`numpy.fft`)`` into ``Discrete Fourier Transform (`numpy.fft`)``. |
| RstDirectives.RefMatch | packages/jupyterlab-lsp/src/features/documentation/rst.ts:28-31 | ``:ref:`title <target>` `` matches at `:ref:` and ends after its closing backtick. It becomes ``title: `target` ``, and the whitespace before `<` is dropped from the title. |
| RstDirectives.LinkMatch | packages/jupyterlab-lsp/src/features/documentation/rst.ts:32-35 | `` `title <url>`_ `` becomes `[title](url)`, with or without a line break before `<`. The match takes in every underscore after the closing backtick. |
| RstDirectives.OneMatchRewritten | packages/jupyterlab-lsp/src/features/documentation/rst.ts:338 | A global role rule that matches at exactly one index replaces that match. Everything before and after it is copied unchanged. |
| RstDirectives.ReplaceUpTo | packages/jupyterlab-lsp/src/features/documentation/rst.ts:338 | Global replacement of a role copies every character before the first index where the rule matches. |
| RstDirectives.NoInlineMarkupNoMatch | packages/jupyterlab-lsp/src/features/documentation/rst.ts:7-59 | No rule matches a text that has no `.. `, no `<` and no colon right before a backtick. Backticks alone are inert. |
| RstDirectives.NoInlineMarkupUnchanged | packages/jupyterlab-lsp/src/features/documentation/rst.ts:337-339 | Such a text comes out of the directive loop unchanged. |
| RstDirectives.MatchNeedsMarker | packages/jupyterlab-lsp/src/features/documentation/rst.ts:7-59 | Every match starts with `.. ` or has a backtick in the text after it. |
| RstDirectives.LineDirectiveNeedsDots | packages/jupyterlab-lsp/src/features/documentation/rst.ts:25-26 | A match of a line directive starts with `.. `. |
| RstDirectives.VersionNoteNeedsDots | packages/jupyterlab-lsp/src/features/documentation/rst.ts:8-19 | A version-note match starts with `.. `. |
| BlockParsers.StripPrompt | packages/jupyterlab-lsp/src/features/documentation/rst.ts:219-223 | `_stripPrompt` removes four characters after `>>> ` or `... `, otherwise three, and leaves nothing of a line shorter than three. |
| BlockParsers.BlockStart | packages/jupyterlab-lsp/src/features/documentation/rst.ts:128-131 | `_startBlock` appends the fence and language to the buffer and marks the block started; from a fresh parser the result is well formed. |
| BlockParsers.StripColons | packages/jupyterlab-lsp/src/features/documentation/rst.ts:256 | `replace(/::$/, '')` removes one final `::` and changes nothing else. |
| BlockParsers.Initiate | packages/jupyterlab-lsp/src/features/documentation/rst.ts:205-288 | `initiateParsing` always leaves the block started, and a fresh parser well formed. |
| BlockParsers.ConsumeKeepsWellFormed | packages/jupyterlab-lsp/src/features/documentation/rst.ts:134-139 | Consuming a line keeps a started parser well formed and keeps its opening fence first. |
| BlockParsers.FenceNotBlank | packages/jupyterlab-lsp/src/features/documentation/rst.ts:143 | An opening fence is never blank, so it is never the dropped line. |
| BlockParsers.FinishShape | packages/jupyterlab-lsp/src/features/documentation/rst.ts:141-154 | `finishConsumption` returns text that starts with the opening fence and ends with the closing fence and a line break, plus one more line break exactly when `final` is false. It drops at most one blank last line and never the fence. The parser is left fresh: empty buffer, not started. |
| BlockParsers.KeepsFence | packages/jupyterlab-lsp/src/features/documentation/rst.ts:143-145 | Dropping a blank last line keeps the opening fence. |
| BlockParsers.FinishText | packages/jupyterlab-lsp/src/features/documentation/rst.ts:146-150 | The closed text is the kept lines joined by line breaks, then the closing fence and line break, then one more line break unless `final`. |
| BlockParsers.JoinStartsWithFirst | packages/jupyterlab-lsp/src/features/documentation/rst.ts:147 | Joined lines start with the first line. |
| BlockParsers.IndentedAcceptance | packages/jupyterlab-lsp/src/features/documentation/rst.ts:172-177 | An indented block takes a line exactly when it is blank at the block's beginning, empty, or starts with whitespace. |
| BlockParsers.IndentedBlockBody | packages/jupyterlab-lsp/src/features/documentation/rst.ts:179-191 | After the opening fence, an indented block holds its lines without one leading blank line. Each line loses as many characters as the first kept line's leading whitespace. |
| BlockParsers.FirstKeptLine | packages/jupyterlab-lsp/src/features/documentation/rst.ts:187-190 | The first kept line fixes the indent, and every consumed line loses exactly that many characters. |
| BlockParsers.FirstIndentedStep | packages/jupyterlab-lsp/src/features/documentation/rst.ts:180-190 | The first non-blank line ends the beginning and fixes the indent at its leading whitespace. |
| BlockParsers.DedentedTail | packages/jupyterlab-lsp/src/features/documentation/rst.ts:187-190 | Once the indent is fixed, the buffer grows by the lines, each cut by that indent. |
| BlockParsers.PromptBlockBody | packages/jupyterlab-lsp/src/features/documentation/rst.ts:215-223 | A prompt block holds its lines with their prompts stripped, in order. |
| BlockParsers.OutputAcceptance | packages/jupyterlab-lsp/src/features/documentation/rst.ts:229-236 | The output parser never starts a block itself. It takes exactly the non-blank lines that do not start with `>>>`. |
| BlockParsers.PromptOpensAccepts | packages/jupyterlab-lsp/src/features/documentation/rst.ts:201-213 | A line the prompt parser starts on is also one it consumes. |
| BlockParsers.DoubleColonOpening | packages/jupyterlab-lsp/src/features/documentation/rst.ts:250-262 | A line trimming to `.. autosummary::` gives remainder `"\n\n"` and an empty fence language. Otherwise the fence takes the current language, and the remainder is the line without a final `::`, plus `"\n\n"`. |
| BlockParsers.DoubleColonTrigger | packages/jupyterlab-lsp/src/features/documentation/rst.ts:246-249 | `line.trimRight().endsWith('::')` holds exactly when the line has `::` followed by nothing but whitespace. |
| BlockParsers.DoubleColonFound | packages/jupyterlab-lsp/src/features/documentation/rst.ts:246-249 | A `::` block opens only on a line with `::` followed by nothing but whitespace. |
| BlockParsers.DoubleColonAt | packages/jupyterlab-lsp/src/features/documentation/rst.ts:246-249 | A line with `::` followed by nothing but whitespace opens a `::` block. |
| BlockParsers.BlockParser.constructor | packages/jupyterlab-lsp/src/features/documentation/rst.ts:115-118 | A parser of the given kind starts fresh, without a follower. |
| BlockParsers.BlockParser.Prompt | packages/jupyterlab-lsp/src/features/documentation/rst.ts:225 | The prompt parser starts fresh and owns a fresh output parser as its follower. |
| BlockParsers.BlockParser.StartBlock | packages/jupyterlab-lsp/src/features/documentation/rst.ts:128-131 | `_startBlock`, with the field resets of the indented parsers: the new state is `BlockStart` of the old. |
| BlockParsers.BlockParser.Push | packages/jupyterlab-lsp/src/features/documentation/rst.ts:138 | The line is appended to the buffer. |
| BlockParsers.BlockParser.Consume | packages/jupyterlab-lsp/src/features/documentation/rst.ts:134-139 | Consuming requires a started block, where the source throws. The new state is `ConsumeLine` of the old one, which covers indent stripping, the skipped first blank line and prompt stripping. |
| BlockParsers.BlockParser.InitiateParsing | packages/jupyterlab-lsp/src/features/documentation/rst.ts:205-288 | State and remainder are those of `Initiate` for the parser's kind. |
| BlockParsers.BlockParser.FinishConsumption | packages/jupyterlab-lsp/src/features/documentation/rst.ts:141-154 | Returns the text of `Finish` and leaves the state `Finish` gives. |
| Rst.FirstOpening | packages/jupyterlab-lsp/src/features/documentation/rst.ts:367-374 | The chosen kind is in the list and opens a block on the line. |
| Rst.FirstOpeningSpec | packages/jupyterlab-lsp/src/features/documentation/rst.ts:367-374 | The first parser in order that can parse the line wins; no result means none can. |
| Rst.Advance | packages/jupyterlab-lsp/src/features/documentation/rst.ts:351-364 | The first half of the loop body keeps the invariant: an active parser holds a started, well-formed block. |
| Rst.Handover | packages/jupyterlab-lsp/src/features/documentation/rst.ts:357-359 | A follower that takes over holds a started, well-formed block. |
| Rst.OpenBlock | packages/jupyterlab-lsp/src/features/documentation/rst.ts:365-374 | A block opened by the parser loop is started and well formed. |
| Rst.OpenBlockBy | packages/jupyterlab-lsp/src/features/documentation/rst.ts:367-372 | The chosen parser opens the block with `initiateParsing`, and its remainder replaces the line. |
| Rst.IdleStep | packages/jupyterlab-lsp/src/features/documentation/rst.ts:365-394 | Outside a block, the step keeps the invariant. |
| Rst.Step | packages/jupyterlab-lsp/src/features/documentation/rst.ts:349-394 | One turn of the loop keeps the invariant. |
| Rst.Run | packages/jupyterlab-lsp/src/features/documentation/rst.ts:348-395 | The loop over any lines keeps the invariant, so the final close is always legal. |
| Rst.ParserTable.Order | packages/jupyterlab-lsp/src/features/documentation/rst.ts:291-296 | The parser objects in `BLOCK_PARSERS` order: prompt, math, explicit code, double colon. |
| Rst.ParserTable.FirstParser | packages/jupyterlab-lsp/src/features/documentation/rst.ts:367-374 | The loop over the parser objects picks the object of the first kind that can parse the line, or none exactly when no kind can. |
| Rst.ParserTable.constructor | packages/jupyterlab-lsp/src/features/documentation/rst.ts:291-296 | The module's parser objects are created fresh and distinct. |
| Rst.Converter.constructor | packages/jupyterlab-lsp/src/features/documentation/rst.ts:329-332 | The local state starts as language `python`, no Markdown, no active parser and an empty buffer. |
| Rst.Converter.FlushBuffer | packages/jupyterlab-lsp/src/features/documentation/rst.ts:334-346 | `flush_buffer` returns `Flush` of the buffer, empties it, and changes nothing else. |
| Rst.Converter.Continue | packages/jupyterlab-lsp/src/features/documentation/rst.ts:351-364 | Handling a line inside a block does what `Advance` says. |
| Rst.Converter.CloseBlock | packages/jupyterlab-lsp/src/features/documentation/rst.ts:354-363 | A rejected line flushes the text, closes the block and hands over to the follower, as `Advance` says. |
| Rst.Converter.FinishBlock | packages/jupyterlab-lsp/src/features/documentation/rst.ts:355-356 | The buffer's text and then the closed block are appended to the Markdown. |
| Rst.Converter.HandOver | packages/jupyterlab-lsp/src/features/documentation/rst.ts:357-362 | The follower, if any, becomes active with the rejected line. Otherwise no parser is active. |
| Rst.Converter.Start | packages/jupyterlab-lsp/src/features/documentation/rst.ts:365-394 | Handling a line outside a block does what `IdleStep` says. |
| Rst.Converter.SetLanguage | packages/jupyterlab-lsp/src/features/documentation/rst.ts:390 | Only the highlight language changes. |
| Rst.Converter.Buffer | packages/jupyterlab-lsp/src/features/documentation/rst.ts:393 | Only the buffer changes, gaining the line at its end. |
| Rst.Converter.SelectAndInitiate | packages/jupyterlab-lsp/src/features/documentation/rst.ts:367-374 | The parser loop opens what `OpenBlock` says and returns its remainder. |
| Rst.Converter.Activate | packages/jupyterlab-lsp/src/features/documentation/rst.ts:368-372 | The chosen parser becomes active with the state `initiateParsing` gives. |
| Rst.Converter.ProcessLine | packages/jupyterlab-lsp/src/features/documentation/rst.ts:348-395 | One turn of the loop does what `Step` says. |
| Rst.Converter.Close | packages/jupyterlab-lsp/src/features/documentation/rst.ts:396-401 | After the loop, the result is `Finalize`: the buffer is flushed and any open block is closed with `final` true. The parser objects are left fresh. |
| Rst.ApplyDirectives | packages/jupyterlab-lsp/src/features/documentation/rst.ts:337-339 | The directive loop applies the table's rules in order. |
| Rst.RewriteSectionHeaders | packages/jupyterlab-lsp/src/features/documentation/rst.ts:340-342 | The section loop rewrites the first header of each section, in order. |
| Rst.RstToMarkdown | packages/jupyterlab-lsp/src/features/documentation/rst.ts:328-402 | `rst_to_markdown` on the shared parser objects computes `Converted(text)`. Fresh objects stay fresh, so a call behaves as if the parsers were new. |
| RstProperties.SingleLineIsNotRst | packages/jupyterlab-lsp/src/features/documentation/rst.ts:78-92 | A single line with neither `.. ` nor a backtick does not look like reStructuredText. |
| RstProperties.PlainSentenceIsNotRst | packages/jupyterlab-lsp/src/features/documentation/rst.spec.ts:259 | `'this is plain text'` is not reStructuredText. |
| RstProperties.EmphasisIsNotRst | packages/jupyterlab-lsp/src/features/documentation/rst.spec.ts:260 | `'this might be **markdown**'` is not reStructuredText. |
| RstProperties.ColonsAloneAreNotRst | packages/jupyterlab-lsp/src/features/documentation/rst.spec.ts:261 | `'::::::\n\n\tcode'` is not reStructuredText. |
| RstProperties.BareColonsAreNotRst | packages/jupyterlab-lsp/src/features/documentation/rst.spec.ts:262 | `'::'` is not reStructuredText. |
| RstProperties.InlineSeeAlsoIsNotRst | packages/jupyterlab-lsp/src/features/documentation/rst.spec.ts:263 | `'See Also: Interesting Topic'` is not reStructuredText. |
| RstProperties.MarkersAreRst | packages/jupyterlab-lsp/src/features/documentation/rst.spec.ts:253-255 | `'the following code ::…'`, `'the following code::…'` and an underlined `See Also` are reStructuredText. |
| RstProperties.NoDotLineIsNotRst | packages/jupyterlab-lsp/src/features/documentation/rst.ts:78-92 | A single line with no dot and no backtick is not reStructuredText. |
| RstProperties.WithoutMarkupIsNotRst | packages/jupyterlab-lsp/src/features/documentation/rst.ts:78-92 | Text with no dash, dot, backtick or `>`, and no `::` ending a line after a word or space, is not reStructuredText. |
| RstProperties.NoUnderlinedSection | packages/jupyterlab-lsp/src/features/documentation/rst.ts:80-84 | Without a dash there is no underlined section. |
| RstProperties.ColonsBeforeNoColon | packages/jupyterlab-lsp/src/features/documentation/rst.ts:90-91 | A run of colons that starts the text has no word or whitespace before it, so `(\s\|\w)::\n` does not match. |
| RstProperties.ListItemOf | packages/jupyterlab-lsp/src/features/documentation/rst.ts:379-383 | `key : desc`, with a key without `:` or space and a description without line breaks, becomes ``- `key`: desc``. |
| RstProperties.ListItemShape | packages/jupyterlab-lsp/src/features/documentation/rst.ts:379-383 | Every line that becomes a list item has exactly that shape. |
| RstProperties.MathWinsOverDoubleColon | packages/jupyterlab-lsp/src/features/documentation/rst.ts:291-296 | `.. math::` would also open a `::` block, but the math parser comes first and wins. |
| RstProperties.PromptHandsOverToOutput | packages/jupyterlab-lsp/src/features/documentation/rst.ts:351-362 | A line that is not a prompt closes the prompt block and opens an output block holding that line. |
| RstProperties.IndentedBlockEnds | packages/jupyterlab-lsp/src/features/documentation/rst.ts:351-374 | A line starting with non-whitespace closes an indented block. It is then examined like any line outside a block, so it is never dropped. |
| RstProperties.RewriteSectionsWithoutHeader | packages/jupyterlab-lsp/src/features/documentation/rst.ts:340-342 | Text without any section header is left alone by the section rewrite. |
| RstProperties.RewriteOneSection | packages/jupyterlab-lsp/src/features/documentation/rst.ts:340-342 | The section loop rewrites only the one section whose header occurs: its first header becomes `\n#### name\n`. Headers of sections before it must be absent from the text, and headers of sections after it absent from the rewritten text. |
| RstProperties.NoHeaderWithout | packages/jupyterlab-lsp/src/features/documentation/rst.ts:298-303 | A section header starts with a line break followed by the title's first letter. A text where no line break is followed by that letter holds no such header. |
| RstProperties.ItemBreaks | packages/jupyterlab-lsp/src/features/documentation/rst.ts:335 | In joined list-item lines, each line break is followed by `-`, by another line break, or by nothing. |
| RstProperties.SeeAlsoRewritten | packages/jupyterlab-lsp/src/features/documentation/rst.ts:340-342 | A `See Also` header over list-item lines is the one header the section loop finds. It becomes `\n#### See Also\n` and the lines are kept. |
| RstProperties.SeeAlsoFlushed | packages/jupyterlab-lsp/src/features/documentation/rst.spec.ts:346-349 | Flushing the lines `''`, `See Also`, `--------` and then list items gives `\n#### See Also\n` followed by the items, each after a line break. This is the shape of the See Also test's expected output. It holds when the items hold no `.. `, no `<`, no colon before a backtick and no no-break space. |
| RstProperties.FlushPlain | packages/jupyterlab-lsp/src/features/documentation/rst.ts:334-346 | Buffered text without markup, headers or the no-break indent is flushed as the lines joined. |
| RstProperties.PromptRun | packages/jupyterlab-lsp/src/features/documentation/rst.ts:348-395 | A run of prompt lines leaves one open Python block holding the code without prompts. |
| RstProperties.NextPromptLine | packages/jupyterlab-lsp/src/features/documentation/rst.ts:351-353 | Another prompt line adds its code to the open prompt block. |
| RstProperties.FirstPromptLine | packages/jupyterlab-lsp/src/features/documentation/rst.ts:365-393 | A first prompt line opens a Python block holding its code and buffers an empty line. |
| RstProperties.PromptOpening | packages/jupyterlab-lsp/src/features/documentation/rst.ts:205-209 | The prompt parser opens a `python` block holding the stripped code, with an empty remainder. |
| RstProperties.PromptLineIsNoItem | packages/jupyterlab-lsp/src/features/documentation/rst.ts:379-383 | A prompt line is a list item only when the code starts with `: `. |
| RstProperties.EmptyLineHasNoHighlight | packages/jupyterlab-lsp/src/features/documentation/rst.ts:388-391 | An empty line names no highlight language. |
| RstProperties.HighlightDirective | packages/jupyterlab-lsp/src/features/documentation/rst.ts:388-391 | `.. highlight:: X` on one line names the trimmed `X`, when that is not empty. |
| RstProperties.HighlightSetsLanguage | packages/jupyterlab-lsp/src/features/documentation/rst.ts:385-393 | Outside a block, such a line that starts no block sets the language of later blocks and is buffered unchanged. |
| RstProperties.HighlightLineIsNoItem | packages/jupyterlab-lsp/src/features/documentation/rst.ts:379-383 | A `highlight` line is not a list item. |
| RstProperties.DoctestBlock | packages/jupyterlab-lsp/src/features/documentation/rst.ts:200-226 | A doctest without output converts to one `python` fenced block holding the code without prompts, closed as the final block. |
| RstProperties.PromptedSplits | packages/jupyterlab-lsp/src/features/documentation/rst.ts:348 | Splitting the joined prompt lines gives back those lines. |
| RstProperties.PromptBlockAtEnd | packages/jupyterlab-lsp/src/features/documentation/rst.ts:396-400 | At the end of the input, an open prompt block closes into that fenced block. |
| RstProperties.FinalizePromptBlock | packages/jupyterlab-lsp/src/features/documentation/rst.ts:396-400 | The end of the input adds nothing but the closed prompt block. |
| RstProperties.FinalizeActive | packages/jupyterlab-lsp/src/features/documentation/rst.ts:396-400 | With a block open, the end of the input flushes the buffer and closes the block as final. |
| RstProperties.PromptClosingText | packages/jupyterlab-lsp/src/features/documentation/rst.ts:141-154 | The closed prompt block is the fence, the code lines and the closing fence. |
| RstProperties.ClosedBlockText | packages/jupyterlab-lsp/src/features/documentation/rst.ts:143-147 | A block whose last line is not blank closes to its lines joined, followed by the closing fence. |
| RstProperties.KeepsLastLine | packages/jupyterlab-lsp/src/features/documentation/rst.ts:143-145 | A last line that is not blank is kept. |
| RstProperties.EmptyFlush | packages/jupyterlab-lsp/src/features/documentation/rst.ts:334-346 | Flushing one empty line gives the empty string. |
| Documentation.SignaturePrefix | packages/jupyterlab-lsp/src/features/documentation/documentation.ts:22 | The prefix is the longest start of the expected signature without `(`: it is followed by `(` or is the whole signature. |
| Documentation.ScanAll | packages/jupyterlab-lsp/src/features/documentation/documentation.ts:24-61 | The scan for signatures goes on exactly until the body starts, and no line is kept for the body before that. |
| Documentation.ParseDocumentation | packages/jupyterlab-lsp/src/features/documentation/documentation.ts:12-65 | The loop of `parse_documentation` computes `Parse`. |
| Documentation.BodyAfterSignatures | packages/jupyterlab-lsp/src/features/documentation/documentation.ts:46-62 | The body starts at the first non-blank line the scan does not take in. It holds that line and every later line, blank or not. The signatures are the ones collected before it. Without such a line the body is empty. |
| Documentation.SignaturesStartWithPrefix | packages/jupyterlab-lsp/src/features/documentation/documentation.ts:37-45 | Every extracted signature starts with the prefix, also after continuation lines are appended to it. |
| Documentation.DroppedWhileScanning | packages/jupyterlab-lsp/src/features/documentation/documentation.ts:33-40 | While scanning, a redundant `ufunc(` line is dropped. An indented line before any signature changes nothing: it writes to index -1. |
| Documentation.ContinuedSignature | packages/jupyterlab-lsp/src/features/documentation/documentation.ts:37-45 | For Python, a signature line followed by an indented line gives one signature: the trimmed first line, a space and the trimmed second line. |
| Documentation.WrapCode | packages/jupyterlab-lsp/src/features/documentation/documentation.ts:70-74 | The fence opens with the language and closes with a fence line. |
| Documentation.WrapCodeHolds | packages/jupyterlab-lsp/src/features/documentation/documentation.ts:70-74 | The text between the fences is the code, with one line break added only when the code lacks a final one. |
| Documentation.WrapCodeOneLineBreak | packages/jupyterlab-lsp/src/features/documentation/documentation.ts:72 | Code with and without a final line break is wrapped the same. |
| Documentation.StringToMarkdown | packages/jupyterlab-lsp/src/features/documentation/documentation.ts:82-127 | `string_to_markdown` on the shared parser objects computes `ToMarkdown` and leaves the objects fresh. |
| Documentation.SignaturesToMarkdown | packages/jupyterlab-lsp/src/features/documentation/documentation.ts:99-117 | The signature loops compute `SignatureMarkdown`. |
| Documentation.FencesOf | packages/jupyterlab-lsp/src/features/documentation/documentation.ts:108-115 | The loop over signatures wraps each in order, followed by the separator. |
| Documentation.MarkdownPassesThrough | packages/jupyterlab-lsp/src/features/documentation/documentation.ts:95-97 | Text holding a fence line is returned unchanged, whatever the other arguments. |
| Documentation.SkippedSignatures | packages/jupyterlab-lsp/src/features/documentation/documentation.ts:99 | With `skip_signatures`, only the body's Markdown is shown. |
| Documentation.PlainBodyFenced | packages/jupyterlab-lsp/src/features/documentation/documentation.ts:119-124 | A body that is not Python reStructuredText is shown in a fence without a language, non-empty even for an empty body, holding the body. |
| Documentation.EverySignatureShown | packages/jupyterlab-lsp/src/features/documentation/documentation.ts:99-117 | Without `skip_signatures`, every signature appears wrapped, collapsed or not. |
| Documentation.FenceInFences | packages/jupyterlab-lsp/src/features/documentation/documentation.ts:108-115 | Each signature's fence appears among the fences of the list. |
| Documentation.DoctestIsWrappedCode | packages/jupyterlab-lsp/src/features/documentation/documentation.ts:70-74 | Converting a doctest gives the same Markdown as `wrap_code` of its code with language `python`. |
| Documentation.LastLineEnds | packages/jupyterlab-lsp/src/features/documentation/documentation.ts:72 | Joined lines whose last line is not blank do not end with a line break. |
| VersionNote.DotsOnlyAtStart | packages/jupyterlab-lsp/src/features/documentation/rst.ts:8-10 | In `.. versionchanged:: V`, the only `.. ` is at the start. |
| VersionNote.NamedRulesMiss | packages/jupyterlab-lsp/src/features/documentation/rst.ts:49-58 | Neither `highlight` nor `code-block` matches a note. |
| VersionNote.NoteOpensNoBlock | packages/jupyterlab-lsp/src/features/documentation/rst.ts:367-374 | No block parser opens a block on a note. |
| VersionNote.NoteIsPlainLine | packages/jupyterlab-lsp/src/features/documentation/rst.ts:379-391 | A note is not a list item and names no highlight language. |
| VersionNote.NoteRun | packages/jupyterlab-lsp/src/features/documentation/rst.ts:348-395 | After the loop, a note waits in the buffer and no block is open. |
| VersionNote.NoteMatch | packages/jupyterlab-lsp/src/features/documentation/rst.ts:8-10 | The `versionchanged` rule matches the whole note and replaces it by `*Changed in V*`. |
| VersionNote.NoteRewritten | packages/jupyterlab-lsp/src/features/documentation/rst.ts:8-10 | The `versionchanged` rule turns a note into `*Changed in V*`. |
| VersionNote.ChangedIsPlain | packages/jupyterlab-lsp/src/features/documentation/rst.ts:7-59 | `*Changed in V*` holds no marker of any rule, no line break and no no-break space. |
| VersionNote.NoteThroughTable | packages/jupyterlab-lsp/src/features/documentation/rst.ts:337-339 | The whole directive table turns a note into `*Changed in V*`. |
| VersionNote.NoteFlushed | packages/jupyterlab-lsp/src/features/documentation/rst.ts:334-346 | Flushing a note gives `*Changed in V*`. |
| VersionNote.NoteConverted | packages/jupyterlab-lsp/src/features/documentation/rst.ts:328-402 | `rst_to_markdown` of a note is `*Changed in V*`. |
| VersionNote.NoteLooksLikeRst | packages/jupyterlab-lsp/src/features/documentation/rst.ts:85-89 | A note looks like reStructuredText. |
| VersionNote.NoteParsed | packages/jupyterlab-lsp/src/features/documentation/documentation.ts:12-65 | Documentation that is just a note has no signatures, and its body is the note, unless it starts with the signature prefix. |
| VersionNote.NoteShown | packages/jupyterlab-lsp/src/features/documentation/documentation.ts:82-127 | `string_to_markdown` shows a lone note as `*Changed in V*`, whatever `skip_signatures` and `collapse_signatures` are. |
| VersionNote.ChangedInTheDocumentedVersion | packages/jupyterlab-lsp/src/features/documentation/documentation.spec.ts:117-124 | `string_to_markdown('.. versionchanged:: 0.25.0', 'python', 'map()')` is `'*Changed in 0.25.0*'`. |
| VersionNote.ChangedInTheConvertedVersion | packages/jupyterlab-lsp/src/features/documentation/rst.spec.ts:340-344 | `rst_to_markdown('.. versionchanged:: 0.23.0')` is `'*Changed in 0.23.0*'`. |

## Left out

- `packages/jupyterlab-lsp/src/features/diagnostics/index.ts` is not part of this model. It registers a JupyterLab plugin, places widgets and loads translations. That is UI wiring over libraries not shown here.
- A general JavaScript regular-expression engine is not modelled. Only the patterns the converter uses are written out as scanners, with their leftmost-match, greedy and lazy behaviour: the twelve rules of `RST_DIRECTIVES`, `/(\s|\w)::\n/`, the list-item pattern and `/::$/`. `replace` with `$<name>` templates is written out per rule.
- Whitespace follows the fixed set of characters that `\s` and `trim` use in JavaScript. There is no Unicode database.
- BlockParsers.DedentedTail: strings are sequences of characters, not UTF-16 code units, so `substr(indent)` in `consume` (rst.ts:188-190, `BlockParsers.ConsumeLine`) cuts characters, not code units. The two differ when a line of an indented block holds a character outside the Basic Multilingual Plane within the cut. For example, take a block whose first line is `"    a"` (indent 4) and a next line `"  😀b"`. The source cuts four code units and keeps `b`. The model cuts four characters and keeps the empty string. Every other length the code takes (`startsWith`, the prompt prefixes, the section underlines) is of ASCII text and does not depend on this.
- The `BLOCK_PARSERS` objects are module-level singletons in the source, shared by every call.
  - They are modelled as one `ParserTable` passed to `Rst.RstToMarkdown` and `Documentation.StringToMarkdown`. Both require the objects fresh and ensure they are left fresh, so reuse across calls is covered.
  - Concurrent calls are not modelled: the source has none.
- The `throw` in `consume` on a block that has not started is modelled as a precondition of `BlockParsers.BlockParser.Consume`. The converter is proved to meet it, so the error cannot occur from `rst_to_markdown`.
- The default arguments of `string_to_markdown` (`skip_signatures = false`, `collapse_signatures = true`, documentation.ts:86-87) are explicit arguments in the model. `Documentation.ToMarkdown` and `Documentation.StringToMarkdown` take all five. A call with three or four arguments, as in the tests, is the model's call with those defaults filled in.
- The tests' multi-line docstrings (`DELATTR_DOCSTRING`, `MAP_DOCSTRING`, the PEP 287 and NumPy examples) are not restated as Dafny constants, and their whole conversions are not proved. What is proved for all inputs of the matching shape:
  - the See Also example from the buffered lines on, by `RstProperties.SeeAlsoFlushed`, with the list-item rewrite that produces those lines by `RstProperties.ListItemOf`;
  - the link and reference examples one match at a time, by `RstDirectives.LinkMatch` and `RstDirectives.RefMatch`;
  - the one-line `:mod:` example at the level of its rule, by `RstDirectives.ModuleRoleExample`.
  The path of these examples through `rst_to_markdown` (`Rst.Converted`) is not proved, and neither is the effect of the other rules of the table on them.
- RstDirectives.ModuleRoleExample: it states the `:mod:` test for the `:mod:` rule alone, not for the whole `rst_to_markdown` call the test makes.
- RstProperties.SeeAlsoFlushed: it states the See Also test from the flush on, for any list items without inline markup. It does not follow the test's input lines through the loop of `rst_to_markdown`.
- Rst.Advance, Rst.IdleStep, Rst.Step, Rst.Run: their contracts state only the invariant. What they compute is tied to the source by the `Converter` methods proved equal to them and by the lemmas in `RstProperties`.
- Rst.ParserTable.Order: it states each object's kind and membership, not that the objects are distinct. Distinctness is part of `Valid` and is used by `FirstParser`.
- An indented block ends only on a non-empty line whose first character is not whitespace. A line that is less indented than the block but still starts with whitespace does not end it. This is what `canConsume` does (rst.ts:172-177), and the model follows it.
