/** `rst_to_markdown` and `looks_like_rst` of rst.ts: the line-by-line
    conversion of a reStructuredText docstring to Markdown. Lines that belong
    to no block collect in a buffer; when a block starts or the input ends the
    buffer is flushed through the directive table, the section-heading
    rewrite and the indentation fix. The first half states the conversion on
    values (`Step`, `Run`, `Converted`); `Converter` and `RstToMarkdown` run
    it on the shared parser objects. */
module Rst {
  import opened Text
  import opened BlockParsers
  import D = RstDirectives

  /** `_RST_SECTIONS`, in order. */
  const SectionNames: seq<string> :=
    ["Parameters", "Returns", "See Also", "Examples", "Attributes", "Notes", "References"]

  /** A value of `RST_SECTIONS`: the title on a line of its own, underlined
      with as many dashes (no newline after the dashes). */
  function SectionHeader(name: string): string {
    "\n" + name + "\n" + Dashes(|name|)
  }

  /** What a section header is rewritten to. */
  function SectionHeading(name: string): string {
    "\n#### " + name + "\n"
  }

  /** `NBSP_INDENT`: four no-break spaces, rewritten to four plain spaces. */
  const NbspIndent: string := ['\U{00A0}', '\U{00A0}', '\U{00A0}', '\U{00A0}']

  const FourSpaces: string := "    "

  // ---------------------------------------------------------------------
  // looks_like_rst

  /** A section title followed by its underline and a newline. */
  predicate HasUnderlinedSection(value: string) {
    exists i :: 0 <= i < |SectionNames| && Contains(value, SectionNames[i] + "\n" + Dashes(|SectionNames[i]|) + "\n")
  }

  /** Some rule of the directive table matches. */
  predicate HasDirective(value: string) {
    exists i :: 0 <= i < |D.Table| && D.Matches(D.Table[i], value)
  }

  /** `/(\s|\w)::\n/`: `::` ends a line and follows whitespace or a word character. */
  predicate HasLiteralMarker(value: string) {
    exists i :: 0 <= i < |value| - 3 && (IsSpace(value[i]) || IsWordChar(value[i])) && StartsAt(value, i + 1, "::\n")
  }

  /** `looks_like_rst(value)` */
  predicate LooksLikeRst(value: string) {
    || HasUnderlinedSection(value)
    || HasDirective(value)
    || HasLiteralMarker(value)
    || Contains(value, "\n>>> ")
  }

  // ---------------------------------------------------------------------
  // flush_buffer

  /** The section headers of `names` rewritten one after the other, first occurrence each. */
  function RewriteSections(text: string, names: seq<string>): string {
    if |names| == 0 then text
    else
      var name := names[|names| - 1];
      ReplaceFirst(RewriteSections(text, names[..|names| - 1]), SectionHeader(name), SectionHeading(name))
  }

  /** `flush_buffer()`: what the buffered lines turn into. */
  function Flush(buffer: seq<string>): string {
    var marked := D.ApplyAll(Join(buffer, '\n'), D.Table);
    ReplaceFirst(RewriteSections(marked, SectionNames), NbspIndent, FourSpaces)
  }

  // ---------------------------------------------------------------------
  // The pieces of one step

  /** `BLOCK_PARSERS`, by kind, in the order they are tried. */
  const ParserOrder: seq<Kind> := [PythonPrompt, Math, ExplicitCode, DoubleColon]

  /** The first kind of `kinds` whose parser opens a block on `line`. */
  function FirstOpening(kinds: seq<Kind>, line: string): (r: Option<Kind>)
    ensures r.Some? ==> r.value in kinds && Opens(r.value, line)
  {
    if |kinds| == 0 then None
    else if Opens(kinds[0], line) then Some(kinds[0])
    else FirstOpening(kinds[1..], line)
  }

  /** `FirstOpening` finds the first kind in the list that opens a block on `line`. */
  lemma {:induction false} FirstOpeningSpec(kinds: seq<Kind>, line: string)
    ensures var r := FirstOpening(kinds, line);
      && (r.Some? ==> exists i :: 0 <= i < |kinds| && kinds[i] == r.value && Opens(kinds[i], line)
                         && forall j :: 0 <= j < i ==> !Opens(kinds[j], line))
      && (r.None? ==> forall i :: 0 <= i < |kinds| ==> !Opens(kinds[i], line))
    decreases |kinds|
  {
    if |kinds| > 0 && !Opens(kinds[0], line) {
      FirstOpeningSpec(kinds[1..], line);
      assert forall i :: 1 <= i < |kinds| ==> kinds[i] == kinds[1..][i - 1];
      if FirstOpening(kinds, line).Some? {
        var i :| 0 <= i < |kinds[1..]| && kinds[1..][i] == FirstOpening(kinds, line).value && Opens(kinds[1..][i], line)
                 && forall j :: 0 <= j < i ==> !Opens(kinds[1..][j], line);
        assert kinds[i + 1] == FirstOpening(kinds, line).value;
      }
    }
  }

  /** `^(?<argument>[^: ]+) : (?<type>.+)$` on the left-trimmed line: a
      NumPy parameter line, turned into a list item. */
  function ListItem(trimmed: string): Option<string> {
    var e := RunEnd(trimmed, 0, AtColonOrSpace);
    if 0 < e && StartsAt(trimmed, e, " : ") && e + 3 < |trimmed|
       && RunEnd(trimmed, e + 3, AtLineTerminator) == |trimmed|
    then Some("- `" + trimmed[..e] + "`: " + trimmed[e + 3..])
    else None
  }

  /** The language a `highlight` directive on `line` switches to, if it names one. */
  function HighlightLanguage(line: string): Option<string> {
    match D.LanguageGroup(D.Highlight, line)
    case None => None
    case Some(group) => if Trim(group) != "" then Some(Trim(group)) else None
  }

  // ---------------------------------------------------------------------
  // The conversion on values

  /** The parser that holds the open block, and its fields. */
  datatype Active = Active(kind: Kind, parser: ParserState)

  /** The local state of `rst_to_markdown`: the highlight language, the
      Markdown produced so far, the active parser (the others are in their
      fresh state) and the lines not yet flushed. */
  datatype Conversion = Conversion(language: string, markdown: string, active: Option<Active>, linesBuffer: seq<string>)

  const Initial := Conversion("python", "", None, [])

  /** The active parser holds a started, well-formed block. */
  predicate Inv(c: Conversion) {
    c.active.Some? ==> c.active.value.parser.started && WellFormed(c.active.value.kind, c.active.value.parser)
  }

  /** The first half of the loop body: the active parser takes the line, or
      the buffer and the block are flushed and the follower, if any, takes
      over starting with this line. */
  function Advance(c: Conversion, line: string): (r: Conversion)
    requires Inv(c)
    ensures Inv(r)
  {
    match c.active
    case None => c
    case Some(a) =>
      if Accepts(a.kind, a.parser, line) then
        c.(active := Some(Active(a.kind, ConsumeLine(a.kind, a.parser, line))))
      else
        var md := c.markdown + Flush(c.linesBuffer) + Finish(a.kind, a.parser, false).text;
        Conversion(c.language, md, Handover(a.kind, line, c.language), [])
  }

  /** The block the follower of a closed `k` block opens with the rejected line. */
  function Handover(k: Kind, line: string, language: string): (r: Option<Active>)
    ensures r.Some? ==> r.value.parser.started && WellFormed(r.value.kind, r.value.parser)
  {
    match Follower(k)
    case Some(f) => Some(Active(f, Initiate(f, Fresh, line, language).state))
    case None => None
  }

  /** What the loop over `BLOCK_PARSERS` leaves: the parser that started a
      block, if any, and the line that goes on (its remainder). */
  datatype Opened = Opened(active: Option<Active>, line: string)

  function OpenBlock(line: string, language: string): (r: Opened)
    ensures r.active.Some? ==> r.active.value.parser.started && WellFormed(r.active.value.kind, r.active.value.parser)
  {
    match FirstOpening(ParserOrder, line)
    case None => Opened(None, line)
    case Some(k) =>
      var o := Initiate(k, Fresh, line, language);
      Opened(Some(Active(k, o.state)), o.remainder)
  }

  /** The block the chosen parser opens and the remainder it leaves. */
  lemma OpenBlockBy(line: string, language: string, k: Kind)
    requires FirstOpening(ParserOrder, line) == Some(k)
    ensures Opens(k, line)
    ensures OpenBlock(line, language)
      == Opened(Some(Active(k, Initiate(k, Fresh, line, language).state)), Initiate(k, Fresh, line, language).remainder)
  {
  }

  /** The second half, with no block open: the first parser that can
      starts a block and the line is replaced by its remainder; a parameter
      line becomes a list item; a `highlight` directive changes the language;
      the line is buffered. */
  function IdleStep(c: Conversion, line: string): (r: Conversion)
    requires c.active.None?
    ensures Inv(r)
  {
    var block := OpenBlock(line, c.language);
    var item := ListItem(TrimLeft(line));
    var pushed := if item.Some? then item.value else block.line;
    var language := match HighlightLanguage(pushed) case Some(l) => l case None => c.language;
    Conversion(language, c.markdown, block.active, c.linesBuffer + [pushed])
  }

  /** One iteration of the loop over the lines. */
  function Step(c: Conversion, line: string): (r: Conversion)
    requires Inv(c)
    ensures Inv(r)
  {
    var c1 := Advance(c, line);
    if c1.active.None? then IdleStep(c1, line) else c1
  }

  /** The state after the loop has seen `lines`. */
  function Run(lines: seq<string>): (r: Conversion)
    ensures Inv(r)
  {
    if |lines| == 0 then Initial else Step(Run(lines[..|lines| - 1]), lines[|lines| - 1])
  }

  /** After the loop: flush the buffer and close the open block as the final one. */
  function Finalize(c: Conversion): string
    requires Inv(c)
  {
    var md := c.markdown + Flush(c.linesBuffer);
    match c.active
    case None => md
    case Some(a) => md + Finish(a.kind, a.parser, true).text
  }

  /** `rst_to_markdown(text)` */
  function Converted(text: string): string {
    Finalize(Run(Split(text, '\n')))
  }

  // ---------------------------------------------------------------------
  // The parser objects and the converter

  /** `BLOCK_PARSERS`: the module's parser objects, shared by all calls, and
      the output parser the prompt parser owns. */
  class ParserTable {
    const prompt: BlockParser
    const output: BlockParser
    const math: BlockParser
    const explicitCode: BlockParser
    const doubleColon: BlockParser

    function Objects(): set<object> {
      {prompt, output, math, explicitCode, doubleColon}
    }

    /** Each object has its kind, only the prompt parser has a follower, and
        the five are distinct. */
    predicate Valid() {
      && prompt.kind == PythonPrompt && prompt.follower == output
      && output.kind == PythonOutput && output.follower == null
      && math.kind == Math && math.follower == null
      && explicitCode.kind == ExplicitCode && explicitCode.follower == null
      && doubleColon.kind == DoubleColon && doubleColon.follower == null
    }

    predicate AllFresh()
      reads Objects()
    {
      && prompt.State() == Fresh && output.State() == Fresh && math.State() == Fresh
      && explicitCode.State() == Fresh && doubleColon.State() == Fresh
    }

    /** The parsers in the order `rst_to_markdown` tries them. */
    function Order(): (r: seq<BlockParser>)
      ensures |r| == |ParserOrder|
      ensures Valid() ==> forall i :: 0 <= i < |r| ==> r[i].kind == ParserOrder[i] && r[i] in Objects()
    {
      [prompt, math, explicitCode, doubleColon]
    }

    /** The loop over `BLOCK_PARSERS` that looks for a parser to start a block on `line`. */
    method FirstParser(line: string) returns (chosen: BlockParser?)
      requires Valid()
      ensures chosen == null <==> FirstOpening(ParserOrder, line).None?
      ensures chosen != null ==> chosen in Objects() && chosen != output && Some(chosen.kind) == FirstOpening(ParserOrder, line)
    {
      var order := Order();
      chosen := null;
      var k := 0;
      while k < |order| && chosen == null
        invariant 0 <= k <= |order|
        invariant chosen == null ==> FirstOpening(ParserOrder[k..], line) == FirstOpening(ParserOrder, line)
        invariant chosen != null ==> chosen in order && FirstOpening(ParserOrder, line) == Some(chosen.kind)
        decreases |order| - k
      {
        if order[k].CanParse(line) {
          chosen := order[k];
        } else {
          assert ParserOrder[k..][1..] == ParserOrder[k + 1..];
        }
        k := k + 1;
      }
    }

    constructor ()
      ensures Valid() && AllFresh()
      ensures fresh(Objects())
    {
      var p := new BlockParser.Prompt();
      prompt := p;
      output := p.follower;
      math := new BlockParser(Math);
      explicitCode := new BlockParser(ExplicitCode);
      doubleColon := new BlockParser(DoubleColon);
    }
  }

  /** The local variables of one `rst_to_markdown` call, which `flush_buffer`
      shares as a closure. */
  class Converter {
    const parsers: ParserTable
    var language: string
    var markdown: string
    var activeParser: BlockParser?
    var linesBuffer: seq<string>

    /** Only the active parser holds a block, and that block is started and well formed. */
    predicate Valid()
      reads this, parsers.Objects()
    {
      && parsers.Valid()
      && (activeParser == null || activeParser in parsers.Objects())
      && (activeParser != null ==> activeParser.blockStarted && WellFormed(activeParser.kind, activeParser.State()))
      && (parsers.prompt != activeParser ==> parsers.prompt.State() == Fresh)
      && (parsers.output != activeParser ==> parsers.output.State() == Fresh)
      && (parsers.math != activeParser ==> parsers.math.State() == Fresh)
      && (parsers.explicitCode != activeParser ==> parsers.explicitCode.State() == Fresh)
      && (parsers.doubleColon != activeParser ==> parsers.doubleColon.State() == Fresh)
    }

    function Spec(): Conversion
      reads this, activeParser
    {
      var active := if activeParser == null then None else Some(Active(activeParser.kind, activeParser.State()));
      Conversion(language, markdown, active, linesBuffer)
    }

    constructor (parsers: ParserTable)
      requires parsers.Valid() && parsers.AllFresh()
      ensures this.parsers == parsers && Valid() && Spec() == Initial
    {
      this.parsers := parsers;
      language, markdown, activeParser, linesBuffer := "python", "", null, [];
    }

    /** `flush_buffer()` */
    method FlushBuffer() returns (lines: string)
      modifies this
      ensures lines == Flush(old(linesBuffer)) && linesBuffer == []
      ensures language == old(language) && markdown == old(markdown) && activeParser == old(activeParser)
    {
      lines := Join(linesBuffer, '\n');
      lines := ApplyDirectives(lines);
      lines := RewriteSectionHeaders(lines);
      lines := ReplaceFirst(lines, NbspIndent, FourSpaces);
      linesBuffer := [];
    }

    /** The first half of the loop body (`if (active_parser)`). */
    method Continue(line: string)
      requires Valid()
      modifies this, parsers.Objects()
      ensures Valid() && Spec() == Advance(old(Spec()), line)
    {
      if activeParser != null {
        if activeParser.CanConsume(line) {
          ConsumeKeepsWellFormed(activeParser.kind, activeParser.State(), line);
          activeParser.Consume(line);
        } else {
          CloseBlock(line);
        }
      }
    }

    /** The active parser rejects `line`: flush, close the block, and hand
        over to the follower, if any, starting with this line. */
    method CloseBlock(line: string)
      requires Valid() && activeParser != null && !activeParser.CanConsume(line)
      modifies this, parsers.Objects()
      ensures Valid() && Spec() == Advance(old(Spec()), line)
    {
      FinishBlock();
      HandOver(line);
    }

    /** `markdown += flush_buffer(); markdown += active_parser.finishConsumption(false)` */
    method FinishBlock()
      requires Valid() && activeParser != null
      modifies this, activeParser
      ensures activeParser == old(activeParser) && parsers.AllFresh()
      ensures markdown == old(markdown) + Flush(old(linesBuffer)) + Finish(activeParser.kind, old(activeParser.State()), false).text
      ensures linesBuffer == [] && language == old(language)
    {
      var flushed := FlushBuffer();
      var closing := activeParser.FinishConsumption(false);
      markdown := markdown + flushed + closing;
    }

    /** The parser of the closed block gives way to its follower, if any,
        which begins its own block with the rejected line. */
    method HandOver(line: string)
      requires parsers.Valid() && parsers.AllFresh() && activeParser != null && activeParser in parsers.Objects()
      modifies this, parsers.output
      ensures Valid() && Spec().active == Handover(old(activeParser.kind), line, language)
      ensures language == old(language) && markdown == old(markdown) && linesBuffer == old(linesBuffer)
    {
      if activeParser.follower != null {
        activeParser := activeParser.follower;
        var _ := activeParser.InitiateParsing(line, language);
      } else {
        activeParser := null;
      }
    }

    /** The second half of the loop body (`if (!active_parser)`). */
    method Start(line: string)
      requires Valid() && activeParser == null
      modifies this, parsers.Objects()
      ensures Valid() && Spec() == IdleStep(old(Spec()), line)
    {
      var trimmedLine := TrimLeft(line);
      var current := SelectAndInitiate(line);
      var item := ListItem(trimmedLine);
      if item.Some? {
        current := item.value;
      }
      var highlight := HighlightLanguage(current);
      if highlight.Some? {
        SetLanguage(highlight.value);
      }
      Buffer(current);
    }

    method SetLanguage(newLanguage: string)
      requires Valid()
      modifies this
      ensures Valid() && Spec() == old(Spec()).(language := newLanguage)
    {
      language := newLanguage;
    }

    method Buffer(line: string)
      requires Valid()
      modifies this
      ensures Valid() && Spec() == old(Spec()).(linesBuffer := old(linesBuffer) + [line])
    {
      linesBuffer := linesBuffer + [line];
    }

    /** The loop over `BLOCK_PARSERS`: the first parser that can parse `line`
        becomes the active one and starts its block. */
    method SelectAndInitiate(line: string) returns (remainder: string)
      requires Valid() && activeParser == null
      modifies this, parsers.Objects()
      ensures Valid()
      ensures OpenBlock(line, old(language)) == Opened(Spec().active, remainder)
      ensures language == old(language) && markdown == old(markdown) && linesBuffer == old(linesBuffer)
    {
      remainder := line;
      var chosen := parsers.FirstParser(line);
      if chosen != null {
        OpenBlockBy(line, language, chosen.kind);
        remainder := Activate(chosen, line);
      }
    }

    /** The chosen parser becomes the active one and starts its block on `line`. */
    method Activate(chosen: BlockParser, line: string) returns (remainder: string)
      requires parsers.Valid() && parsers.AllFresh() && activeParser == null
      requires chosen in parsers.Objects() && chosen != parsers.output && Opens(chosen.kind, line)
      modifies this, chosen
      ensures Valid() && activeParser == chosen
      ensures Opened(Some(Active(chosen.kind, chosen.State())), remainder)
        == (var o := Initiate(chosen.kind, Fresh, line, language); Opened(Some(Active(chosen.kind, o.state)), o.remainder))
      ensures language == old(language) && markdown == old(markdown) && linesBuffer == old(linesBuffer)
    {
      activeParser := chosen;
      remainder := activeParser.InitiateParsing(line, language);
    }

    /** One iteration of the loop over the lines. */
    method ProcessLine(line: string)
      requires Valid()
      modifies this, parsers.Objects()
      ensures Valid() && Spec() == Step(old(Spec()), line)
    {
      Continue(line);
      if activeParser == null {
        Start(line);
      }
    }

    /** After the loop: flush and close the open block as the final one. */
    method Close() returns (result: string)
      requires Valid()
      modifies this, parsers.Objects()
      ensures result == Finalize(old(Spec()))
      ensures parsers.AllFresh()
    {
      var flushed := FlushBuffer();
      markdown := markdown + flushed;
      if activeParser != null {
        var closing := activeParser.FinishConsumption(true);
        markdown := markdown + closing;
      }
      result := markdown;
    }
  }

  /** The loop of `flush_buffer` over the directive table. */
  method ApplyDirectives(text: string) returns (lines: string)
    ensures lines == D.ApplyAll(text, D.Table)
  {
    lines := text;
    for i := 0 to |D.Table|
      invariant lines == D.ApplyAll(text, D.Table[..i])
    {
      lines := D.Apply(D.Table[i], lines);
      assert D.Table[..i + 1][..i] == D.Table[..i];
    }
    assert D.Table[..|D.Table|] == D.Table;
  }

  /** The loop of `flush_buffer` over the section headers. */
  method RewriteSectionHeaders(text: string) returns (lines: string)
    ensures lines == RewriteSections(text, SectionNames)
  {
    lines := text;
    for j := 0 to |SectionNames|
      invariant lines == RewriteSections(text, SectionNames[..j])
    {
      var section := SectionNames[j];
      lines := ReplaceFirst(lines, SectionHeader(section), SectionHeading(section));
      assert SectionNames[..j + 1][..j] == SectionNames[..j];
    }
    assert SectionNames[..|SectionNames|] == SectionNames;
  }

  /** `rst_to_markdown(text)` on the shared parsers, which it leaves fresh
      again: reusing them across calls is the same as starting anew. */
  method RstToMarkdown(text: string, parsers: ParserTable) returns (markdown: string)
    requires parsers.Valid() && parsers.AllFresh()
    modifies parsers.Objects()
    ensures markdown == Converted(text)
    ensures parsers.AllFresh()
  {
    var conversion := new Converter(parsers);
    var lines := Split(text, '\n');
    for i := 0 to |lines|
      invariant conversion.parsers == parsers
      invariant conversion.Valid() && conversion.Spec() == Run(lines[..i])
    {
      assert Run(lines[..i + 1]) == Step(Run(lines[..i]), lines[i]) by {
        assert lines[..i + 1][..i] == lines[..i];
      }
      conversion.ProcessLine(lines[i]);
    }
    assert lines[..|lines|] == lines;
    markdown := conversion.Close();
  }
}
