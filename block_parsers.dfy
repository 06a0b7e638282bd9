/** The block parsers of rst.ts: `BlockParser`, `IndentedBlockParser` and
    the five concrete parsers, as one tagged variant (`Kind`) dispatched by
    matching. The first half gives each operation's meaning on a value of the
    parser's fields (`ParserState`); the class `BlockParser` at the end keeps
    those fields and updates them in place, each method proved to do what the
    corresponding function says. */
module BlockParsers {
  import opened Text
  import RstDirectives

  datatype Kind =
    | PythonPrompt   // PythonPromptCodeBlockParser: `>>>` doctest prompts
    | PythonOutput   // PythonOutputBlockParser: the output after a prompt block
    | Math           // MathBlockParser: `.. math::`
    | ExplicitCode   // ExplicitCodeBlockParser: `.. code-block::`, `.. productionlist::`
    | DoubleColon    // DoubleColonBlockParser: a paragraph ending in `::`

  /** `enclosure`: the fence that opens and closes a block. */
  function Enclosure(k: Kind): string {
    if k == Math then "$$" else "```"
  }

  /** The kinds derived from `IndentedBlockParser`. */
  predicate IsIndented(k: Kind) {
    k == Math || k == ExplicitCode || k == DoubleColon
  }

  /** `follower`: only the prompt parser has one, the output parser. */
  function Follower(k: Kind): Option<Kind> {
    if k == PythonPrompt then Some(PythonOutput) else None
  }

  /** The fields `_buffer`, `_block_started`, `_is_block_beginning` and
      `_block_indent_size` (`None` for `null`). */
  datatype ParserState = ParserState(buffer: seq<string>, started: bool, beginning: bool, indent: Option<nat>)

  /** A parser as constructed, and as `finishConsumption` leaves it. */
  const Fresh := ParserState([], false, false, None)

  /** What the parser methods maintain: an idle parser holds nothing, and a
      started block holds its opening fence as first line. */
  predicate WellFormed(k: Kind, st: ParserState) {
    && (!st.started ==> st == Fresh)
    && (st.started ==> |st.buffer| >= 1 && StartsWith(st.buffer[0], Enclosure(k)))
    && (!IsIndented(k) ==> !st.beginning && st.indent.None?)
    && (st.beginning ==> st.started && st.indent.None?)
  }

  /** `canParse(line)`: whether this parser starts a block on `line`. */
  predicate Opens(k: Kind, line: string) {
    match k
    case PythonPrompt => StartsWith(line, ">>>")
    case PythonOutput => false
    case Math => Trim(line) == ".. math::"
    case ExplicitCode => RstDirectives.Matches(RstDirectives.CodeBlock, line)
    case DoubleColon => EndsWith(TrimRight(line), "::")
  }

  /** `canConsume(line)`: whether the open block takes `line`. */
  predicate Accepts(k: Kind, st: ParserState, line: string) {
    match k
    case PythonPrompt => StartsWith(line, ">>>") || StartsWith(line, "...")
    case PythonOutput => Trim(line) != "" && !StartsWith(line, ">>>")
    case _ => (st.beginning && Trim(line) == "") || (|line| > 0 && IsSpace(line[0])) || |line| == 0
  }

  /** `_stripPrompt`: drops `>>> ` or `... ` (four characters), otherwise three. */
  function StripPrompt(line: string): (r: string)
    ensures StartsWith(line, ">>> ") || StartsWith(line, "... ") ==> line == line[..4] + r
    ensures !(StartsWith(line, ">>> ") || StartsWith(line, "... ")) && |line| >= 3 ==> line == line[..3] + r
    ensures |line| < 3 ==> r == ""
  {
    Substr(line, if StartsWith(line, ">>> ") || StartsWith(line, "... ") then 4 else 3)
  }

  /** `_startBlock(language)`: push the opening fence and mark the block
      started; an indented parser also forgets its indent and expects the
      block's first line. */
  function BlockStart(k: Kind, st: ParserState, language: string): (r: ParserState)
    ensures r.started && r.buffer == st.buffer + [Enclosure(k) + language]
    ensures st == Fresh ==> WellFormed(k, r)
  {
    var begun := st.(buffer := st.buffer + [Enclosure(k) + language], started := true);
    if IsIndented(k) then begun.(indent := None, beginning := true) else begun
  }

  /** `BlockParser.consume`: append a line to the started block. */
  function Pushed(st: ParserState, line: string): ParserState
    requires st.started
  {
    st.(buffer := st.buffer + [line])
  }

  /** `consume(line)` of each kind. The prompt parser strips the prompt; an
      indented parser skips one blank line at the very beginning, fixes the
      indent from the first line it keeps and removes that many characters
      from every line it keeps. */
  function ConsumeLine(k: Kind, st: ParserState, line: string): (r: ParserState)
    requires st.started
    ensures r.started
  {
    match k
    case PythonPrompt => Pushed(st, StripPrompt(line))
    case PythonOutput => Pushed(st, line)
    case _ =>
      if st.beginning && Trim(line) == "" then
        st.(beginning := false)
      else
        var n := if st.indent.Some? then st.indent.value else LeadingSpace(line);
        Pushed(st.(beginning := false, indent := Some(n)), Substr(line, n))
  }

  /** `line.replace(/::$/, '')`: removes `::` only at the very end. */
  function StripColons(line: string): (r: string)
    ensures EndsWith(line, "::") ==> line == r + "::"
    ensures !EndsWith(line, "::") ==> r == line
  {
    if EndsWith(line, "::") then line[..|line| - 2] else line
  }

  /** What `initiateParsing` returns and leaves behind. */
  datatype Opening = Opening(state: ParserState, remainder: string)

  /** The language of a `code-block`/`productionlist` line, or the current one if it names none. */
  function CodeBlockLanguage(line: string, current: string): string
    requires RstDirectives.Matches(RstDirectives.CodeBlock, line)
  {
    var named := Trim(RstDirectives.LanguageGroup(RstDirectives.CodeBlock, line).value);
    if named != "" then named else current
  }

  /** `initiateParsing(line, current_language)` of each kind. */
  function Initiate(k: Kind, st: ParserState, line: string, current: string): (r: Opening)
    requires k == ExplicitCode ==> Opens(k, line)
    ensures r.state.started
    ensures st == Fresh ==> WellFormed(k, r.state)
  {
    match k
    case PythonPrompt => Opening(ConsumeLine(k, BlockStart(k, st, "python"), line), "")
    case PythonOutput => Opening(ConsumeLine(k, BlockStart(k, st, ""), line), "")
    case Math => Opening(BlockStart(k, st, ""), "")
    case ExplicitCode => Opening(BlockStart(k, st, CodeBlockLanguage(line, current)), "")
    case DoubleColon =>
      if Trim(line) == ".. autosummary::" then Opening(BlockStart(k, st, ""), "" + "\n\n")
      else Opening(BlockStart(k, st, current), StripColons(line) + "\n\n")
  }

  /** What `finishConsumption` returns and leaves behind. */
  datatype Closing = Closing(text: string, state: ParserState)

  /** `finishConsumption(final)`: drop a blank last line, push the closing
      fence, join with newlines and add one more newline unless `final`;
      the parser is reset. */
  function Finish(k: Kind, st: ParserState, final: bool): Closing
    requires |st.buffer| >= 1
  {
    var reset := if IsIndented(k) then st.(beginning := false, indent := None) else st;
    var text := Join(DropBlankLast(st.buffer) + [Enclosure(k) + "\n"], '\n');
    Closing(if final then text else text + "\n", reset.(buffer := [], started := false))
  }

  /** The buffer without its last line if that line is blank. */
  function DropBlankLast(buffer: seq<string>): seq<string>
    requires |buffer| >= 1
  {
    if Trim(buffer[|buffer| - 1]) == "" then buffer[..|buffer| - 1] else buffer
  }

  /** The lines a parser takes in one after the other, as `consume` calls in a row. */
  function ConsumeAll(k: Kind, st: ParserState, lines: seq<string>): (r: ParserState)
    requires st.started
    ensures r.started
    decreases |lines|
  {
    if |lines| == 0 then st else ConsumeAll(k, ConsumeLine(k, st, lines[0]), lines[1..])
  }

  /** Every line with `n` characters removed from its start. */
  function Dedent(lines: seq<string>, n: nat): (r: seq<string>)
    ensures |r| == |lines|
  {
    if |lines| == 0 then [] else [Substr(lines[0], n)] + Dedent(lines[1..], n)
  }

  /** Every line with its prompt stripped. */
  function StripPrompts(lines: seq<string>): (r: seq<string>)
    ensures |r| == |lines|
  {
    if |lines| == 0 then [] else [StripPrompt(lines[0])] + StripPrompts(lines[1..])
  }

  // ---------------------------------------------------------------------
  // Properties of the parsers

  /** Consuming a line keeps a started parser well formed, with its opening fence in place. */
  lemma ConsumeKeepsWellFormed(k: Kind, st: ParserState, line: string)
    requires WellFormed(k, st) && st.started
    ensures WellFormed(k, ConsumeLine(k, st, line))
    ensures ConsumeLine(k, st, line).buffer[0] == st.buffer[0]
  {
  }

  /** The opening fence of a block is never blank. */
  lemma FenceNotBlank(k: Kind, fence: string)
    requires StartsWith(fence, Enclosure(k))
    ensures Trim(fence) != ""
  {
    BlankIffAllSpace(fence);
    assert fence[0] == Enclosure(k)[0];
  }

  /** Closing a started block: the text starts with the opening fence and ends
      with the closing fence and a newline, plus one more newline unless the
      block is the final one; at most one line, a blank last one and never
      the opening fence, is dropped; the parser is back to its fresh state. */
  lemma FinishShape(k: Kind, st: ParserState, final: bool)
    requires WellFormed(k, st) && st.started
    ensures var c := Finish(k, st, final);
      var tail := Enclosure(k) + "\n" + (if final then "" else "\n");
      && c.state == Fresh
      && StartsWith(c.text, st.buffer[0])
      && EndsWith(c.text, tail)
      && (|| c.text == Join(st.buffer, '\n') + ("\n" + tail)
          || (&& |st.buffer| >= 2
              && Trim(st.buffer[|st.buffer| - 1]) == ""
              && c.text == Join(st.buffer[..|st.buffer| - 1], '\n') + ("\n" + tail)))
  {
    var b := st.buffer;
    var kept := DropBlankLast(b);
    KeepsFence(k, st);
    FinishText(k, st, final);
    JoinStartsWithFirst(kept, '\n');
    FenceAndTail(Join(kept, '\n'), b[0], Enclosure(k) + "\n" + (if final then "" else "\n"));
  }

  /** Dropping a blank last line never drops the opening fence. */
  lemma KeepsFence(k: Kind, st: ParserState)
    requires WellFormed(k, st) && st.started
    ensures |DropBlankLast(st.buffer)| >= 1 && DropBlankLast(st.buffer)[0] == st.buffer[0]
  {
    FenceNotBlank(k, st.buffer[0]);
  }

  /** The text of a closed block: the kept lines, a newline and the closing fence. */
  lemma FinishText(k: Kind, st: ParserState, final: bool)
    requires |st.buffer| >= 1 && |DropBlankLast(st.buffer)| >= 1
    ensures Finish(k, st, final).text
      == Join(DropBlankLast(st.buffer), '\n') + ("\n" + (Enclosure(k) + "\n" + (if final then "" else "\n")))
  {
    var close := Enclosure(k) + "\n";
    JoinAppend(DropBlankLast(st.buffer), close, '\n');
  }

  lemma FenceAndTail(j: string, fence: string, tail: string)
    requires StartsWith(j, fence)
    ensures StartsWith(j + ("\n" + tail), fence) && EndsWith(j + ("\n" + tail), tail)
  {
    StartsWithAppend(j, "\n" + tail, fence);
    assert (j + ("\n" + tail))[|j| + 1..] == tail;
  }

  /** A join starts with its first piece. */
  lemma JoinStartsWithFirst(lines: seq<string>, sep: char)
    requires |lines| >= 1
    ensures StartsWith(Join(lines, sep), lines[0])
  {
  }

  /** Whatever the beginning flag, an indented parser takes exactly the
      empty lines and the lines whose first character is whitespace (a blank
      line at the beginning is one of them). */
  lemma IndentedAcceptance(k: Kind, st: ParserState, line: string)
    requires IsIndented(k)
    ensures Accepts(k, st, line) <==> (line == "" || IsSpace(line[0]))
  {
    BlankIffAllSpace(line);
  }

  /** The body of an indented block: one leading blank line is skipped, the
      first line kept fixes the indent to its leading-whitespace length, and
      exactly that many characters are removed from every line kept. */
  lemma IndentedBlockBody(k: Kind, language: string, lines: seq<string>)
    requires IsIndented(k)
    ensures var kept := if |lines| > 0 && Trim(lines[0]) == "" then lines[1..] else lines;
      var n := if |kept| > 0 then LeadingSpace(kept[0]) else 0;
      ConsumeAll(k, BlockStart(k, Fresh, language), lines).buffer
        == [Enclosure(k) + language] + Dedent(kept, n)
  {
    var st0 := BlockStart(k, Fresh, language);
    if |lines| > 0 {
      if Trim(lines[0]) == "" {
        var st1 := st0.(beginning := false);
        assert ConsumeLine(k, st0, lines[0]) == st1;
        if |lines| > 1 {
          FirstKeptLine(k, st1, lines[1..]);
        }
      } else {
        FirstKeptLine(k, st0, lines);
      }
    }
  }

  /** The first line an indented parser keeps fixes the indent for the whole block. */
  lemma FirstKeptLine(k: Kind, st: ParserState, lines: seq<string>)
    requires IsIndented(k) && st.started && st.indent.None? && |lines| > 0
    requires st.beginning ==> Trim(lines[0]) != ""
    ensures ConsumeAll(k, st, lines).buffer == st.buffer + Dedent(lines, LeadingSpace(lines[0]))
  {
    var n := LeadingSpace(lines[0]);
    var st1 := FirstIndentedStep(k, st, lines[0]);
    assert ConsumeAll(k, st, lines) == ConsumeAll(k, st1, lines[1..]);
    DedentedTail(k, st1, lines[1..], n);
    DedentCons(lines, n);
  }

  lemma FirstIndentedStep(k: Kind, st: ParserState, line: string) returns (st1: ParserState)
    requires IsIndented(k) && st.started && st.indent.None?
    requires st.beginning ==> Trim(line) != ""
    ensures st1 == ConsumeLine(k, st, line)
    ensures st1 == st.(beginning := false, indent := Some(LeadingSpace(line)),
      buffer := st.buffer + [Substr(line, LeadingSpace(line))])
  {
    st1 := ConsumeLine(k, st, line);
  }

  lemma DedentCons(lines: seq<string>, n: nat)
    requires |lines| > 0
    ensures forall b: seq<string> :: (b + [Substr(lines[0], n)]) + Dedent(lines[1..], n) == b + Dedent(lines, n)
  {
  }

  /** Once the indent is fixed at `n`, each line is kept with `n` characters removed. */
  lemma {:induction false} DedentedTail(k: Kind, st: ParserState, lines: seq<string>, n: nat)
    requires IsIndented(k) && st.started && !st.beginning && st.indent == Some(n)
    ensures ConsumeAll(k, st, lines).buffer == st.buffer + Dedent(lines, n)
    decreases |lines|
  {
    if |lines| > 0 {
      var x := Substr(lines[0], n);
      var st1 := st.(buffer := st.buffer + [x]);
      assert ConsumeLine(k, st, lines[0]) == st1;
      DedentedTail(k, st1, lines[1..], n);
      assert Dedent(lines, n) == [x] + Dedent(lines[1..], n);
      assert st1.buffer + Dedent(lines[1..], n) == st.buffer + Dedent(lines, n);
    }
  }

  /** A prompt block keeps each line with its prompt stripped. */
  lemma {:induction false} PromptBlockBody(st: ParserState, lines: seq<string>)
    requires st.started
    ensures ConsumeAll(PythonPrompt, st, lines).buffer == st.buffer + StripPrompts(lines)
    decreases |lines|
  {
    if |lines| > 0 {
      var x := StripPrompt(lines[0]);
      PromptBlockBody(Pushed(st, x), lines[1..]);
      assert (st.buffer + [x]) + StripPrompts(lines[1..]) == st.buffer + StripPrompts(lines);
    }
  }

  /** The output parser never opens a block by itself, and it takes exactly
      the non-blank lines that are not prompts. */
  lemma OutputAcceptance(st: ParserState, line: string)
    ensures !Opens(PythonOutput, line)
    ensures Accepts(PythonOutput, st, line) <==> !AllSpace(line) && !StartsWith(line, ">>>")
  {
    BlankIffAllSpace(line);
  }

  /** Every line that opens a prompt block is also one it takes. */
  lemma PromptOpensAccepts(st: ParserState, line: string)
    ensures Opens(PythonPrompt, line) ==> Accepts(PythonPrompt, st, line)
  {
  }

  /** Opening a `::` block: an `autosummary` directive yields an unlabelled
      fence and only the blank separator; any other line yields itself minus
      a final `::`, then the separator, and the current language's fence. */
  lemma DoubleColonOpening(line: string, current: string)
    ensures var o := Initiate(DoubleColon, Fresh, line, current);
      && (Trim(line) == ".. autosummary::" ==>
            o.remainder == "\n\n" && o.state.buffer == ["```"])
      && (Trim(line) != ".. autosummary::" ==>
            o.state.buffer == ["```" + current]
            && (EndsWith(line, "::") ==> line == o.remainder[..|o.remainder| - 2] + "::")
            && (!EndsWith(line, "::") ==> o.remainder == line + "\n\n"))
  {
    assert "```" + "" == "```";
    var rest := StripColons(line);
    assert (rest + "\n\n")[..|rest|] == rest;
  }

  /** A `::` block opens exactly on a line whose right-trimmed form ends in `::`. */
  lemma DoubleColonTrigger(line: string)
    ensures Opens(DoubleColon, line)
      <==> exists i :: 0 <= i < |line| - 1 && line[i] == ':' && line[i + 1] == ':' && AllSpace(line[i + 2..])
  {
    if Opens(DoubleColon, line) {
      var i := DoubleColonFound(line);
    }
    if exists i :: 0 <= i < |line| - 1 && line[i] == ':' && line[i + 1] == ':' && AllSpace(line[i + 2..]) {
      var i :| 0 <= i < |line| - 1 && line[i] == ':' && line[i + 1] == ':' && AllSpace(line[i + 2..]);
      DoubleColonAt(line, i);
    }
  }

  /** Where the `::` of an opening line is: right before its trailing whitespace. */
  lemma DoubleColonFound(line: string) returns (i: nat)
    requires Opens(DoubleColon, line)
    ensures i < |line| - 1 && line[i] == ':' && line[i + 1] == ':' && AllSpace(line[i + 2..])
  {
    var t := TrimRight(line);
    TrimRightSpec(line);
    i := |t| - 2;
    assert t[i..] == "::";
    assert line[i] == t[i] && line[i + 1] == t[i + 1];
    assert line[i + 2..] == line[|t|..];
  }

  /** A `::` followed by nothing but whitespace opens a block. */
  lemma DoubleColonAt(line: string, i: nat)
    requires i < |line| - 1 && line[i] == ':' && line[i + 1] == ':' && AllSpace(line[i + 2..])
    ensures Opens(DoubleColon, line)
  {
    TrimRightKeeps(line, i + 2);
    assert TrimRight(line)[|TrimRight(line)| - 2..] == [line[i], line[i + 1]];
  }


  // ---------------------------------------------------------------------
  // The parser objects

  /** One parser object. Its `kind` selects the behaviour of the concrete
      class; the mutable fields are those of `BlockParser` and
      `IndentedBlockParser`. */
  class BlockParser {
    const kind: Kind
    const follower: BlockParser?
    var buffer: seq<string>
    var blockStarted: bool
    var isBlockBeginning: bool
    var blockIndentSize: Option<nat>

    function State(): ParserState
      reads this
    {
      ParserState(buffer, blockStarted, isBlockBeginning, blockIndentSize)
    }

    /** A parser without follower. */
    constructor (kind: Kind)
      ensures this.kind == kind && follower == null && State() == Fresh
    {
      this.kind := kind;
      follower := null;
      buffer, blockStarted, isBlockBeginning, blockIndentSize := [], false, false, None;
    }

    /** The prompt parser, which creates its own output parser as follower. */
    constructor Prompt()
      ensures kind == PythonPrompt && State() == Fresh
      ensures follower != null && fresh(follower)
      ensures follower.kind == PythonOutput && follower.follower == null && follower.State() == Fresh
    {
      kind := PythonPrompt;
      follower := new BlockParser(PythonOutput);
      buffer, blockStarted, isBlockBeginning, blockIndentSize := [], false, false, None;
    }

    function CanParse(line: string): bool {
      Opens(kind, line)
    }

    predicate CanConsume(line: string)
      reads this
    {
      Accepts(kind, State(), line)
    }

    /** `_startBlock(language)` */
    method StartBlock(language: string)
      modifies this
      ensures State() == BlockStart(kind, old(State()), language)
    {
      buffer := buffer + [Enclosure(kind) + language];
      blockStarted := true;
      if IsIndented(kind) {
        blockIndentSize := None;
        isBlockBeginning := true;
      }
    }

    /** `BlockParser.consume`: consuming before the block started is a
        programming error in the source (it throws). */
    method Push(line: string)
      requires blockStarted
      modifies this
      ensures State() == Pushed(old(State()), line)
    {
      buffer := buffer + [line];
    }

    /** `consume(line)` of the concrete parser. */
    method Consume(line: string)
      requires blockStarted
      modifies this
      ensures State() == ConsumeLine(kind, old(State()), line)
    {
      match kind
      case PythonPrompt => Push(StripPrompt(line));
      case PythonOutput => Push(line);
      case _ =>
        if isBlockBeginning {
          isBlockBeginning := false;
          if Trim(line) == "" {
            return;
          }
        }
        if blockIndentSize.None? {
          blockIndentSize := Some(LeadingSpace(line));
        }
        Push(Substr(line, blockIndentSize.value));
    }

    /** `initiateParsing(line, current_language)` of the concrete parser. */
    method InitiateParsing(line: string, currentLanguage: string) returns (remainder: string)
      requires kind == ExplicitCode ==> CanParse(line)
      modifies this
      ensures State() == Initiate(kind, old(State()), line, currentLanguage).state
      ensures remainder == Initiate(kind, old(State()), line, currentLanguage).remainder
    {
      match kind
      case PythonPrompt =>
        StartBlock("python");
        Consume(line);
        remainder := "";
      case PythonOutput =>
        StartBlock("");
        Consume(line);
        remainder := "";
      case Math =>
        StartBlock("");
        remainder := "";
      case ExplicitCode =>
        StartBlock(CodeBlockLanguage(line, currentLanguage));
        remainder := "";
      case DoubleColon =>
        var language := currentLanguage;
        var rest := line;
        if Trim(line) == ".. autosummary::" {
          language := "";
          rest := "";
        } else {
          rest := StripColons(line);
        }
        StartBlock(language);
        remainder := rest + "\n\n";
    }

    /** `finishConsumption(final)` */
    method FinishConsumption(final: bool) returns (result: string)
      requires |buffer| >= 1
      modifies this
      ensures result == Finish(kind, old(State()), final).text
      ensures State() == Finish(kind, old(State()), final).state
    {
      if IsIndented(kind) {
        isBlockBeginning := false;
        blockIndentSize := None;
      }
      if Trim(buffer[|buffer| - 1]) == "" {
        buffer := buffer[..|buffer| - 1];
      }
      buffer := buffer + [Enclosure(kind) + "\n"];
      result := Join(buffer, '\n');
      if !final {
        result := result + "\n";
      }
      buffer := [];
      blockStarted := false;
    }
  }
}
