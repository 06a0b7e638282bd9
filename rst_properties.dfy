/** What `looks_like_rst` and `rst_to_markdown` promise, stated on the
    value-level conversion of module `Rst`. */
module RstProperties {
  import opened Text
  import opened BlockParsers
  import opened Rst
  import D = RstDirectives

  // ---------------------------------------------------------------------
  // looks_like_rst

  /** A single line without a directive marker and without backticks is not
      reStructuredText: every other test needs a line break. */
  lemma SingleLineIsNotRst(value: string)
    requires '\n' !in value && !Contains(value, ".. ") && '`' !in value
    ensures !LooksLikeRst(value)
  {
    forall i | 0 <= i < |SectionNames|
      ensures !Contains(value, SectionNames[i] + "\n" + Dashes(|SectionNames[i]|) + "\n")
    {
      var pattern := SectionNames[i] + "\n" + Dashes(|SectionNames[i]|) + "\n";
      assert pattern[|SectionNames[i]|] == '\n';
      AbsentChar(value, pattern, '\n');
    }
    forall i | 0 <= i < |D.Table|
      ensures !D.Matches(D.Table[i], value)
    {
      D.NoMarkerNoMatch(D.Table[i], value);
    }
    forall j | 1 <= j < |value| - 2
      ensures !StartsAt(value, j, "::\n")
    {
      assert value[j + 2] in value;
    }
    AbsentChar(value, "\n>>> ", '\n');
  }

  // The plain-text inputs `looks_like_rst` rejects.

  lemma PlainSentenceIsNotRst()
    ensures !LooksLikeRst("this is plain text")
  {
    var v := "this is plain text";
    assert '\n' !in v && '.' !in v && '`' !in v;
    NoDotLineIsNotRst(v);
  }

  lemma EmphasisIsNotRst()
    ensures !LooksLikeRst("this might be **markdown**")
  {
    var v := "this might be **markdown**";
    assert '\n' !in v && '.' !in v && '`' !in v;
    NoDotLineIsNotRst(v);
  }

  lemma BareColonsAreNotRst()
    ensures !LooksLikeRst("::")
  {
    var v := "::";
    assert '\n' !in v && '.' !in v && '`' !in v;
    NoDotLineIsNotRst(v);
  }

  lemma InlineSeeAlsoIsNotRst()
    ensures !LooksLikeRst("See Also: Interesting Topic")
  {
    var v := "See Also: Interesting Topic";
    assert '\n' !in v && '.' !in v && '`' !in v;
    NoDotLineIsNotRst(v);
  }

  lemma NoDotLineIsNotRst(value: string)
    requires '\n' !in value && '.' !in value && '`' !in value
    ensures !LooksLikeRst(value)
  {
    AbsentChar(value, ".. ", '.');
    SingleLineIsNotRst(value);
  }

  /** A run of colons is no literal marker: `::` must follow whitespace or a word character. */
  lemma ColonsAloneAreNotRst()
    ensures !LooksLikeRst("::::::\n\n\tcode")
  {
    var value := "::::::\n\n\tcode";
    assert '-' !in value && '.' !in value && '`' !in value && '>' !in value;
    assert value == "::::::" + "\n\n\tcode";
    ColonsBeforeNoColon("::::::", "\n\n\tcode");
    WithoutMarkupIsNotRst(value);
  }

  /** Without dashes, dots, backticks, prompts or a literal marker, text is not reStructuredText. */
  lemma WithoutMarkupIsNotRst(value: string)
    requires '-' !in value && '.' !in value && '`' !in value && '>' !in value
    requires !HasLiteralMarker(value)
    ensures !LooksLikeRst(value)
  {
    NoUnderlinedSection(value);
    AbsentChar(value, ".. ", '.');
    forall i | 0 <= i < |D.Table|
      ensures !D.Matches(D.Table[i], value)
    {
      D.NoMarkerNoMatch(D.Table[i], value);
    }
    AbsentChar(value, "\n>>> ", '>');
  }

  /** Without a dash there is no section underline. */
  lemma NoUnderlinedSection(value: string)
    requires '-' !in value
    ensures !HasUnderlinedSection(value)
  {
    forall i | 0 <= i < |SectionNames|
      ensures !Contains(value, SectionNames[i] + "\n" + Dashes(|SectionNames[i]|) + "\n")
    {
      var pattern := SectionNames[i] + "\n" + Dashes(|SectionNames[i]|) + "\n";
      assert pattern[|SectionNames[i]| + 1] == '-';
      AbsentChar(value, pattern, '-');
    }
  }

  /** Colons followed by text without a colon hold no literal marker. */
  lemma ColonsBeforeNoColon(colons: string, tail: string)
    requires forall i :: 0 <= i < |colons| ==> colons[i] == ':'
    requires ':' !in tail
    ensures !HasLiteralMarker(colons + tail)
  {
    var value := colons + tail;
    forall i | 0 <= i < |value| - 3
      ensures !((IsSpace(value[i]) || IsWordChar(value[i])) && StartsAt(value, i + 1, "::\n"))
    {
      if i < |colons| {
        assert value[i] == ':';
      } else {
        assert value[i + 1] == tail[i + 1 - |colons|];
      }
    }
  }

  /** A literal marker after whitespace or a word, and an underlined section title, are reStructuredText. */
  lemma MarkersAreRst()
    ensures LooksLikeRst("the following code ::\n\n\tcode")
    ensures LooksLikeRst("the following code::\n\n\tcode")
    ensures LooksLikeRst("See Also\n--------\n")
  {
    var spaced := "the following code ::\n\n\tcode";
    assert IsSpace(spaced[18]) && StartsAt(spaced, 19, "::\n");
    var joined := "the following code::\n\n\tcode";
    assert IsWordChar(joined[17]) && StartsAt(joined, 18, "::\n");
    var section := "See Also\n--------\n";
    assert Dashes(8) == "--------";
    assert StartsAt(section, 0, SectionNames[2] + "\n" + Dashes(|SectionNames[2]|) + "\n");
  }

  // ---------------------------------------------------------------------
  // Parameter lines

  /** The `argument` group: at least one character, none a colon or a space. */
  predicate IsArgument(key: string) {
    |key| > 0 && forall i :: 0 <= i < |key| ==> key[i] != ':' && key[i] != ' '
  }

  /** The `type` group: at least one character, none a line terminator. */
  predicate IsDescription(desc: string) {
    |desc| > 0 && forall i :: 0 <= i < |desc| ==> !IsLineTerminator(desc[i])
  }

  /** A line `key : desc` becomes the list item ``- `key`: desc``. */
  lemma ListItemOf(key: string, desc: string)
    requires IsArgument(key) && IsDescription(desc)
    ensures ListItem(key + " : " + desc) == Some("- `" + key + "`: " + desc)
  {
    var t := key + " : " + desc;
    assert t[|key|] == ' ';
    assert forall i :: 0 <= i < |key| ==> t[i] == key[i];
    assert RunEnd(t, 0, AtColonOrSpace) == |key|;
    assert t[|key|..|key| + 3] == " : ";
    assert forall i :: |key| + 3 <= i < |t| ==> t[i] == desc[i - |key| - 3];
    assert t[..|key|] == key && t[|key| + 3..] == desc;
  }

  /** Every list item comes from a line of that shape, and the line is split
      at the first colon or space. */
  lemma ListItemShape(t: string)
    requires ListItem(t).Some?
    ensures exists key, desc ::
      && IsArgument(key) && IsDescription(desc) && t == key + " : " + desc
      && ListItem(t) == Some("- `" + key + "`: " + desc)
  {
    var e := RunEnd(t, 0, AtColonOrSpace);
    var key, desc := t[..e], t[e + 3..];
    assert t == key + " : " + desc by {
      assert t[e..e + 3] == " : ";
      assert t == t[..e] + t[e..e + 3] + t[e + 3..];
    }
    assert IsArgument(key);
    var f := RunEnd(t, e + 3, AtLineTerminator);
    assert forall i :: 0 <= i < |desc| ==> desc[i] == t[e + 3 + i];
    assert IsDescription(desc);
  }

  // ---------------------------------------------------------------------
  // The driver

  /** Parser priority: a `.. math::` line would also open a `::` block, but
      the math parser is tried first and wins. */
  lemma MathWinsOverDoubleColon(line: string)
    requires Trim(line) == ".. math::"
    ensures Opens(DoubleColon, line)
    ensures FirstOpening(ParserOrder, line) == Some(Math)
  {
    var l := TrimLeft(line);
    TrimLeftSpec(line);
    TrimRightSpec(l);
    var a := |line| - |l|;
    assert l == line[a..] && l[..9] == ".. math::";
    assert line[a + 7] == ':' && line[a + 8] == ':';
    assert line[a + 9..] == l[9..];
    DoubleColonAt(line, a + 7);
    if a == 0 {
      assert line[0] == '.';
    } else {
      assert IsSpace(line[..a][0]);
    }
    assert !StartsWith(line, ">>>");
  }

  /** A line the prompt parser rejects closes the prompt block and opens the
      output block with that very line, blank or not. */
  lemma PromptHandsOverToOutput(c: Conversion, st: ParserState, line: string)
    requires Inv(c) && c.active == Some(Active(PythonPrompt, st))
    requires !StartsWith(line, ">>>") && !StartsWith(line, "...")
    ensures Step(c, line) == Conversion(c.language,
      c.markdown + Flush(c.linesBuffer) + Finish(PythonPrompt, st, false).text,
      Some(Active(PythonOutput, ParserState(["```", line], true, false, None))), [])
  {
    assert !Accepts(PythonPrompt, st, line);
    assert "```" + "" == "```";
    var begun := BlockStart(PythonOutput, Fresh, "");
    assert begun == ParserState(["```"], true, false, None);
    assert Initiate(PythonOutput, Fresh, line, c.language).state == ParserState(["```", line], true, false, None);
  }

  /** A line that leaves an indented block (non-empty, not starting with
      whitespace) closes it and is then examined like any line outside a block. */
  lemma IndentedBlockEnds(c: Conversion, k: Kind, st: ParserState, line: string)
    requires Inv(c) && c.active == Some(Active(k, st)) && IsIndented(k)
    requires |line| > 0 && !IsSpace(line[0])
    ensures Step(c, line) == IdleStep(
      Conversion(c.language, c.markdown + Flush(c.linesBuffer) + Finish(k, st, false).text, None, []), line)
  {
    IndentedAcceptance(k, st, line);
  }

  // ---------------------------------------------------------------------
  // flush_buffer

  /** Text without any section header is left alone by the section rewrite. */
  lemma {:induction false} RewriteSectionsWithoutHeader(text: string, names: seq<string>)
    requires forall i :: 0 <= i < |names| ==> !Contains(text, SectionHeader(names[i]))
    ensures RewriteSections(text, names) == text
    decreases |names|
  {
    if |names| > 0 {
      RewriteSectionsWithoutHeader(text, names[..|names| - 1]);
    }
  }

  /** When only the header of `names[k]` occurs (those before it are absent
      from the text, those after it from the rewritten text), the section
      rewrite turns that one header into its Markdown heading. */
  lemma {:induction false} RewriteOneSection(text: string, names: seq<string>, k: nat)
    requires k < |names|
    requires forall j :: 0 <= j < k ==> !Contains(text, SectionHeader(names[j]))
    requires var rewritten := ReplaceFirst(text, SectionHeader(names[k]), SectionHeading(names[k]));
      forall j :: k < j < |names| ==> !Contains(rewritten, SectionHeader(names[j]))
    ensures RewriteSections(text, names) == ReplaceFirst(text, SectionHeader(names[k]), SectionHeading(names[k]))
    decreases |names|
  {
    var n := |names| - 1;
    if n == k {
      RewriteSectionsWithoutHeader(text, names[..n]);
    } else {
      RewriteOneSection(text, names[..n], k);
    }
  }

  /** Every line break in `t` that is not the last character is followed by
      one of the characters of `next`. */
  ghost predicate BreaksFollowedBy(t: string, next: string) {
    forall i, j {:trigger t[i], t[j]} :: 0 <= i && j == i + 1 && j < |t| && t[i] == '\n' ==> t[j] in next
  }

  /** A section header starts with a line break and the title's first letter. */
  lemma NoHeaderWithout(t: string, next: string, name: string)
    requires |name| > 0 && name[0] !in next
    requires BreaksFollowedBy(t, next)
    ensures !Contains(t, SectionHeader(name))
  {
    var header := SectionHeader(name);
    forall j | 0 <= j <= |t| ensures !StartsAt(t, j, header) {
      if j + |header| <= |t| {
        assert t[j..j + |header|][0] == t[j] && t[j..j + |header|][1] == t[j + 1];
        assert header[0] == '\n' && header[1] == name[0];
      }
    }
  }

  lemma BreaksAppend(a: string, b: string, next: string)
    requires BreaksFollowedBy(a, next) && BreaksFollowedBy(b, next)
    requires |a| > 0 && a[|a| - 1] == '\n' && |b| > 0 ==> b[0] in next
    ensures BreaksFollowedBy(a + b, next)
  {
    var t := a + b;
    forall i, j | 0 <= i && j == i + 1 && j < |t|
      ensures t[i] == '\n' ==> t[j] in next
    {
      if i < |a| - 1 {
        assert t[i] == a[i] && t[j] == a[j];
      } else if i == |a| - 1 {
        assert t[i] == a[i] && t[j] == b[0];
      } else {
        assert t[i] == b[i - |a|] && t[j] == b[j - |a|];
      }
    }
  }

  /** Lines that are blank or start with `-`: list items, one per line. */
  predicate ItemLines(items: seq<string>) {
    forall i :: 0 <= i < |items| ==> '\n' !in items[i] && (items[i] == "" || items[i][0] == '-')
  }

  /** Item lines, each after a line break: every break is followed by `-`,
      by another break, or by nothing. */
  lemma {:induction false} ItemBreaks(items: seq<string>)
    requires ItemLines(items)
    ensures var t := Join([""] + items, '\n');
      BreaksFollowedBy(t, "\n-") && (|t| > 0 ==> t[0] == '\n')
    decreases |items|
  {
    if |items| > 0 {
      var rest := Join([""] + items[1..], '\n');
      assert Join([""] + items, '\n') == "\n" + (items[0] + rest) by {
        JoinCons("", items, '\n');
        if |items| > 1 {
          JoinCons(items[0], items[1..], '\n');
          JoinCons("", items[1..], '\n');
        } else {
          assert Join([""] + items[1..], '\n') == "";
        }
      }
      ItemBreaks(items[1..]);
      assert ItemLines(items[1..]);
      assert BreaksFollowedBy(items[0], "\n-") by {
        forall i, j | 0 <= i && j == i + 1 && j < |items[0]| ensures items[0][i] == '\n' ==> items[0][j] in "\n-" {
          assert items[0][i] in items[0];
        }
      }
      BreaksAppend(items[0], rest, "\n-");
      BreaksAppend("\n", items[0] + rest, "\n-");
    }
  }

  /** The lines of a See Also section joined: its header, then the items,
      each after a line break. */
  lemma SeeAlsoText(items: seq<string>)
    ensures Join(["", "See Also", "--------"] + items, '\n') == SectionHeader("See Also") + Join([""] + items, '\n')
  {
    var tail := Join([""] + items, '\n');
    var underline := ["--------"] + items;
    var titled := ["See Also"] + underline;
    assert ["", "See Also", "--------"] + items == [""] + titled;
    assert Join(underline, '\n') == "--------" + tail by {
      if |items| > 0 {
        JoinCons("--------", items, '\n');
        JoinCons("", items, '\n');
      }
    }
    JoinCons("See Also", underline, '\n');
    JoinCons("", titled, '\n');
    assert SectionHeader("See Also") == "\nSee Also\n--------" by {
      assert Dashes(8) == "--------";
    }
  }

  /** In the See Also section, no line break is followed by the first letter
      of the titles that come before it in `SectionNames`. */
  lemma SeeAlsoBreaks(tail: string)
    requires BreaksFollowedBy(tail, "\n-")
    ensures BreaksFollowedBy(SectionHeader("See Also") + tail, "S-\n")
  {
    var header := SectionHeader("See Also");
    assert header == "\nSee Also\n--------" by {
      assert Dashes(8) == "--------";
    }
    assert BreaksFollowedBy(header, "S-\n") by {
      forall i, j | 0 <= i && j == i + 1 && j < |header| && header[i] == '\n' ensures header[j] in "S-\n" {
        assert i == 0 || i == 9;
      }
    }
    assert BreaksFollowedBy(tail, "S-\n");
    BreaksAppend(header, tail, "S-\n");
  }

  /** Once rewritten, no line break is followed by the first letter of the
      titles that come after See Also in `SectionNames`. */
  lemma SeeAlsoHeadingBreaks(tail: string)
    requires BreaksFollowedBy(tail, "\n-") && (|tail| > 0 ==> tail[0] == '\n')
    ensures BreaksFollowedBy(SectionHeading("See Also") + tail, "#\n-")
  {
    var heading := SectionHeading("See Also");
    assert heading == "\n#### See Also\n";
    assert BreaksFollowedBy(heading, "#\n-") by {
      forall i, j | 0 <= i && j == i + 1 && j < |heading| && heading[i] == '\n' ensures heading[j] in "#\n-" {
        assert i == 0;
      }
    }
    assert BreaksFollowedBy(tail, "#\n-");
    BreaksAppend(heading, tail, "#\n-");
  }

  /** Replacing the See Also header at the very start of the text. */
  lemma SeeAlsoHeaderReplaced(tail: string)
    ensures ReplaceFirst(SectionHeader("See Also") + tail, SectionHeader("See Also"), SectionHeading("See Also"))
      == SectionHeading("See Also") + tail
  {
    var header := SectionHeader("See Also");
    var text := header + tail;
    assert text[..|header|] == header;
    assert StartsAt(text, 0, header);
    assert text[|header|..] == tail;
  }

  /** Neither `Parameters` nor `Returns` is underlined in the See Also section. */
  lemma SeeAlsoEarlierAbsent(items: seq<string>)
    requires ItemLines(items)
    ensures var text := SectionHeader("See Also") + Join([""] + items, '\n');
      forall j :: 0 <= j < 2 ==> !Contains(text, SectionHeader(SectionNames[j]))
  {
    var tail := Join([""] + items, '\n');
    ItemBreaks(items);
    SeeAlsoBreaks(tail);
    NoHeaderWithout(SectionHeader("See Also") + tail, "S-\n", "Parameters");
    NoHeaderWithout(SectionHeader("See Also") + tail, "S-\n", "Returns");
  }

  /** No title after See Also is underlined once its header is rewritten. */
  lemma SeeAlsoLaterAbsent(items: seq<string>)
    requires ItemLines(items)
    ensures var rewritten := SectionHeading("See Also") + Join([""] + items, '\n');
      forall j :: 2 < j < |SectionNames| ==> !Contains(rewritten, SectionHeader(SectionNames[j]))
  {
    var tail := Join([""] + items, '\n');
    var rewritten := SectionHeading("See Also") + tail;
    ItemBreaks(items);
    SeeAlsoHeadingBreaks(tail);
    NoHeaderWithout(rewritten, "#\n-", "Examples");
    NoHeaderWithout(rewritten, "#\n-", "Attributes");
    NoHeaderWithout(rewritten, "#\n-", "Notes");
    NoHeaderWithout(rewritten, "#\n-", "References");
  }

  /** The section rewrite over `SectionNames` when See Also is the only
      title it finds. */
  lemma SeeAlsoOnly(text: string, rewritten: string)
    requires forall j :: 0 <= j < 2 ==> !Contains(text, SectionHeader(SectionNames[j]))
    requires forall j :: 2 < j < |SectionNames| ==> !Contains(rewritten, SectionHeader(SectionNames[j]))
    requires ReplaceFirst(text, SectionHeader("See Also"), SectionHeading("See Also")) == rewritten
    ensures RewriteSections(text, SectionNames) == rewritten
  {
    assert SectionNames[2] == "See Also";
    RewriteOneSection(text, SectionNames, 2);
  }

  /** A See Also header over item lines is the one header the section
      rewrite finds: it becomes a Markdown heading and nothing else changes. */
  lemma SeeAlsoRewritten(items: seq<string>)
    requires ItemLines(items)
    ensures var tail := Join([""] + items, '\n');
      RewriteSections(SectionHeader("See Also") + tail, SectionNames) == SectionHeading("See Also") + tail
  {
    var tail := Join([""] + items, '\n');
    SeeAlsoHeaderReplaced(tail);
    SeeAlsoEarlierAbsent(items);
    SeeAlsoLaterAbsent(items);
    SeeAlsoOnly(SectionHeader("See Also") + tail, SectionHeading("See Also") + tail);
  }

  /** The See Also section: a header whose title is followed by item lines
      comes out of the flush as a Markdown heading over the same lines, when
      nothing in it opens a directive, a role or a link. */
  lemma SeeAlsoFlushed(items: seq<string>)
    requires ItemLines(items)
    requires var text := Join(["", "See Also", "--------"] + items, '\n');
      && !Contains(text, ".. ") && '<' !in text && D.NoRoleOpening(text) && '\U{00A0}' !in text
    ensures Flush(["", "See Also", "--------"] + items) == "\n#### See Also\n" + Join([""] + items, '\n')
  {
    var text := Join(["", "See Also", "--------"] + items, '\n');
    var tail := Join([""] + items, '\n');
    var rewritten := SectionHeading("See Also") + tail;
    assert D.ApplyAll(text, D.Table) == text by {
      D.NoInlineMarkupUnchanged(text);
    }
    assert RewriteSections(text, SectionNames) == rewritten by {
      SeeAlsoText(items);
      SeeAlsoRewritten(items);
    }
    assert !Contains(rewritten, NbspIndent) by {
      SeeAlsoText(items);
      NoBreakSpaceLeft(tail);
    }
  }

  /** Without a no-break space in the items, the heading and items hold no
      no-break indent. */
  lemma NoBreakSpaceLeft(tail: string)
    requires '\U{00A0}' !in SectionHeader("See Also") + tail
    ensures !Contains(SectionHeading("See Also") + tail, NbspIndent)
  {
    var rewritten := SectionHeading("See Also") + tail;
    forall i | 0 <= i < |tail| ensures tail[i] != '\U{00A0}' {
      assert tail[i] == (SectionHeader("See Also") + tail)[|SectionHeader("See Also")| + i];
    }
    assert '\U{00A0}' !in rewritten;
    AbsentChar(rewritten, NbspIndent, '\U{00A0}');
  }

  /** Plain text goes through the flush unchanged: no directive marker, no
      backtick, no section header and no no-break indent. */
  lemma FlushPlain(buffer: seq<string>)
    requires var text := Join(buffer, '\n');
      && !Contains(text, ".. ") && '`' !in text && !Contains(text, NbspIndent)
      && forall i :: 0 <= i < |SectionNames| ==> !Contains(text, SectionHeader(SectionNames[i]))
    ensures Flush(buffer) == Join(buffer, '\n')
  {
    var text := Join(buffer, '\n');
    forall i | 0 <= i < |D.Table|
      ensures !D.Matches(D.Table[i], text)
    {
      D.NoMarkerNoMatch(D.Table[i], text);
    }
    D.ApplyAllWithoutMatch(text, D.Table);
    RewriteSectionsWithoutHeader(text, SectionNames);
  }

  // ---------------------------------------------------------------------
  // Whole conversions

  /** Doctest lines: each piece of code behind a `>>> ` prompt. */
  function Prompted(code: seq<string>): (lines: seq<string>)
    ensures |lines| == |code|
    ensures forall i :: 0 <= i < |code| ==> lines[i] == ">>> " + code[i]
  {
    if |code| == 0 then [] else Prompted(code[..|code| - 1]) + [">>> " + code[|code| - 1]]
  }

  /** The state after the first `k` doctest lines: the prompt block holds the
      code so far, and the buffer holds the empty remainder of its first line. */
  function InPromptBlock(code: seq<string>): Conversion {
    Conversion("python", "", Some(Active(PythonPrompt, ParserState(["```python"] + code, true, false, None))), [""])
  }

  lemma {:induction false} PromptRun(code: seq<string>)
    requires |code| >= 1 && !StartsWith(code[0], ": ")
    ensures Run(Prompted(code)) == InPromptBlock(code)
    decreases |code|
  {
    var n := |code|;
    var lines := Prompted(code);
    var before := code[..n - 1];
    assert lines == Prompted(before) + [">>> " + code[n - 1]];
    assert Run(lines) == Step(Run(Prompted(before)), ">>> " + code[n - 1]) by {
      RunSnoc(Prompted(before), ">>> " + code[n - 1]);
    }
    if n == 1 {
      assert before == [];
      assert code == [code[0]];
      FirstPromptLine(">>> " + code[0], code[0]);
    } else {
      assert before[0] == code[0];
      PromptRun(before);
      PrefixGrows(code, n);
      assert code[..n] == code;
      NextPromptLine(before, code[n - 1]);
    }
  }

  /** The loop's state after one more line is one step from the state before it. */
  lemma RunSnoc(lines: seq<string>, line: string)
    ensures Run(lines + [line]) == Step(Run(lines), line)
  {
    assert (lines + [line])[..|lines|] == lines;
  }

  lemma PrefixGrows<T>(s: seq<T>, k: nat)
    requires 1 <= k <= |s|
    ensures s[..k] == s[..k - 1] + [s[k - 1]]
  {
  }

  /** Every further doctest line adds its code to the prompt block. */
  lemma NextPromptLine(code: seq<string>, next: string)
    ensures Step(InPromptBlock(code), ">>> " + next) == InPromptBlock(code + [next])
  {
    var line := ">>> " + next;
    assert line[..4] == ">>> " && line[..3] == ">>>";
    assert StripPrompt(line) == next;
    assert (["```python"] + code) + [next] == ["```python"] + (code + [next]);
  }

  /** The first doctest line opens the prompt block and leaves an empty line in the buffer. */
  lemma FirstPromptLine(line: string, code: string)
    requires line == ">>> " + code && !StartsWith(code, ": ")
    ensures Step(Initial, line) == InPromptBlock([code])
  {
    PromptOpening(line, code);
    PromptLineIsNoItem(line, code);
    EmptyLineHasNoHighlight();
    assert Step(Initial, line) == IdleStep(Initial, line);
    assert ["```python"] + [code] == ["```python", code] && [] + [""] == [""];
  }

  /** A doctest line opens a prompt block holding its code, with nothing left of the line. */
  lemma PromptOpening(line: string, code: string)
    requires line == ">>> " + code
    ensures OpenBlock(line, "python")
      == Opened(Some(Active(PythonPrompt, ParserState(["```python", code], true, false, None))), "")
  {
    assert line[..4] == ">>> " && line[..3] == ">>>";
    assert FirstOpening(ParserOrder, line) == Some(PythonPrompt);
    OpenBlockBy(line, "python", PythonPrompt);
    assert "```" + "python" == "```python";
    var begun := BlockStart(PythonPrompt, Fresh, "python");
    assert begun == ParserState(["```python"], true, false, None);
    assert StripPrompt(line) == code;
    assert begun.buffer + [code] == ["```python", code];
    assert ConsumeLine(PythonPrompt, begun, line) == ParserState(["```python", code], true, false, None);
  }

  /** `>>> code` is a list item only when the code starts with `: `. */
  lemma PromptLineIsNoItem(line: string, code: string)
    requires line == ">>> " + code && !StartsWith(code, ": ")
    ensures ListItem(TrimLeft(line)) == None
  {
    assert TrimLeft(line) == line;
    assert line[0] == '>' && line[1] == '>' && line[2] == '>' && line[3] == ' ';
    assert RunEnd(line, 0, AtColonOrSpace) == 3;
    if |line| >= 6 {
      assert line[3..6] == [' ', code[0], code[1]];
    }
  }

  lemma EmptyLineHasNoHighlight()
    ensures HighlightLanguage("") == None
  {
    AbsentChar("", ".. ", '.');
    D.NoMarkerNoMatch(D.Highlight, "");
  }

  /** `.. highlight:: <language>` on a line of its own names the trimmed language. */
  lemma HighlightDirective(language: string)
    requires Trim(language) != ""
    requires forall i :: 0 <= i < |language| ==> !IsLineTerminator(language[i])
    ensures HighlightLanguage(".. highlight:: " + language) == Some(Trim(language))
  {
    var s := ".. highlight:: " + language;
    assert |".. highlight:: "| == 15;
    forall i | 15 <= i < |s| ensures !Stops(AtLineTerminator, s[i]) {
      assert s[i] == language[i - 15];
    }
    RunToEnd(s, 15, AtLineTerminator);
    assert s[15..] == language;
    assert |language| > 0 by { assert Trim("") == ""; }
    assert StartsAt(s, 0, ".. highlight:: ");
    assert D.LineEndAt(s, |s|) == Some("");
    assert D.LineDirectiveAt(s, 0, ".. highlight:: ", true).Some?;
    assert D.LineDirectiveAt(s, 0, ".. highlight:: ", true).value.group == language;
    assert D.FirstMatch(D.Highlight, s, 0) == Some(0);
  }

  /** While no block is open, a `highlight` line that starts no block sets the
      language of the blocks after it and is buffered as it is. */
  lemma HighlightSetsLanguage(c: Conversion, language: string)
    requires c.active.None?
    requires Trim(language) != ""
    requires forall i :: 0 <= i < |language| ==> !IsLineTerminator(language[i])
    requires FirstOpening(ParserOrder, ".. highlight:: " + language).None?
    ensures var r := IdleStep(c, ".. highlight:: " + language);
      && r.language == Trim(language)
      && r.linesBuffer == c.linesBuffer + [".. highlight:: " + language]
      && r.active.None? && r.markdown == c.markdown
  {
    HighlightDirective(language);
    HighlightLineIsNoItem(language);
  }

  /** A `highlight` line is no parameter line. */
  lemma HighlightLineIsNoItem(language: string)
    ensures ListItem(TrimLeft(".. highlight:: " + language)) == None
  {
    var s := ".. highlight:: " + language;
    assert TrimLeft(s) == s;
    assert s[0] == '.' && s[1] == '.' && s[2] == ' ' && s[3] == 'h';
    assert RunEnd(s, 0, AtColonOrSpace) == 2;
    assert !StartsAt(s, 2, " : ") by { assert s[2..5][1] == s[3]; }
  }

  /** A doctest without output becomes one Python code block holding the code
      without its prompts, closed as the final block. */
  lemma DoctestBlock(code: seq<string>)
    requires |code| >= 1 && !StartsWith(code[0], ": ") && Trim(code[|code| - 1]) != ""
    requires forall i :: 0 <= i < |code| ==> '\n' !in code[i]
    ensures Converted(Join(Prompted(code), '\n')) == "```python" + "\n" + Join(code, '\n') + "\n" + ("```" + "\n")
  {
    PromptedSplits(code);
    PromptRun(code);
    PromptBlockAtEnd(code);
  }

  /** Joined with line breaks, doctest lines split back into the same lines. */
  lemma PromptedSplits(code: seq<string>)
    requires |code| >= 1
    requires forall i :: 0 <= i < |code| ==> '\n' !in code[i]
    ensures Split(Join(Prompted(code), '\n'), '\n') == Prompted(code)
  {
    var lines := Prompted(code);
    forall i | 0 <= i < |lines|
      ensures '\n' !in lines[i]
    {
      assert lines[i] == ">>> " + code[i];
    }
    SplitJoin(lines, '\n');
  }

  /** At the end of the input the prompt block is closed as the final one. */
  lemma PromptBlockAtEnd(code: seq<string>)
    requires |code| >= 1 && Trim(code[|code| - 1]) != ""
    ensures Finalize(InPromptBlock(code)) == "```python" + "\n" + Join(code, '\n') + "\n" + ("```" + "\n")
  {
    FinalizePromptBlock(code);
    PromptClosingText(code);
  }

  /** Finishing with the prompt block open adds nothing for the empty pending line. */
  lemma FinalizePromptBlock(code: seq<string>)
    ensures Finalize(InPromptBlock(code))
      == Finish(PythonPrompt, ParserState(["```python"] + code, true, false, None), true).text
  {
    var c := InPromptBlock(code);
    FinalizeActive(c);
    EmptyFlush(c.linesBuffer);
  }

  /** With a block open, finishing a conversion flushes the pending lines and closes the block. */
  lemma FinalizeActive(c: Conversion)
    requires Inv(c) && c.active.Some?
    ensures Finalize(c)
      == c.markdown + Flush(c.linesBuffer) + Finish(c.active.value.kind, c.active.value.parser, true).text
  {
  }

  /** The text with which a prompt block holding `code` closes at the end of the input. */
  lemma PromptClosingText(code: seq<string>)
    requires |code| >= 1 && Trim(code[|code| - 1]) != ""
    ensures Finish(PythonPrompt, ParserState(["```python"] + code, true, false, None), true).text
      == "```python" + "\n" + Join(code, '\n') + "\n" + ("```" + "\n")
  {
    ClosedBlockText("```python", code, "```");
  }

  /** A block whose last line is not blank is closed by its lines, one per line, and the fence. */
  lemma ClosedBlockText(head: string, code: seq<string>, fence: string)
    requires |code| >= 1 && Trim(code[|code| - 1]) != ""
    ensures Join(DropBlankLast([head] + code) + [fence + "\n"], '\n')
      == head + "\n" + Join(code, '\n') + "\n" + (fence + "\n")
  {
    KeepsLastLine(head, code);
    JoinAppend([head] + code, fence + "\n", '\n');
    JoinCons(head, code, '\n');
  }

  lemma KeepsLastLine(head: string, code: seq<string>)
    requires |code| >= 1 && Trim(code[|code| - 1]) != ""
    ensures DropBlankLast([head] + code) == [head] + code
  {
    var buffer := [head] + code;
    assert buffer[|buffer| - 1] == code[|code| - 1];
  }

  /** An empty buffer flushes to nothing. */
  lemma EmptyFlush(buffer: seq<string>)
    requires buffer == [""]
    ensures Flush(buffer) == ""
  {
    forall p: string | |p| > 0
      ensures !Contains("", p)
    {
      AbsentChar("", p, p[0]);
    }
    FlushPlain(buffer);
  }
}
