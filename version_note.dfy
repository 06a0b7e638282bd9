/** The `versionchanged` directive followed from the documentation of a
    Python symbol to the Markdown shown for it: the note, alone in the
    documentation, is recognised as reStructuredText and turned into an
    emphasised "Changed in" line. */
module VersionNote {
  import opened Text
  import D = RstDirectives
  import opened BlockParsers
  import Rst
  import RstProperties
  import Documentation

  const Head: string := ".. versionchanged:: "

  /** A version as `\S+` takes it, without backticks, not ending in a colon. */
  predicate IsVersion(v: string) {
    && |v| > 0
    && (forall i :: 0 <= i < |v| ==> !IsSpace(v[i]) && v[i] != '`')
    && v[|v| - 1] != ':'
  }

  /** `.. versionchanged:: <version>` */
  function Note(v: string): string {
    Head + v
  }

  /** `*Changed in <version>*` */
  function ChangedIn(v: string): string {
    "*Changed in " + v + "*"
  }

  /** The only `.. ` in a note is the one it starts with. */
  lemma DotsOnlyAtStart(v: string, p: nat)
    requires IsVersion(v) && 0 < p <= |Note(v)|
    ensures !StartsAt(Note(v), p, ".. ")
  {
    var s := Note(v);
    if p + 3 <= |s| {
      if p + 2 >= |Head| {
        assert s[p + 2] == v[p + 2 - |Head|];
      } else {
        assert s[p + 2] == Head[p + 2] && s[p] == Head[p];
      }
      assert s[p..p + 3][2] == s[p + 2] && s[p..p + 3][0] == s[p];
    }

  }

  /** A note holds no backtick and no line break. */
  lemma NoBacktick(v: string)
    requires IsVersion(v)
    ensures '`' !in Note(v) && '\n' !in Note(v)
  {
    var s := Note(v);
    forall i | 0 <= i < |s| ensures s[i] != '`' && s[i] != '\n' {
      if i >= |Head| { assert s[i] == v[i - |Head|]; } else { assert s[i] == Head[i]; }
    }
  }

  /** A note does not start with the head of another directive whose fourth character differs. */
  lemma OtherHead(v: string, head: string)
    requires |head| >= 4 && head[3] != 'v'
    ensures !StartsAt(Note(v), 0, head)
  {
    if |head| <= |Note(v)| {
      assert Note(v)[..|head|][3] == Note(v)[3] == 'v';
    }
  }

  /** Neither `highlight` nor `code-block` matches at the start of a note. */
  lemma NamedRulesMissStart(d: D.Directive, v: string)
    requires d == D.Highlight || d == D.CodeBlock
    ensures D.MatchAt(d, Note(v), 0).None?
  {
    OtherHead(v, ".. highlight:: ");
    OtherHead(v, ".. code-block::");
    OtherHead(v, ".. productionlist::");
  }

  /** Neither `highlight` nor `code-block` matches a note. */
  lemma NamedRulesMiss(d: D.Directive, v: string)
    requires d == D.Highlight || d == D.CodeBlock
    requires IsVersion(v)
    ensures !D.Matches(d, Note(v))
  {
    var s := Note(v);
    NoBacktick(v);
    forall p | 0 <= p <= |s| ensures D.MatchAt(d, s, p).None? {
      D.MatchNeedsMarker(d, s, p);
      if p > 0 {
        DotsOnlyAtStart(v, p);
      } else {
        NamedRulesMissStart(d, v);
      }
    }
  }

  /** A note has no whitespace at either end. */
  lemma NoteTrimmed(v: string)
    requires IsVersion(v)
    ensures TrimLeft(Note(v)) == Note(v) && TrimRight(Note(v)) == Note(v) && Trim(Note(v)) == Note(v)
  {
    var s := Note(v);
    assert s[|s| - 1] == v[|v| - 1];
    TrimRightKeeps(s, |s|);
    assert s[..|s|] == s;
  }

  /** No block parser starts a block on a note. */
  lemma NoteOpensNoBlock(v: string)
    requires IsVersion(v)
    ensures Rst.FirstOpening(Rst.ParserOrder, Note(v)) == None
  {
    var s := Note(v);
    NoteTrimmed(v);
    NamedRulesMiss(D.CodeBlock, v);
    assert s[..3] != ">>>" by { assert s[..3][0] == '.'; }
    assert s != ".. math::" by { assert s[3] == 'v'; }
    assert s[|s| - 2..] != "::" by { assert s[|s| - 2..][1] == v[|v| - 1]; }
  }

  /** A note is no parameter line and names no highlight language. */
  lemma NoteIsPlainLine(v: string)
    requires IsVersion(v)
    ensures Rst.ListItem(TrimLeft(Note(v))) == None
    ensures Rst.HighlightLanguage(Note(v)) == None
  {
    var s := Note(v);
    NoteTrimmed(v);
    NamedRulesMiss(D.Highlight, v);
    assert RunEnd(s, 0, AtColonOrSpace) == 2 by {
      assert s[0] == '.' && s[1] == '.' && s[2] == ' ';
    }
    assert s[3] == 'v';
  }

  /** After the loop over the one line of a note, it waits in the buffer. */
  lemma NoteRun(v: string)
    requires IsVersion(v)
    ensures Rst.Run([Note(v)]) == Rst.Conversion("python", "", None, [Note(v)])
  {
    NoteOpensNoBlock(v);
    NoteIsPlainLine(v);
    assert [Note(v)][..0] == [] && [Note(v)][0] == Note(v);
  }

  /** The `versionchanged` rule matches a whole note and replaces it by its emphasised line. */
  lemma NoteMatch(v: string)
    requires IsVersion(v)
    ensures D.MatchAt(D.VersionChanged, Note(v), 0) == Some(D.Match(|Note(v)|, ChangedIn(v)))
  {
    var s := Note(v);
    forall i | |Head| <= i < |s| ensures !Stops(AtSpace, s[i]) {
      assert s[i] == v[i - |Head|];
    }
    RunToEnd(s, |Head|, AtSpace);
    assert s[|Head|..|s|] == v;
    assert StartsAt(s, 0, Head);
    assert D.LineEndAt(s, |s|) == Some("");
    var m := D.MatchAt(D.VersionChanged, s, 0);
    assert m.Some? && m.value.stop == |s|;
    assert m.value.replacement == "*Changed in " + v + "*" + "";
    assert m.value.replacement == ChangedIn(v);
  }

  /** The `versionchanged` rule turns a whole note into its emphasised line. */
  lemma NoteRewritten(v: string)
    requires IsVersion(v)
    ensures D.Apply(D.VersionChanged, Note(v)) == ChangedIn(v)
  {
    NoteMatch(v);
    assert D.ReplaceAllFrom(D.VersionChanged, Note(v), |Note(v)|) == "";
  }

  /** The emphasised line holds no marker of any rule, no line break and no no-break space. */
  lemma ChangedIsPlain(v: string)
    requires IsVersion(v)
    ensures var c := ChangedIn(v);
      !Contains(c, ".. ") && '`' !in c && '\n' !in c && '\U{00A0}' !in c
  {
    var c := ChangedIn(v);
    var lead := "*Changed in ";
    forall i | 0 <= i < |c| ensures c[i] != '`' && c[i] != '\n' && c[i] != '\U{00A0}' {
      if |lead| <= i < |c| - 1 { assert c[i] == v[i - |lead|]; }
    }
    forall j | 0 <= j <= |c| ensures !StartsAt(c, j, ".. ") {
      if j + 3 <= |c| {
        if j + 2 < |lead| {
          assert c[j + 2] == lead[j + 2] && c[j] == lead[j];
        } else if j + 2 < |c| - 1 {
          assert c[j + 2] == v[j + 2 - |lead|];
        }
        assert c[j..j + 3][2] == c[j + 2] && c[j..j + 3][0] == c[j];
      }
    }
  }

  /** The directive table applied to a note leaves its emphasised line. */
  lemma NoteThroughTable(v: string)
    requires IsVersion(v)
    ensures D.ApplyAll(Note(v), D.Table) == ChangedIn(v)
  {
    var c := ChangedIn(v);
    D.ApplyAllFirst(Note(v), D.Table);
    NoteRewritten(v);
    ChangedIsPlain(v);
    var rest := D.Table[1..];
    forall i | 0 <= i < |rest| ensures !D.Matches(rest[i], c) {
      D.NoMarkerNoMatch(rest[i], c);
    }
    D.ApplyAllWithoutMatch(c, rest);
  }

  /** Flushing a buffer that holds just a note gives its emphasised line. */
  lemma NoteFlushed(v: string)
    requires IsVersion(v)
    ensures Rst.Flush([Note(v)]) == ChangedIn(v)
  {
    var c := ChangedIn(v);
    NoteThroughTable(v);
    ChangedIsPlain(v);
    forall i | 0 <= i < |Rst.SectionNames| ensures !Contains(c, Rst.SectionHeader(Rst.SectionNames[i])) {
      AbsentChar(c, Rst.SectionHeader(Rst.SectionNames[i]), '\n');
    }
    RstProperties.RewriteSectionsWithoutHeader(c, Rst.SectionNames);
    AbsentChar(c, Rst.NbspIndent, '\U{00A0}');
  }

  /** A note is a one-line text. */
  lemma NoteIsOneLine(v: string)
    requires IsVersion(v)
    ensures Split(Note(v), '\n') == [Note(v)]
  {
    NoBacktick(v);
    SplitJoin([Note(v)], '\n');
  }

  /** With no block open, the end of the input only flushes the buffer. */
  lemma FinalizeIdle(c: Rst.Conversion)
    requires c.active.None?
    ensures Rst.Finalize(c) == c.markdown + Rst.Flush(c.linesBuffer)
  {
  }

  /** `rst_to_markdown` of a note is its emphasised line. */
  lemma NoteConverted(v: string)
    requires IsVersion(v)
    ensures Rst.Converted(Note(v)) == ChangedIn(v)
  {
    var c := Rst.Run([Note(v)]);
    NoteIsOneLine(v);
    NoteRun(v);
    FinalizeIdle(c);
    NoteFlushed(v);
  }

  /** A note is recognised as reStructuredText. */
  lemma NoteLooksLikeRst(v: string)
    requires IsVersion(v)
    ensures Rst.LooksLikeRst(Note(v))
  {
    NoteMatch(v);
    assert D.Table[0] == D.VersionChanged;
    assert D.Matches(D.Table[0], Note(v));
  }

  /** Documentation that is just a note has no signature, unless the
      expected signature's prefix starts it, and the note is its body. */
  lemma NoteParsed(v: string, signature: string)
    requires IsVersion(v) && !StartsWith(Note(v), Documentation.SignaturePrefix(signature))
    ensures Documentation.Parse(Note(v), signature, Documentation.Python)
      == Documentation.Documentation([], Note(v), false)
  {
    var s := Note(v);
    var prefix := Documentation.SignaturePrefix(signature);
    var lines: seq<string> := [s];
    NoteIsOneLine(v);
    NoteTrimmed(v);
    NoBacktick(v);
    AbsentChar(s, "```\n", '\n');
    assert !Documentation.SkippedUfunc(s, prefix, Documentation.Python) by {
      assert s[..6] != "ufunc(" by { assert s[..6][0] == '.'; }
    }
    assert !Documentation.Continuation(s, Documentation.Python);
    assert Documentation.ScanAll(lines, prefix, Documentation.Python) == Documentation.Scan([], false, true, [s]) by {
      assert lines[..0] == [] && lines[0] == s;
      assert Documentation.ScanAll(lines[..0], prefix, Documentation.Python) == Documentation.Start;
    }
  }

  /** `string_to_markdown` shows a lone note as its emphasised line, with or
      without signatures, collapsed or not. */
  lemma NoteShown(v: string, signature: string, skip: bool, collapse: bool)
    requires IsVersion(v) && !StartsWith(Note(v), Documentation.SignaturePrefix(signature))
    ensures Documentation.ToMarkdown(Note(v), Documentation.Python, signature, skip, collapse) == ChangedIn(v)
  {
    NoteParsed(v, signature);
    NoteLooksLikeRst(v);
    NoteConverted(v);
    assert Documentation.SignatureMarkdown([], Documentation.Python, skip, collapse) == "";
    assert "" + ChangedIn(v) == ChangedIn(v);
  }

  /** `0.25.0` and `0.23.0` are versions. */
  lemma DocumentedVersions()
    ensures IsVersion("0.25.0") && IsVersion("0.23.0")
  {
    var v := "0.25.0";
    forall i | 0 <= i < |v| ensures !IsSpace(v[i]) && v[i] != '`' {
      assert v[i] in {'0', '.', '2', '5'};
    }
    var w := "0.23.0";
    forall i | 0 <= i < |w| ensures !IsSpace(w[i]) && w[i] != '`' {
      assert w[i] in {'0', '.', '2', '3'};
    }
  }

  /** The prefix of `map()` is not empty and starts with `m`. */
  lemma MapPrefix()
    ensures var prefix := Documentation.SignaturePrefix("map()");
      |prefix| > 0 && prefix[0] == 'm'
  {
  }

  /** The documented conversion of `.. versionchanged:: 0.25.0` for `map()`. */
  lemma ChangedInTheDocumentedVersion()
    ensures Documentation.ToMarkdown(".. versionchanged:: 0.25.0", "python", "map()", false, true)
      == "*Changed in 0.25.0*"
  {
    DocumentedVersions();
    MapPrefix();
    assert Note("0.25.0") == ".. versionchanged:: 0.25.0";
    assert ChangedIn("0.25.0") == "*Changed in 0.25.0*";
    NoteShown("0.25.0", "map()", false, true);
  }

  /** The documented conversion of `.. versionchanged:: 0.23.0` by `rst_to_markdown`. */
  lemma ChangedInTheConvertedVersion()
    ensures Rst.Converted(".. versionchanged:: 0.23.0") == "*Changed in 0.23.0*"
  {
    DocumentedVersions();
    assert Note("0.23.0") == ".. versionchanged:: 0.23.0";
    assert ChangedIn("0.23.0") == "*Changed in 0.23.0*";
    NoteConverted("0.23.0");
  }
}
