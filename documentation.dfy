/** `parse_documentation`, `wrap_code` and `string_to_markdown` of
    documentation.ts: the documentation a language server sends for a symbol
    is split into the call signatures at its head and the body after them,
    and the Markdown shown for it is assembled from fenced signatures and
    the body, converted from reStructuredText when it looks like it. */
module Documentation {
  import opened Text
  import Rst
  import RstProperties

  const Python: string := "python"

  /** `IDocumentation` */
  datatype Documentation = Documentation(signatures: seq<string>, value: string, isMarkdownLike: bool)

  // ---------------------------------------------------------------------
  // parse_documentation

  /** `expected_signature.split('(')[0]`: the longest prefix without a `(`. */
  function SignaturePrefix(expected: string): (r: string)
    ensures StartsWith(expected, r) && '(' !in r
    ensures |r| == |expected| || expected[|r|] == '('
  {
    FirstPieceSpec(expected, '(');
    Split(expected, '(')[0]
  }

  /** The variables of the loop of `parse_documentation`. */
  datatype Scan = Scan(signatures: seq<string>, lookForSignature: bool, bodyStarted: bool, body: seq<string>)

  const Start: Scan := Scan([], true, false, [])

  /** `line.match(/^\s+/)` */
  predicate Indented(line: string) {
    |line| > 0 && IsSpace(line[0])
  }

  /** The redundant `ufunc(...)` line dropped unless a ufunc itself is documented. */
  predicate SkippedUfunc(line: string, prefix: string, language: string) {
    language == Python && prefix != "ufunc" && StartsWith(Trim(line), "ufunc(")
  }

  /** A Python signature broken across lines goes on in an indented line. */
  predicate Continuation(line: string, language: string) {
    language == Python && Indented(line)
  }

  /** The lines the signature scan takes in: dropped, continuing a signature or starting one. */
  predicate Consumed(line: string, prefix: string, language: string) {
    SkippedUfunc(line, prefix, language) || Continuation(line, language) || StartsWith(Trim(line), prefix)
  }

  /** The line on which the scan for signatures stops for good. */
  predicate EndsScan(s: Scan, line: string, prefix: string, language: string) {
    s.lookForSignature && Trim(line) != "" && !Consumed(line, prefix, language)
  }

  /** `signatures[signatures.length - 1] += tail`. With no signature yet the
      write goes to index -1, which is no element: nothing changes. */
  function ExtendLast(signatures: seq<string>, tail: string): (r: seq<string>)
    ensures |r| == |signatures|
  {
    if |signatures| == 0 then signatures
    else signatures[|signatures| - 1 := signatures[|signatures| - 1] + tail]
  }

  /** One turn of the loop of `parse_documentation`. */
  function ScanLine(s: Scan, line: string, prefix: string, language: string): Scan {
    if s.lookForSignature && SkippedUfunc(line, prefix, language) then s
    else if s.lookForSignature && Continuation(line, language) then
      s.(signatures := ExtendLast(s.signatures, " " + Trim(line)))
    else if s.lookForSignature && StartsWith(Trim(line), prefix) then
      s.(signatures := s.signatures + [Trim(line)])
    else
      var started := s.bodyStarted || Trim(line) != "";
      Scan(s.signatures, s.lookForSignature && Trim(line) == "", started, if started then s.body + [line] else s.body)
  }

  /** The loop state after `lines`. The scan for signatures goes on exactly
      until the body starts, and no line is kept for the body before that. */
  function ScanAll(lines: seq<string>, prefix: string, language: string): (r: Scan)
    ensures r.lookForSignature == !r.bodyStarted
    ensures !r.bodyStarted ==> r.body == []
    decreases |lines|
  {
    if |lines| == 0 then Start
    else ScanLine(ScanAll(lines[..|lines| - 1], prefix, language), lines[|lines| - 1], prefix, language)
  }

  /** `parse_documentation(documentation, expected_signature, language)` */
  function Parse(documentation: string, expected: string, language: string): Documentation {
    var s := ScanAll(Split(documentation, '\n'), SignaturePrefix(expected), language);
    Documentation(s.signatures, Join(s.body, '\n'), Contains(documentation, "```\n"))
  }

  method ParseDocumentation(documentation: string, expectedSignature: string, language: string)
    returns (result: Documentation)
    ensures result == Parse(documentation, expectedSignature, language)
  {
    var isMarkdownLike := Contains(documentation, "```\n");
    var prefix := SignaturePrefix(expectedSignature);
    var signatures: seq<string> := [];
    var lookForSignature := true;
    var bodyStarted := false;
    var bodyLines: seq<string> := [];
    var lines := Split(documentation, '\n');
    var i := 0;
    while i < |lines|
      invariant 0 <= i <= |lines|
      invariant Scan(signatures, lookForSignature, bodyStarted, bodyLines) == ScanAll(lines[..i], prefix, language)
    {
      var line := lines[i];
      assert lines[..i + 1][..i] == lines[..i];
      i := i + 1;
      if lookForSignature {
        if language == Python {
          if prefix != "ufunc" && StartsWith(Trim(line), "ufunc(") {
            continue;
          }
          if Indented(line) {
            if |signatures| > 0 {
              signatures := signatures[|signatures| - 1 := signatures[|signatures| - 1] + (" " + Trim(line))];
            }
            continue;
          }
        }
        if StartsWith(Trim(line), prefix) {
          signatures := signatures + [Trim(line)];
          continue;
        }
        if Trim(line) != "" {
          lookForSignature := false;
        }
      }
      if !bodyStarted && Trim(line) != "" {
        bodyStarted := true;
      }
      if bodyStarted {
        bodyLines := bodyLines + [line];
      }
    }
    assert lines[..|lines|] == lines;
    result := Documentation(signatures, Join(bodyLines, '\n'), isMarkdownLike);
  }

  /** The loop state after one more line. */
  lemma ScanSnoc(lines: seq<string>, line: string, prefix: string, language: string)
    ensures ScanAll(lines + [line], prefix, language) == ScanLine(ScanAll(lines, prefix, language), line, prefix, language)
  {
    assert (lines + [line])[..|lines|] == lines;
  }

  /** Line `i` ends the scan, the body is that line and every line after it,
      and the signatures are the ones collected before it. */
  predicate BodyFrom(lines: seq<string>, i: int, prefix: string, language: string) {
    && 0 <= i < |lines|
    && EndsScan(ScanAll(lines[..i], prefix, language), lines[i], prefix, language)
    && ScanAll(lines, prefix, language).body == lines[i..]
    && ScanAll(lines, prefix, language).signatures == ScanAll(lines[..i], prefix, language).signatures
  }

  /** The body starts at the first non-blank line the signature scan does not
      take in, and holds that line and every line after it, blank or not; the
      signatures are the ones collected before that line, so a later mention
      of the name is never taken for a signature. Without such a line the
      scan is still on and the body is empty. */
  lemma {:induction false} BodyAfterSignatures(lines: seq<string>, prefix: string, language: string)
    ensures || (ScanAll(lines, prefix, language).lookForSignature && ScanAll(lines, prefix, language).body == [])
            || exists i :: BodyFrom(lines, i, prefix, language)
    decreases |lines|
  {
    if |lines| > 0 {
      var n := |lines| - 1;
      var before := lines[..n];
      var line := lines[n];
      var pre := ScanAll(before, prefix, language);
      var s := ScanAll(lines, prefix, language);
      assert s == ScanLine(pre, line, prefix, language);
      BodyAfterSignatures(before, prefix, language);
      if pre.lookForSignature {
        StepWhileScanning(pre, line, prefix, language);
        if EndsScan(pre, line, prefix, language) {
          assert lines[n..] == [line];
          assert BodyFrom(lines, n, prefix, language);
        }
      } else {
        StepAfterScan(pre, line, prefix, language);
        var i :| BodyFrom(before, i, prefix, language);
        assert before[..i] == lines[..i];
        SuffixGrows(lines, i);
        assert BodyFrom(lines, i, prefix, language);
      }
    }
  }

  lemma SuffixGrows<T>(s: seq<T>, i: nat)
    requires i < |s|
    ensures s[i..] == s[..|s| - 1][i..] + [s[|s| - 1]]
  {
  }

  /** While the scan is on, a line either leaves the body empty or ends the
      scan and starts the body. */
  lemma StepWhileScanning(pre: Scan, line: string, prefix: string, language: string)
    requires pre.lookForSignature && !pre.bodyStarted && pre.body == []
    ensures var s := ScanLine(pre, line, prefix, language);
      || (s.lookForSignature && s.body == [])
      || (EndsScan(pre, line, prefix, language) && s.body == [line] && s.signatures == pre.signatures)
  {
  }

  /** Once the body has started, every line is added to it and nothing else changes. */
  lemma StepAfterScan(pre: Scan, line: string, prefix: string, language: string)
    requires !pre.lookForSignature && pre.bodyStarted
    ensures ScanLine(pre, line, prefix, language) == pre.(body := pre.body + [line])
  {
  }

  /** Every signature starts with the prefix of the expected signature; a
      continuation only adds text after it. */
  lemma {:induction false} SignaturesStartWithPrefix(lines: seq<string>, prefix: string, language: string)
    ensures AllStartWith(ScanAll(lines, prefix, language).signatures, prefix)
    decreases |lines|
  {
    if |lines| > 0 {
      var n := |lines| - 1;
      var pre := ScanAll(lines[..n], prefix, language);
      SignaturesStartWithPrefix(lines[..n], prefix, language);
      var line := lines[n];
      if pre.lookForSignature && !SkippedUfunc(line, prefix, language) && Continuation(line, language)
        && |pre.signatures| > 0
      {
        var last := |pre.signatures| - 1;
        var sigs := ExtendLast(pre.signatures, " " + Trim(line));
        assert StartsWith(pre.signatures[last], prefix);
        StartsWithAppend(pre.signatures[last], " " + Trim(line), prefix);
        assert forall k :: 0 <= k < last ==> sigs[k] == pre.signatures[k];
      }
    }
  }

  predicate AllStartWith(signatures: seq<string>, prefix: string) {
    forall k :: 0 <= k < |signatures| ==> StartsWith(signatures[k], prefix)
  }

  /** While the scan is on, a dropped `ufunc(...)` line and a continuation
      with no signature to continue leave the loop state as it was. */
  lemma DroppedWhileScanning(lines: seq<string>, line: string, prefix: string, language: string)
    requires ScanAll(lines, prefix, language).lookForSignature
    requires SkippedUfunc(line, prefix, language)
      || (Continuation(line, language) && ScanAll(lines, prefix, language).signatures == [])
    ensures ScanAll(lines + [line], prefix, language) == ScanAll(lines, prefix, language)
  {
    ScanSnoc(lines, line, prefix, language);
  }

  /** A signature broken across two lines: the indented second line is added,
      trimmed and after one space, to the signature the first line started. */
  lemma ContinuedSignature(lines: seq<string>, first: string, second: string, prefix: string)
    requires ScanAll(lines, prefix, Python).lookForSignature
    requires StartsWith(Trim(first), prefix) && !Indented(first) && !SkippedUfunc(first, prefix, Python)
    requires Indented(second) && !SkippedUfunc(second, prefix, Python)
    ensures var s := ScanAll(lines + [first, second], prefix, Python);
      && s.lookForSignature
      && s.signatures == ScanAll(lines, prefix, Python).signatures + [Trim(first) + " " + Trim(second)]
  {
    var pre := ScanAll(lines, prefix, Python);
    ScanSnoc(lines, first, prefix, Python);
    var mid := ScanAll(lines + [first], prefix, Python);
    assert mid == pre.(signatures := pre.signatures + [Trim(first)]);
    ScanSnoc(lines + [first], second, prefix, Python);
    assert lines + [first] + [second] == lines + [first, second];
    assert ScanLine(mid, second, prefix, Python).signatures == ExtendLast(mid.signatures, " " + Trim(second));
    LastExtended(pre.signatures, Trim(first), " " + Trim(second));
    assert Trim(first) + (" " + Trim(second)) == Trim(first) + " " + Trim(second);
  }

  lemma LastExtended(signatures: seq<string>, last: string, tail: string)
    ensures ExtendLast(signatures + [last], tail) == signatures + [last + tail]
  {
    assert (signatures + [last])[|signatures| := last + tail] == signatures + [last + tail];
  }

  // ---------------------------------------------------------------------
  // wrap_code

  /** The text between the opening line of a fence for `language` and the
      closing fence. */
  function FencedText(fence: string, language: string): string
    requires |fence| >= |language| + 8
  {
    fence[|language| + 4..|fence| - 4]
  }

  /** `wrap_code(code, language)`: a fenced block opened with the language
      and closed on a line of its own. */
  function WrapCode(code: string, language: string): (r: string)
    ensures StartsWith(r, "```" + language + "\n") && EndsWith(r, "\n```\n")
    ensures |r| >= |language| + 9
  {
    "```" + language + "\n" + code + (if EndsWith(code, "\n") then "" else "\n") + "```\n"
  }

  /** The fence holds the code, with a line break added only when the code
      does not end with one. */
  lemma WrapCodeHolds(code: string, language: string)
    ensures var inner := FencedText(WrapCode(code, language), language);
      && (EndsWith(code, "\n") ==> inner == code)
      && (!EndsWith(code, "\n") ==> inner == code + "\n")
  {
    var opening := "```" + language + "\n";
    var newline := if EndsWith(code, "\n") then "" else "\n";
    var r := WrapCode(code, language);
    assert r == opening + (code + newline) + "```\n";
    assert |opening| == |language| + 4;
    assert r[|opening|..|r| - 4] == code + newline;
  }

  /** Ending the code with a line break first changes nothing. */
  lemma WrapCodeOneLineBreak(code: string, language: string)
    requires !EndsWith(code, "\n")
    ensures WrapCode(code + "\n", language) == WrapCode(code, language)
  {
    EndsWithAppend(code, "\n");
  }

  // ---------------------------------------------------------------------
  // string_to_markdown

  const DetailsOpen: string := "<details class=\"lsp-signatures\">\n<summary>More signatures</summary>\n\n"

  const DetailsClose: string := "\n</details>\n\n"

  /** The signatures fenced in order, each fence followed by `sep`. */
  function Fences(signatures: seq<string>, language: string, sep: string): string
    decreases |signatures|
  {
    if |signatures| == 0 then ""
    else Fences(signatures[..|signatures| - 1], language, sep) + WrapCode(signatures[|signatures| - 1], language) + sep
  }

  /** The later signatures go into a collapsed `<details>` block. */
  predicate Collapsed(signatures: seq<string>, language: string, collapse: bool) {
    language == Python && collapse && |signatures| > 1
  }

  /** The Markdown of the signatures. */
  function SignatureMarkdown(signatures: seq<string>, language: string, skip: bool, collapse: bool): string {
    if skip then ""
    else if Collapsed(signatures, language, collapse) then
      WrapCode(signatures[0], language) + DetailsOpen + Fences(signatures[1..], language, "\n") + DetailsClose
    else Fences(signatures, language, "")
  }

  /** The Markdown of the body: converted when it is Python documentation in
      reStructuredText, a plain fence otherwise. */
  function BodyMarkdown(value: string, language: string): string {
    if language == Python && Rst.LooksLikeRst(value) then Rst.Converted(value) else WrapCode(value, "")
  }

  /** `string_to_markdown(text, language, signature, skip_signatures, collapse_signatures)` */
  function ToMarkdown(text: string, language: string, signature: string, skip: bool, collapse: bool): string {
    var d := Parse(text, signature, language);
    if d.isMarkdownLike then text
    else SignatureMarkdown(d.signatures, language, skip, collapse) + BodyMarkdown(d.value, language)
  }

  method StringToMarkdown(
    text: string, language: string, signature: string, skipSignatures: bool, collapseSignatures: bool,
    parsers: Rst.ParserTable)
    returns (markdown: string)
    requires parsers.Valid() && parsers.AllFresh()
    modifies parsers.Objects()
    ensures markdown == ToMarkdown(text, language, signature, skipSignatures, collapseSignatures)
    ensures parsers.AllFresh()
  {
    var documentation := ParseDocumentation(text, signature, language);
    if documentation.isMarkdownLike {
      return text;
    }
    markdown := SignaturesToMarkdown(documentation.signatures, language, skipSignatures, collapseSignatures);
    if language == Python && Rst.LooksLikeRst(documentation.value) {
      var converted := Rst.RstToMarkdown(documentation.value, parsers);
      markdown := markdown + converted;
    } else {
      markdown := markdown + WrapCode(documentation.value, "");
    }
  }

  /** Documentation holding a fenced code line is returned exactly as it came. */
  lemma MarkdownPassesThrough(text: string, language: string, signature: string, skip: bool, collapse: bool)
    requires Contains(text, "```\n")
    ensures ToMarkdown(text, language, signature, skip, collapse) == text
  {
  }

  /** With the signatures skipped only the body is shown. */
  lemma SkippedSignatures(text: string, language: string, signature: string, collapse: bool)
    requires !Contains(text, "```\n")
    ensures ToMarkdown(text, language, signature, true, collapse)
      == BodyMarkdown(Parse(text, signature, language).value, language)
  {
  }

  /** A body that is not Python reStructuredText is shown as a fence without
      a language, one with at least an empty line even for an empty body. */
  lemma PlainBodyFenced(value: string, language: string)
    requires language != Python || !Rst.LooksLikeRst(value)
    ensures var r := BodyMarkdown(value, language);
      && StartsWith(r, "```\n") && EndsWith(r, "\n```\n") && |r| >= 9
      && (EndsWith(value, "\n") ==> FencedText(r, "") == value)
      && (!EndsWith(value, "\n") ==> FencedText(r, "") == value + "\n")
  {
    WrapCodeHolds(value, "");
  }

  /** Every signature is shown fenced in the language of the documentation,
      in either layout, unless the signatures are skipped. */
  lemma EverySignatureShown(signatures: seq<string>, language: string, collapse: bool, k: nat)
    requires k < |signatures|
    ensures Contains(SignatureMarkdown(signatures, language, false, collapse), WrapCode(signatures[k], language))
  {
    var fence := WrapCode(signatures[k], language);
    if Collapsed(signatures, language, collapse) {
      var later := signatures[1..];
      var fences := Fences(later, language, "\n");
      if k == 0 {
        ContainsFirst(fence, DetailsOpen, fences, DetailsClose);
      } else {
        assert later[k - 1] == signatures[k];
        FenceInFences(later, language, "\n", k - 1);
        ContainsWithin(WrapCode(signatures[0], language) + DetailsOpen, fences, DetailsClose, fence);
      }
    } else {
      FenceInFences(signatures, language, "", k);
    }
  }

  /** The fence of each signature occurs in the fences of all of them. */
  lemma {:induction false} FenceInFences(signatures: seq<string>, language: string, sep: string, k: nat)
    requires k < |signatures|
    ensures Contains(Fences(signatures, language, sep), WrapCode(signatures[k], language))
    decreases |signatures|
  {
    var n := |signatures| - 1;
    var earlier := signatures[..n];
    var fence := WrapCode(signatures[k], language);
    assert Fences(signatures, language, sep) == Fences(earlier, language, sep) + WrapCode(signatures[n], language) + sep;
    if k == n {
      ContainsMiddle(Fences(earlier, language, sep), fence, sep);
    } else {
      assert earlier[k] == signatures[k];
      FenceInFences(earlier, language, sep, k);
      ContainsExtended(Fences(earlier, language, sep), WrapCode(signatures[n], language), sep, fence);
    }
  }

  lemma ContainsMiddle(before: string, part: string, after: string)
    ensures Contains(before + part + after, part)
  {
    var text := before + part + after;
    assert text[|before|..|before| + |part|] == part;
    assert StartsAt(text, |before|, part);
  }

  lemma ContainsExtended(text: string, more: string, evenMore: string, part: string)
    requires Contains(text, part)
    ensures Contains(text + more + evenMore, part)
  {
    var j := IndexOf(text, part, 0).value;
    var longer := text + more + evenMore;
    assert longer[j..j + |part|] == text[j..j + |part|];
    assert StartsAt(longer, j, part);
  }

  lemma ContainsFirst(part: string, a: string, b: string, c: string)
    ensures Contains(part + a + b + c, part)
  {
    var text := part + a + b + c;
    assert text[0..|part|] == part;
    assert StartsAt(text, 0, part);
  }

  lemma ContainsWithin(before: string, middle: string, after: string, part: string)
    requires Contains(middle, part)
    ensures Contains(before + middle + after, part)
  {
    var j := IndexOf(middle, part, 0).value;
    var text := before + middle + after;
    assert text[|before| + j..|before| + j + |part|] == middle[j..j + |part|];
    assert StartsAt(text, |before| + j, part);
  }

  /** A doctest converts to the fence `wrap_code` gives its code in Python. */
  lemma DoctestIsWrappedCode(code: seq<string>)
    requires |code| >= 1 && !StartsWith(code[0], ": ") && Trim(code[|code| - 1]) != ""
    requires forall i :: 0 <= i < |code| ==> '\n' !in code[i]
    ensures Rst.Converted(Join(RstProperties.Prompted(code), '\n')) == WrapCode(Join(code, '\n'), Python)
  {
    RstProperties.DoctestBlock(code);
    LastLineEnds(code);
    WrapCodeAddsLineBreak(Join(code, '\n'), Python);
    PythonFence();
  }

  lemma WrapCodeAddsLineBreak(code: string, language: string)
    requires !EndsWith(code, "\n")
    ensures WrapCode(code, language) == "```" + language + "\n" + code + "\n" + "```\n"
  {
  }

  lemma PythonFence()
    ensures "```" + Python == "```python" && "```" + "\n" == "```\n"
  {
  }

  lemma SnocLast<T>(s: seq<T>)
    requires |s| >= 1
    ensures s[..|s| - 1] + [s[|s| - 1]] == s
  {
  }

  /** A join ends with a character of its last piece. */
  lemma LastLineEnds(code: seq<string>)
    requires |code| >= 1 && Trim(code[|code| - 1]) != ""
    requires forall i :: 0 <= i < |code| ==> '\n' !in code[i]
    ensures !EndsWith(Join(code, '\n'), "\n")
  {
    var n := |code| - 1;
    var last := code[n];
    assert |last| > 0 by {
      assert Trim("") == "";
    }
    var joined := Join(code, '\n');
    if n > 0 {
      JoinAppend(code[..n], last, '\n');
      SnocLast(code);
      EndsWithAppend(Join(code[..n], '\n') + ['\n'], last);
    }
    assert EndsWith(joined, last);
    assert joined[|joined| - 1] == last[|last| - 1];
    assert last[|last| - 1] in last;
  }

  /** The signature part of `string_to_markdown`. */
  method SignaturesToMarkdown(signatures: seq<string>, language: string, skip: bool, collapse: bool)
    returns (markdown: string)
    ensures markdown == SignatureMarkdown(signatures, language, skip, collapse)
  {
    markdown := "";
    if skip {
      return;
    }
    if language == Python && collapse && |signatures| > 1 {
      var fences := FencesOf(signatures[1..], language, "\n");
      markdown := markdown + WrapCode(signatures[0], language) + DetailsOpen + fences + DetailsClose;
    } else {
      markdown := FencesOf(signatures, language, "");
    }
  }

  /** Each signature fenced in turn, `sep` after each fence. */
  method FencesOf(signatures: seq<string>, language: string, sep: string) returns (fences: string)
    ensures fences == Fences(signatures, language, sep)
  {
    fences := "";
    for i := 0 to |signatures|
      invariant fences == Fences(signatures[..i], language, sep)
    {
      assert signatures[..i + 1][..i] == signatures[..i];
      fences := fences + WrapCode(signatures[i], language) + sep;
    }
    assert signatures[..|signatures|] == signatures;
  }
}
