/** The JavaScript string operations the documentation converter relies on:
    character classes of its regular expressions, `trim`, `startsWith`,
    `includes`, first-occurrence `replace`, `split('\n')` and `join('\n')`. */
module Text {

  datatype Option<+T> = None | Some(value: T)

  /** `\s` in a JavaScript regular expression. It is also exactly the set of
      characters `trim`, `trimLeft` and `trimRight` remove (WhiteSpace and
      LineTerminator of ECMA-262). */
  predicate IsSpace(c: char) {
    || c == ' ' || c == '\t' || c == '\n' || c == '\r' || c == '\U{000B}' || c == '\U{000C}'
    || c == '\U{00A0}' || c == '\U{1680}' || ('\U{2000}' <= c <= '\U{200A}')
    || c == '\U{2028}' || c == '\U{2029}' || c == '\U{202F}' || c == '\U{205F}'
    || c == '\U{3000}' || c == '\U{FEFF}'
  }

  /** The characters the regular-expression `.` does not match. */
  predicate IsLineTerminator(c: char) {
    c == '\n' || c == '\r' || c == '\U{2028}' || c == '\U{2029}'
  }

  /** `\w` in a JavaScript regular expression (without the `u` flag). */
  predicate IsWordChar(c: char) {
    ('a' <= c <= 'z') || ('A' <= c <= 'Z') || ('0' <= c <= '9') || c == '_'
  }

  predicate AllSpace(s: string) {
    forall i :: 0 <= i < |s| ==> IsSpace(s[i])
  }

  /** `s.trimLeft()`: the suffix left after removing the leading whitespace
      (characterised by `TrimLeftSpec`). */
  function TrimLeft(s: string): (r: string)
    ensures |r| <= |s|
    decreases |s|
  {
    if |s| > 0 && IsSpace(s[0]) then TrimLeft(s[1..]) else s
  }

  /** `trimLeft` removes exactly the leading run of whitespace. */
  lemma {:induction false} TrimLeftSpec(s: string)
    ensures var r := TrimLeft(s);
      && r == s[|s| - |r|..]
      && AllSpace(s[..|s| - |r|])
      && (r == [] || !IsSpace(r[0]))
    decreases |s|
  {
    if |s| > 0 && IsSpace(s[0]) {
      var r := TrimLeft(s[1..]);
      TrimLeftSpec(s[1..]);
      assert s[..|s| - |r|] == [s[0]] + s[1..][..|s| - 1 - |r|];
    }
  }

  /** `s.trimRight()`: the prefix left after removing the trailing whitespace
      (characterised by `TrimRightSpec`). */
  function TrimRight(s: string): (r: string)
    ensures |r| <= |s|
    decreases |s|
  {
    if |s| > 0 && IsSpace(s[|s| - 1]) then TrimRight(s[..|s| - 1]) else s
  }

  /** `trimRight` removes exactly the trailing run of whitespace. */
  lemma {:induction false} TrimRightSpec(s: string)
    ensures var r := TrimRight(s);
      && r == s[..|r|]
      && AllSpace(s[|r|..])
      && (r == [] || !IsSpace(r[|r| - 1]))
    decreases |s|
  {
    if |s| > 0 && IsSpace(s[|s| - 1]) {
      var r := TrimRight(s[..|s| - 1]);
      TrimRightSpec(s[..|s| - 1]);
      assert s[|r|..] == s[..|s| - 1][|r|..] + [s[|s| - 1]];
    }
  }

  /** Trimming on the right stops right after the last non-whitespace character. */
  lemma TrimRightKeeps(s: string, n: nat)
    requires 1 <= n <= |s| && !IsSpace(s[n - 1]) && AllSpace(s[n..])
    ensures TrimRight(s) == s[..n]
  {
    TrimRightSpec(s);
  }

  /** `s.trim()` */
  function Trim(s: string): string {
    TrimRight(TrimLeft(s))
  }

  /** Length of the leading whitespace, `line.length - line.trimLeft().length`. */
  function LeadingSpace(s: string): (n: nat)
    ensures n <= |s|
  {
    |s| - |TrimLeft(s)|
  }

  /** The leading whitespace is all whitespace and is followed by a non-whitespace character, if any. */
  lemma LeadingSpaceSpec(s: string)
    ensures var n := LeadingSpace(s);
      AllSpace(s[..n]) && (n == |s| || !IsSpace(s[n]))
  {
    TrimLeftSpec(s);
    var r := TrimLeft(s);
    if |r| > 0 {
      assert s[|s| - |r|] == r[0];
    }
  }

  /** `s.substr(n)` with a non-negative start: everything from index `n` on. */
  function Substr(s: string, n: nat): (r: string)
    ensures n <= |s| ==> s == s[..n] + r
    ensures n >= |s| ==> r == ""
  {
    if n <= |s| then s[n..] else ""
  }

  predicate StartsWith(s: string, p: string) {
    |p| <= |s| && s[..|p|] == p
  }

  predicate EndsWith(s: string, p: string) {
    |p| <= |s| && s[|s| - |p|..] == p
  }

  /** `p` occurs in `s` at index `i`. */
  predicate StartsAt(s: string, i: nat, p: string) {
    i + |p| <= |s| && s[i..i + |p|] == p
  }

  /** Index of the first occurrence of `p` in `s` at or after `from`. */
  function IndexOf(s: string, p: string, from: nat): (r: Option<nat>)
    requires from <= |s|
    ensures r.Some? ==> from <= r.value && StartsAt(s, r.value, p)
    ensures r.Some? ==> forall j :: from <= j < r.value ==> !StartsAt(s, j, p)
    ensures r.None? ==> forall j :: from <= j <= |s| ==> !StartsAt(s, j, p)
    decreases |s| - from
  {
    if StartsAt(s, from, p) then Some(from)
    else if from == |s| then None
    else IndexOf(s, p, from + 1)
  }

  lemma StartsWithAppend(s: string, t: string, p: string)
    requires StartsWith(s, p)
    ensures StartsWith(s + t, p)
  {
    assert (s + t)[..|p|] == s[..|p|];
  }

  lemma EndsWithAppend(s: string, t: string)
    ensures EndsWith(s + t, t)
  {
    assert (s + t)[|s|..] == t;
  }

  /** `s.includes(p)` */
  predicate Contains(s: string, p: string) {
    IndexOf(s, p, 0).Some?
  }

  /** A pattern holding a character the string lacks does not occur in it. */
  lemma AbsentChar(s: string, p: string, c: char)
    requires c in p && c !in s
    ensures !Contains(s, p)
  {
    forall j | 0 <= j <= |s|
      ensures !StartsAt(s, j, p)
    {
      if j + |p| <= |s| {
        assert c !in s[j..j + |p|];
      }
    }
  }

  /** `s.replace(p, rep)` with a string pattern: only the first occurrence is replaced. */
  function ReplaceFirst(s: string, p: string, rep: string): (r: string)
    ensures !Contains(s, p) ==> r == s
    ensures Contains(s, p) ==>
      var i := IndexOf(s, p, 0).value;
      r == s[..i] + rep + s[i + |p|..]
  {
    match IndexOf(s, p, 0)
    case None => s
    case Some(i) => s[..i] + rep + s[i + |p|..]
  }

  /** The character sets a scan in the regular expressions stops at. */
  datatype Stop =
    | AtLineTerminator    // what `.` does not match
    | AtSpace             // what `\S` does not match
    | AtBacktick          // what `[^`]` does not match
    | AtOpenOrBacktick    // what `[^<`]` does not match
    | AtCloseOrBacktick   // what `[^>`]` does not match
    | AtNonUnderscore     // what `_` does not match
    | AtColonOrSpace      // what `[^: ]` does not match

  predicate Stops(k: Stop, c: char) {
    match k
    case AtLineTerminator => IsLineTerminator(c)
    case AtSpace => IsSpace(c)
    case AtBacktick => c == '`'
    case AtOpenOrBacktick => c == '<' || c == '`'
    case AtCloseOrBacktick => c == '>' || c == '`'
    case AtNonUnderscore => c != '_'
    case AtColonOrSpace => c == ':' || c == ' '
  }

  /** End of the longest run of characters, starting at `p`, that are not in the set `k`. */
  function RunEnd(s: string, p: nat, k: Stop): (e: nat)
    requires p <= |s|
    ensures p <= e <= |s|
    ensures forall i :: p <= i < e ==> !Stops(k, s[i])
    ensures e < |s| ==> Stops(k, s[e])
    decreases |s| - p
  {
    if p == |s| || Stops(k, s[p]) then p else RunEnd(s, p + 1, k)
  }

  /** A run that meets no stopping character goes on to the end. */
  lemma {:induction false} RunToEnd(s: string, p: nat, k: Stop)
    requires p <= |s|
    requires forall i :: p <= i < |s| ==> !Stops(k, s[i])
    ensures RunEnd(s, p, k) == |s|
    decreases |s| - p
  {
    if p < |s| {
      RunToEnd(s, p + 1, k);
    }
  }

  /** A run that ends at a stopping character, or at the end, ends there. */
  lemma RunEndIs(s: string, p: nat, e: nat, k: Stop)
    requires p <= e <= |s|
    requires forall i :: p <= i < e ==> !Stops(k, s[i])
    requires e < |s| ==> Stops(k, s[e])
    ensures RunEnd(s, p, k) == e
  {
  }

  /** `'-'.repeat(n)` */
  function Dashes(n: nat): (r: string)
    ensures |r| == n && forall i :: 0 <= i < n ==> r[i] == '-'
  {
    seq(n, _ => '-')
  }

  /** `s.split(sep)` for a one-character separator: the pieces between separators. */
  function Split(s: string, sep: char): (r: seq<string>)
    ensures |r| >= 1
    ensures forall i :: 0 <= i < |r| ==> sep !in r[i]
    decreases |s|
  {
    if |s| == 0 then [""]
    else
      var rest := Split(s[1..], sep);
      if s[0] == sep then [""] + rest else [[s[0]] + rest[0]] + rest[1..]
  }

  /** `s.split(sep)[0]` is the text before the first separator, or all of `s` if it has none. */
  lemma {:induction false} FirstPieceSpec(s: string, sep: char)
    ensures var p := Split(s, sep)[0];
      && StartsWith(s, p) && sep !in p && (|p| == |s| || s[|p|] == sep)
    decreases |s|
  {
    if |s| > 0 && s[0] != sep {
      var rest := Split(s[1..], sep);
      FirstPieceSpec(s[1..], sep);
      var p := [s[0]] + rest[0];
      assert Split(s, sep)[0] == p;
      assert s[..|p|] == [s[0]] + s[1..][..|rest[0]|];
    }
  }

  /** `lines.join(sep)` */
  function Join(lines: seq<string>, sep: char): string {
    if |lines| == 0 then ""
    else if |lines| == 1 then lines[0]
    else lines[0] + [sep] + Join(lines[1..], sep)
  }

  /** Joining the pieces puts back the separators `Split` removed: no character is lost. */
  lemma {:induction false} JoinSplit(s: string, sep: char)
    ensures Join(Split(s, sep), sep) == s
    decreases |s|
  {
    if |s| > 0 {
      var rest := Split(s[1..], sep);
      JoinSplit(s[1..], sep);
      if s[0] == sep {
        assert Split(s, sep) == [""] + rest;
        assert Join([""] + rest, sep) == "" + [sep] + Join(rest, sep);
      } else {
        var r := Split(s, sep);
        assert r == [[s[0]] + rest[0]] + rest[1..];
        if |rest| == 1 {
          assert r == [[s[0]] + rest[0]];
        } else {
          assert r[1..] == rest[1..];
          assert Join(rest, sep) == rest[0] + [sep] + Join(rest[1..], sep);
        }
      }
    }
  }

  /** Splitting a join of separator-free pieces gives the pieces back. */
  lemma {:induction false} SplitJoin(lines: seq<string>, sep: char)
    requires |lines| >= 1
    requires forall i :: 0 <= i < |lines| ==> sep !in lines[i]
    ensures Split(Join(lines, sep), sep) == lines
    decreases |lines|, |lines[0]|
  {
    var head := lines[0];
    if |head| == 0 {
      if |lines| > 1 {
        var rest := lines[1..];
        SplitJoin(rest, sep);
        assert Join(lines, sep) == [sep] + Join(rest, sep);
        assert Join(lines, sep)[1..] == Join(rest, sep);
      }
    } else {
      var shorter := [head[1..]] + lines[1..];
      assert forall i :: 0 <= i < |shorter| ==> sep !in shorter[i] by {
        forall i | 0 <= i < |shorter| ensures sep !in shorter[i] {
          if i == 0 { assert forall c :: c in head[1..] ==> c in head; } else { assert shorter[i] == lines[i]; }
        }
      }
      SplitJoin(shorter, sep);
      JoinTail(lines, sep);
      var j := Join(lines, sep);
      assert j[0] == head[0];
      assert head[0] != sep by { assert head[0] in head; }
      var rest := Split(j[1..], sep);
      assert rest == shorter;
      assert Split(j, sep) == [[head[0]] + rest[0]] + rest[1..];
      assert [head[0]] + head[1..] == head;
      assert lines == [head] + lines[1..];
    }
  }

  /** Dropping the first character of a join whose first piece is non-empty. */
  lemma JoinTail(lines: seq<string>, sep: char)
    requires |lines| >= 1 && |lines[0]| >= 1
    ensures |Join(lines, sep)| >= 1 && Join(lines, sep)[0] == lines[0][0]
    ensures Join(lines, sep)[1..] == Join([lines[0][1..]] + lines[1..], sep)
  {
    var shorter := [lines[0][1..]] + lines[1..];
    if |lines| > 1 {
      assert shorter[1..] == lines[1..];
    }
  }

  /** Appending one more piece to a non-empty join adds one separator and the piece. */
  lemma {:induction false} JoinAppend(lines: seq<string>, line: string, sep: char)
    requires |lines| >= 1
    ensures Join(lines + [line], sep) == Join(lines, sep) + [sep] + line
    decreases |lines|
  {
    if |lines| == 1 {
      assert (lines + [line])[1..] == [line];
    } else {
      assert (lines + [line])[1..] == lines[1..] + [line];
      JoinAppend(lines[1..], line, sep);
    }
  }

  /** Joining a first piece before others puts one separator after it. */
  lemma JoinCons(first: string, rest: seq<string>, sep: char)
    requires |rest| >= 1
    ensures Join([first] + rest, sep) == first + [sep] + Join(rest, sep)
  {
    assert ([first] + rest)[1..] == rest;
  }

  /** A string is blank (trims to nothing) exactly when it is all whitespace. */
  lemma BlankIffAllSpace(s: string)
    ensures Trim(s) == "" <==> AllSpace(s)
  {
    var l := TrimLeft(s);
    TrimLeftSpec(s);
    TrimRightSpec(l);
    if AllSpace(s) {
      TrimLeftOfSpace(s);
    }
    if Trim(s) == "" {
      assert l[0..] == l;
      assert s == s[..|s| - |l|] + l;
    }
  }

  lemma {:induction false} TrimLeftOfSpace(s: string)
    requires AllSpace(s)
    ensures TrimLeft(s) == ""
    decreases |s|
  {
    if |s| > 0 {
      TrimLeftOfSpace(s[1..]);
    }
  }
}
