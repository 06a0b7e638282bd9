/** The ordered table of reStructuredText directives and roles
    (`RST_DIRECTIVES` in rst.ts). Each regular expression of the table is
    written out as a scanner that decides whether it matches at a given index
    and, if so, where the match ends and what replaces it. The two named
    rules, `highlight` and `code-block`, also expose their `language` group. */
module RstDirectives {
  import opened Text

  datatype Directive =
    | VersionChanged   // /\.\. versionchanged:: (?<version>\S+)(?<end>$|\n)/g
    | VersionAdded     // /\.\. versionadded:: (?<version>\S+)(?<end>$|\n)/g
    | Deprecated       // /\.\. deprecated:: (?<version>\S+)(?<end>$|\n)/g
    | Warning          // /\.\. warning::/g
    | SeeAlso          // /\.\. seealso::(?<short_form>.*)(?<end>$|\n)/g
    | Ref              // /:ref:`(?<label>[^<`]+?)\s*<(?<ref>[^>`]+?)>`/g
    | Link             // /`(?<label>[^<`]+?)(\n?)<(?<url>[^>`]+)>`_+/g
    | Mod              // /:mod:`(?<label>[^`]+)`/g
    | CurrentModule    // /\.\. currentmodule:: (?<module>.+)(?<end>$|\n)/g
    | MathRole         // /:math:`(?<latex>[^`]+?)`/g
    | Highlight        // /\.\. highlight:: (?<language>.+)(?<end>$|\n)/
    | CodeBlock        // /\.\. (code-block|productionlist)::(?<language>.*)(?<end>$|\n)/

  /** The table in its order: each rule is applied to the output of the previous ones. */
  const Table: seq<Directive> :=
    [VersionChanged, VersionAdded, Deprecated, Warning, SeeAlso, Ref, Link,
     Mod, CurrentModule, MathRole, Highlight, CodeBlock]

  /** All rules but the two named ones carry the `g` flag. */
  predicate IsGlobal(d: Directive) {
    d != Highlight && d != CodeBlock
  }

  /** A match: the index just past it, and the text that replaces it. */
  datatype Match = Match(stop: nat, replacement: string)

  /** A match of `<head>(?<group>.*)(?<end>$|\n)` (or `.+` when `nonEmpty`):
      the group, the captured end, and the index just past the match. */
  datatype LineMatch = LineMatch(group: string, end: string, stop: nat)

  /** `(?<end>$|\n)` at index `e`: what it captures, if it matches there.
      Without the `m` flag, `$` is the end of the whole input. */
  function LineEndAt(s: string, e: nat): (r: Option<string>)
    requires e <= |s|
    ensures r.Some? ==> e + |r.value| <= |s|
    ensures r.Some? ==> (r.value == "" && e == |s|) || (r.value == "\n" && s[e] == '\n')
  {
    if e == |s| then Some("")
    else if s[e] == '\n' then Some("\n")
    else None
  }

  /** `<head>(.*)($|\n)` at `p`. The greedy group stops at the first line
      terminator; backing off cannot help, since the character after a shorter
      group is never `\n` nor the end. */
  function LineDirectiveAt(s: string, p: nat, head: string, nonEmpty: bool): (r: Option<LineMatch>)
    requires p <= |s|
    ensures r.Some? ==> StartsAt(s, p, head) && p + |head| <= r.value.stop <= |s|
    ensures r.Some? ==> !nonEmpty || |r.value.group| > 0
  {
    if !StartsAt(s, p, head) then None
    else
      var q := p + |head|;
      var e := RunEnd(s, q, AtLineTerminator);
      if nonEmpty && e == q then None
      else
        match LineEndAt(s, e)
        case None => None
        case Some(end) => Some(LineMatch(s[q..e], end, e + |end|))
  }

  /** `.. <kind>:: (?<version>\S+)(?<end>$|\n)` at `p`, replaced by `<note><version>*<end>`. */
  function VersionNoteAt(s: string, p: nat, head: string, note: string): (r: Option<Match>)
    requires p <= |s|
    ensures r.Some? ==> StartsAt(s, p, head) && p + |head| < r.value.stop <= |s|
  {
    if !StartsAt(s, p, head) then None
    else
      var q := p + |head|;
      var e := RunEnd(s, q, AtSpace);
      if e == q then None
      else
        match LineEndAt(s, e)
        case None => None
        case Some(end) => Some(Match(e + |end|, note + s[q..e] + "*" + end))
  }

  /** `<head>(?<label>[^`]+)`` at `p` (greedy and lazy forms coincide: the
      group cannot cross a backtick); the label is wrapped in `open` and `close`. */
  function RoleAt(s: string, p: nat, head: string, open: string, close: string): (r: Option<Match>)
    requires p <= |s|
    ensures r.Some? ==> StartsAt(s, p, head) && p + |head| < r.value.stop <= |s|
  {
    if !StartsAt(s, p, head) then None
    else
      var q := p + |head|;
      var e := RunEnd(s, q, AtBacktick);
      if e == q || e == |s| then None
      else Some(Match(e + 1, open + s[q..e] + close))
  }

  /** Start of the run of whitespace that ends at `j`, looking no further left than `q`. */
  function TrailingSpaceStart(s: string, q: nat, j: nat): (t: nat)
    requires q <= j <= |s|
    ensures q <= t <= j
    ensures forall i :: t <= i < j ==> IsSpace(s[i])
    ensures t == q || !IsSpace(s[t - 1])
    decreases j
  {
    if j > q && IsSpace(s[j - 1]) then TrailingSpaceStart(s, q, j - 1) else j
  }

  /** `:ref:`label <target>`` at `p`, replaced by `label: `target``.
      The label is lazy: it ends where the whitespace before `<` begins, but
      keeps at least one character. */
  function RefAt(s: string, p: nat): (r: Option<Match>)
    requires p <= |s|
    ensures r.Some? ==> StartsAt(s, p, ":ref:`") && p + 6 < r.value.stop <= |s|
  {
    if !StartsAt(s, p, ":ref:`") then None
    else
      var q := p + 6;
      var j := RunEnd(s, q, AtOpenOrBacktick);
      if j == q || j == |s| || s[j] != '<' then None
      else
        var t := TrailingSpaceStart(s, q, j);
        var k := if t < q + 1 then q + 1 else t;
        var e := RunEnd(s, j + 1, AtCloseOrBacktick);
        if e == j + 1 || e + 1 >= |s| || s[e] != '>' || s[e + 1] != '`' then None
        else Some(Match(e + 2, s[q..k] + ": `" + s[j + 1..e] + "`"))
  }

  /** `` `label\n?<url>`_+ `` at `p`, replaced by `[label](url)`. The lazy label
      stops before an optional newline that precedes `<`. */
  function LinkAt(s: string, p: nat): (r: Option<Match>)
    requires p <= |s|
    ensures r.Some? ==> p < |s| && s[p] == '`' && p < r.value.stop <= |s|
  {
    if p == |s| || s[p] != '`' then None
    else
      var q := p + 1;
      var j := RunEnd(s, q, AtOpenOrBacktick);
      if j == q || j == |s| || s[j] != '<' then None
      else
        var k := if j - 1 >= q + 1 && s[j - 1] == '\n' then j - 1 else j;
        var e := RunEnd(s, j + 1, AtCloseOrBacktick);
        if e == j + 1 || e + 1 >= |s| || s[e] != '>' || s[e + 1] != '`' then None
        else
          var f := RunEnd(s, e + 2, AtNonUnderscore);
          if f == e + 2 then None
          else Some(Match(f, "[" + s[q..k] + "](" + s[j + 1..e] + ")"))
  }

  /** The `language` group of `highlight` or `code-block` when the rule matches at `p`. */
  function NamedMatchAt(d: Directive, s: string, p: nat): (r: Option<LineMatch>)
    requires d == Highlight || d == CodeBlock
    requires p <= |s|
    ensures r.Some? ==> p < r.value.stop <= |s|
  {
    if d == Highlight then LineDirectiveAt(s, p, ".. highlight:: ", true)
    else
      match LineDirectiveAt(s, p, ".. code-block::", false)
      case Some(m) => Some(m)
      case None => LineDirectiveAt(s, p, ".. productionlist::", false)
  }

  /** Whether rule `d` matches `s` at index `p`, and with what result. */
  function MatchAt(d: Directive, s: string, p: nat): (r: Option<Match>)
    requires p <= |s|
    ensures r.Some? ==> p < r.value.stop <= |s|
  {
    match d
    case VersionChanged => VersionNoteAt(s, p, ".. versionchanged:: ", "*Changed in ")
    case VersionAdded => VersionNoteAt(s, p, ".. versionadded:: ", "*Added in ")
    case Deprecated => VersionNoteAt(s, p, ".. deprecated:: ", "*Deprecated since ")
    case Warning =>
      if StartsAt(s, p, ".. warning::") then Some(Match(p + 12, "**Warning**")) else None
    case SeeAlso =>
      (match LineDirectiveAt(s, p, ".. seealso::", false)
       case None => None
       case Some(m) => Some(Match(m.stop, "*See also*" + m.group + m.end)))
    case Ref => RefAt(s, p)
    case Link => LinkAt(s, p)
    case Mod => RoleAt(s, p, ":mod:`", "`", "`")
    case CurrentModule =>
      (match LineDirectiveAt(s, p, ".. currentmodule:: ", true)
       case None => None
       case Some(m) => Some(Match(m.stop, "")))
    case MathRole => RoleAt(s, p, ":math:`", "$", "$")
    case Highlight =>
      (match NamedMatchAt(d, s, p)
       case None => None
       case Some(m) => Some(Match(m.stop, "")))
    case CodeBlock =>
      (match NamedMatchAt(d, s, p)
       case None => None
       case Some(m) => Some(Match(m.stop, m.end)))
  }

  /** Leftmost index at or after `p` where `d` matches. */
  function FirstMatch(d: Directive, s: string, p: nat): (r: Option<nat>)
    requires p <= |s|
    ensures r.Some? ==> p <= r.value <= |s| && MatchAt(d, s, r.value).Some?
    ensures r.Some? ==> forall i :: p <= i < r.value ==> MatchAt(d, s, i).None?
    ensures r.None? ==> forall i :: p <= i <= |s| ==> MatchAt(d, s, i).None?
    decreases |s| - p
  {
    if MatchAt(d, s, p).Some? then Some(p)
    else if p == |s| then None
    else FirstMatch(d, s, p + 1)
  }

  /** `s.match(pattern)` is not null. */
  predicate Matches(d: Directive, s: string) {
    FirstMatch(d, s, 0).Some?
  }

  /** The `language` group of the leftmost match of `highlight` or `code-block`. */
  function LanguageGroup(d: Directive, s: string): (r: Option<string>)
    requires d == Highlight || d == CodeBlock
    ensures r.Some? <==> Matches(d, s)
  {
    match FirstMatch(d, s, 0)
    case None => None
    case Some(p) => Some(NamedMatchAt(d, s, p).value.group)
  }

  /** Global replacement from index `p` on: scan left to right, replace each
      match and resume after it. */
  function ReplaceAllFrom(d: Directive, s: string, p: nat): string
    requires p <= |s|
    decreases |s| - p
  {
    if p == |s| then ""
    else
      match MatchAt(d, s, p)
      case Some(m) => m.replacement + ReplaceAllFrom(d, s, m.stop)
      case None => [s[p]] + ReplaceAllFrom(d, s, p + 1)
  }

  /** `s.replace(pattern, replacement)` for one rule of the table. */
  function Apply(d: Directive, s: string): string {
    if IsGlobal(d) then ReplaceAllFrom(d, s, 0)
    else
      match FirstMatch(d, s, 0)
      case None => s
      case Some(p) =>
        var m := MatchAt(d, s, p).value;
        s[..p] + m.replacement + s[m.stop..]
  }

  /** The rules of `ds` applied one after the other, as the loop in `flush_buffer` does. */
  function ApplyAll(s: string, ds: seq<Directive>): string {
    if |ds| == 0 then s else Apply(ds[|ds| - 1], ApplyAll(s, ds[..|ds| - 1]))
  }

  /** A rule that matches nowhere leaves the text unchanged. */
  lemma ApplyWithoutMatch(d: Directive, s: string)
    requires !Matches(d, s)
    ensures Apply(d, s) == s
  {
    ReplaceWithoutMatch(d, s, 0);
  }

  lemma {:induction false} ReplaceWithoutMatch(d: Directive, s: string, p: nat)
    requires p <= |s|
    requires forall i :: p <= i <= |s| ==> MatchAt(d, s, i).None?
    ensures ReplaceAllFrom(d, s, p) == s[p..]
    decreases |s| - p
  {
    if p < |s| {
      ReplaceWithoutMatch(d, s, p + 1);
      assert s[p..] == [s[p]] + s[p + 1..];
    }
  }

  /** Text in which no rule matches comes out of the whole table unchanged. */
  lemma {:induction false} ApplyAllWithoutMatch(s: string, ds: seq<Directive>)
    requires forall i :: 0 <= i < |ds| ==> !Matches(ds[i], s)
    ensures ApplyAll(s, ds) == s
    decreases |ds|
  {
    if |ds| > 0 {
      ApplyAllWithoutMatch(s, ds[..|ds| - 1]);
      ApplyWithoutMatch(ds[|ds| - 1], s);
    }
  }

  /** Applying the rules of `ds` is applying the first, then the others to its result. */
  lemma {:induction false} ApplyAllFirst(s: string, ds: seq<Directive>)
    requires |ds| >= 1
    ensures ApplyAll(s, ds) == ApplyAll(Apply(ds[0], s), ds[1..])
    decreases |ds|
  {
    if |ds| > 1 {
      ApplyAllFirst(s, ds[..|ds| - 1]);
      assert ds[..|ds| - 1][1..] == ds[1..][..|ds[1..]| - 1];
    }
  }

  /** Every rule needs either `.. ` or a backtick: text with neither is left alone. */
  lemma NoMarkerNoMatch(d: Directive, s: string)
    requires !Contains(s, ".. ")
    requires '`' !in s
    ensures !Matches(d, s)
  {
    forall p | 0 <= p <= |s| ensures MatchAt(d, s, p).None? {
      MatchNeedsMarker(d, s, p);
    }
  }

  /** No colon right before a backtick: no role (`:mod:`, `:math:`, `:ref:`) opens here. */
  ghost predicate NoRoleOpening(s: string) {
    forall i, j {:trigger s[i], s[j]} :: 0 <= i && j == i + 1 && j < |s| ==> s[i] != ':' || s[j] != '`'
  }

  /** Backticks alone match nothing: every rule needs `.. `, a role opening or,
      for a link, a `<`. */
  lemma NoInlineMarkupNoMatch(d: Directive, s: string)
    requires !Contains(s, ".. ")
    requires '<' !in s
    requires NoRoleOpening(s)
    ensures !Matches(d, s)
  {
    forall p | 0 <= p <= |s| ensures MatchAt(d, s, p).None? {
      NoInlineMarkupAt(d, s, p);
    }
  }

  /** Text without `.. `, a role opening or a `<` comes out of the whole table unchanged. */
  lemma NoInlineMarkupUnchanged(s: string)
    requires !Contains(s, ".. ")
    requires '<' !in s
    requires NoRoleOpening(s)
    ensures ApplyAll(s, Table) == s
  {
    forall i | 0 <= i < |Table| ensures !Matches(Table[i], s) {
      NoInlineMarkupNoMatch(Table[i], s);
    }
    ApplyAllWithoutMatch(s, Table);
  }

  lemma NoInlineMarkupAt(d: Directive, s: string, p: nat)
    requires p <= |s|
    requires !StartsAt(s, p, ".. ")
    requires '<' !in s
    requires NoRoleOpening(s)
    ensures MatchAt(d, s, p).None?
  {
    match d
    case Ref =>
      assert !StartsAt(s, p, ":ref:`") by {
        if p + 6 <= |s| { assert s[p..p + 6][4] == s[p + 4] && s[p..p + 6][5] == s[p + 5]; }
      }
    case Mod =>
      assert !StartsAt(s, p, ":mod:`") by {
        if p + 6 <= |s| { assert s[p..p + 6][4] == s[p + 4] && s[p..p + 6][5] == s[p + 5]; }
      }
    case MathRole =>
      assert !StartsAt(s, p, ":math:`") by {
        if p + 7 <= |s| { assert s[p..p + 7][5] == s[p + 5] && s[p..p + 7][6] == s[p + 6]; }
      }
    case Link =>
      if p < |s| && s[p] == '`' {
        var j := RunEnd(s, p + 1, AtOpenOrBacktick);
        if j < |s| { assert s[j] in s; }
      }
    case Highlight => LineDirectiveNeedsDots(s, p, ".. highlight:: ", true);
    case CodeBlock =>
      LineDirectiveNeedsDots(s, p, ".. code-block::", false);
      LineDirectiveNeedsDots(s, p, ".. productionlist::", false);
    case SeeAlso => LineDirectiveNeedsDots(s, p, ".. seealso::", false);
    case CurrentModule => LineDirectiveNeedsDots(s, p, ".. currentmodule:: ", true);
    case VersionChanged => VersionNoteNeedsDots(s, p, ".. versionchanged:: ", "*Changed in ");
    case VersionAdded => VersionNoteNeedsDots(s, p, ".. versionadded:: ", "*Added in ");
    case Deprecated => VersionNoteNeedsDots(s, p, ".. deprecated:: ", "*Deprecated since ");
    case Warning =>
      if StartsAt(s, p, ".. warning::") { PrefixAt(s, p, ".. warning::", 3); }
  }

  /** A match at `p` starts with `.. ` or contains a backtick. */
  lemma MatchNeedsMarker(d: Directive, s: string, p: nat)
    requires p <= |s|
    ensures MatchAt(d, s, p).Some? ==> StartsAt(s, p, ".. ") || '`' in s[p..]
  {
    match d
    case Ref =>
      if RefAt(s, p).Some? { assert s[p..][5] == ":ref:`"[5]; }
    case Mod =>
      if RoleAt(s, p, ":mod:`", "`", "`").Some? { assert s[p..][5] == ":mod:`"[5]; }
    case MathRole =>
      if RoleAt(s, p, ":math:`", "$", "$").Some? { assert s[p..][6] == ":math:`"[6]; }
    case Link =>
      if LinkAt(s, p).Some? { assert s[p..][0] == '`'; }
    case Highlight => LineDirectiveNeedsDots(s, p, ".. highlight:: ", true);
    case CodeBlock =>
      LineDirectiveNeedsDots(s, p, ".. code-block::", false);
      LineDirectiveNeedsDots(s, p, ".. productionlist::", false);
    case SeeAlso => LineDirectiveNeedsDots(s, p, ".. seealso::", false);
    case CurrentModule => LineDirectiveNeedsDots(s, p, ".. currentmodule:: ", true);
    case VersionChanged => VersionNoteNeedsDots(s, p, ".. versionchanged:: ", "*Changed in ");
    case VersionAdded => VersionNoteNeedsDots(s, p, ".. versionadded:: ", "*Added in ");
    case Deprecated => VersionNoteNeedsDots(s, p, ".. deprecated:: ", "*Deprecated since ");
    case Warning =>
      if StartsAt(s, p, ".. warning::") { PrefixAt(s, p, ".. warning::", 3); }
  }

  lemma LineDirectiveNeedsDots(s: string, p: nat, head: string, nonEmpty: bool)
    requires p <= |s| && StartsWith(head, ".. ")
    ensures LineDirectiveAt(s, p, head, nonEmpty).Some? ==> StartsAt(s, p, ".. ")
  {
    if LineDirectiveAt(s, p, head, nonEmpty).Some? {
      PrefixAt(s, p, head, 3);
    }
  }

  lemma VersionNoteNeedsDots(s: string, p: nat, head: string, note: string)
    requires p <= |s| && StartsWith(head, ".. ")
    ensures VersionNoteAt(s, p, head, note).Some? ==> StartsAt(s, p, ".. ")
  {
    if VersionNoteAt(s, p, head, note).Some? {
      PrefixAt(s, p, head, 3);
    }
  }

  // ---------------------------------------------------------------------
  // What the inline roles are replaced by

  /** A role needs a backtick at the end of its head. */
  lemma RoleWithoutBacktick(s: string, p: nat, head: string, open: string, close: string)
    requires p <= |s| && |head| > 0 && head[|head| - 1] == '`'
    requires p + |head| - 1 >= |s| || s[p + |head| - 1] != '`'
    ensures RoleAt(s, p, head, open, close).None?
  {
    if p + |head| <= |s| {
      assert s[p..p + |head|][|head| - 1] == s[p + |head| - 1];
    }
  }

  /** A role scanned by its indices: the head at `p`, a run of non-backticks
      up to `e`, and the closing backtick at `e`. */
  lemma RoleAtIndices(s: string, p: nat, head: string, e: nat, open: string, close: string)
    requires StartsAt(s, p, head) && p + |head| < e < |s| && s[e] == '`'
    requires forall i :: p + |head| <= i < e ==> s[i] != '`'
    ensures RoleAt(s, p, head, open, close) == Some(Match(e + 1, open + s[p + |head|..e] + close))
  {
    RunEndIs(s, p + |head|, e, AtBacktick);
  }

  /** The characters of `s` from `p` on spell `pat`. */
  lemma Spelled(s: string, p: nat, pat: string)
    requires StartsAt(s, p, pat)
    ensures forall i :: 0 <= i < |pat| ==> s[p + i] == pat[i]
  {
    forall i | 0 <= i < |pat| ensures s[p + i] == pat[i] {
      assert s[p..p + |pat|][i] == s[p + i];
    }
  }

  /** `:mod:`title`` and `:math:`title`` with a non-empty title free of
      backticks match up to the closing backtick; the title is wrapped in
      `open` and `close`. */
  lemma RoleMatch(s: string, p: nat, head: string, title: string, open: string, close: string)
    requires StartsAt(s, p, head + title + "`")
    requires |title| > 0 && '`' !in title
    ensures RoleAt(s, p, head, open, close) == Some(Match(p + |head| + |title| + 1, open + title + close))
  {
    var pat := head + title + "`";
    var q := p + |head|;
    var e := q + |title|;
    PrefixAt(s, p, pat, |head|);
    assert pat[..|head|] == head;
    Spelled(s, p, pat);
    forall i | q <= i < e ensures s[i] != '`' {
      assert s[i] == pat[i - p] == title[i - q];
    }
    assert s[e] == pat[e - p];
    RoleAtIndices(s, p, head, e, open, close);
    assert s[q..e] == s[p..p + |pat|][|head|..|head| + |title|];
  }

  /** The head of a role rule and what it wraps its title in. */
  predicate RoleRule(d: Directive, head: string, open: string, close: string) {
    || (d == Mod && head == ":mod:`" && open == "`" && close == "`")
    || (d == MathRole && head == ":math:`" && open == "$" && close == "$")
  }

  lemma RoleRuleAt(d: Directive, head: string, open: string, close: string, s: string, p: nat)
    requires RoleRule(d, head, open, close) && p <= |s|
    ensures MatchAt(d, s, p) == RoleAt(s, p, head, open, close)
    ensures |head| > 0 && head[|head| - 1] == '`' && '`' !in head[..|head| - 1]
  {
  }

  /** One role in text that has no other backtick is replaced by its title in
      `open` and `close` (`:mod:`x`` by ``x``, `:math:`x`` by `$x$`), and the
      text around it is kept. */
  lemma RoleRewritten(d: Directive, head: string, open: string, close: string, before: string, title: string, after: string)
    requires RoleRule(d, head, open, close)
    requires |title| > 0 && '`' !in before && '`' !in title && '`' !in after
    ensures Apply(d, before + head + title + "`" + after) == before + open + title + close + after
  {
    var s := before + (head + title + "`") + after;
    var stop := |before| + |head + title + "`"|;
    RoleReplacedAt(d, head, open, close, before, title, after);
    assert s[..|before|] == before;
    assert s[stop..] == after;
    assert s == before + head + title + "`" + after;
  }

  /** The one match of a role rule, at the end of `before`, is the only change. */
  lemma RoleReplacedAt(d: Directive, head: string, open: string, close: string, before: string, title: string, after: string)
    requires RoleRule(d, head, open, close)
    requires |title| > 0 && '`' !in before && '`' !in title && '`' !in after
    ensures var s := before + (head + title + "`") + after;
      var stop := |before| + |head + title + "`"|;
      Apply(d, s) == s[..|before|] + (open + title + close) + s[stop..]
  {
    var role := head + title + "`";
    var s := before + role + after;
    var b := |before|;
    var stop := b + |role|;
    var rep := open + title + close;
    assert MatchAt(d, s, b) == Some(Match(stop, rep)) by {
      assert s[b..stop] == role;
      RoleMatch(s, b, head, title, open, close);
      RoleRuleAt(d, head, open, close, s, b);
    }
    assert s[..b + |head|] == before + head;
    NoRoleBefore(d, head, open, close, before, s);
    assert s[stop..] == after;
    NoRoleAfter(d, head, open, close, s, stop, after);
    OneMatchRewritten(d, s, b, Match(stop, rep));
  }

  /** A module reference in a sentence keeps its name in backticks. */
  lemma ModuleRoleExample()
    ensures Apply(Mod, "Discrete Fourier Transform (:mod:`numpy.fft`)") == "Discrete Fourier Transform (`numpy.fft`)"
  {
    RoleRewritten(Mod, ":mod:`", "`", "`", "Discrete Fourier Transform (", "numpy.fft", ")");
    assert "Discrete Fourier Transform (" + ":mod:`" + "numpy.fft" + "`" + ")" == "Discrete Fourier Transform (:mod:`numpy.fft`)";
    assert "Discrete Fourier Transform (" + "`" + "numpy.fft" + "`" + ")" == "Discrete Fourier Transform (`numpy.fft`)";
  }

  /** A role rule that matches only at `b` replaces that match and keeps the rest. */
  lemma OneMatchRewritten(d: Directive, s: string, b: nat, m: Match)
    requires (d == Mod || d == MathRole) && b < |s| && MatchAt(d, s, b) == Some(m)
    requires forall p :: 0 <= p < b ==> MatchAt(d, s, p).None?
    requires forall p :: m.stop <= p <= |s| ==> MatchAt(d, s, p).None?
    ensures Apply(d, s) == s[..b] + m.replacement + s[m.stop..]
  {
    assert ReplaceAllFrom(d, s, 0) == s[..b] + ReplaceAllFrom(d, s, b) by {
      ReplaceUpTo(d, s, 0, b);
      assert s[0..b] == s[..b];
    }
    assert ReplaceAllFrom(d, s, b) == m.replacement + ReplaceAllFrom(d, s, m.stop) by {
      ReplaceAtMatch(d, s, b, m);
    }
    assert ReplaceAllFrom(d, s, m.stop) == s[m.stop..] by {
      ReplaceWithoutMatch(d, s, m.stop);
    }
    Concatenated(ReplaceAllFrom(d, s, 0), ReplaceAllFrom(d, s, b), ReplaceAllFrom(d, s, m.stop), s[..b], m.replacement, s[m.stop..]);
  }

  /** Three pieces put back together, whichever way they were grouped. */
  lemma Concatenated(whole: string, tail: string, rest: string, front: string, middle: string, back: string)
    requires whole == front + tail && tail == middle + rest && rest == back
    ensures whole == front + middle + back
  {
  }

  /** Global replacement at a match puts the replacement and resumes after it. */
  lemma ReplaceAtMatch(d: Directive, s: string, p: nat, m: Match)
    requires p < |s| && MatchAt(d, s, p) == Some(m)
    ensures ReplaceAllFrom(d, s, p) == m.replacement + ReplaceAllFrom(d, s, m.stop)
  {
  }

  lemma NoRoleBefore(d: Directive, head: string, open: string, close: string, before: string, s: string)
    requires RoleRule(d, head, open, close)
    requires '`' !in before && StartsWith(s, before + head)
    ensures forall p :: 0 <= p < |before| ==> MatchAt(d, s, p).None?
  {
    var b := |before|;
    Spelled(s, 0, before + head);
    forall p | 0 <= p < b ensures MatchAt(d, s, p).None? {
      RoleRuleAt(d, head, open, close, s, p);
      var x := p + |head| - 1;
      if x < b {
        assert s[x] == before[x];
      } else {
        assert s[x] == head[x - b] == head[..|head| - 1][x - b];
      }
      RoleWithoutBacktick(s, p, head, open, close);
    }
  }

  lemma NoRoleAfter(d: Directive, head: string, open: string, close: string, s: string, stop: nat, after: string)
    requires RoleRule(d, head, open, close)
    requires '`' !in after && stop <= |s| && s[stop..] == after
    ensures forall p :: stop <= p <= |s| ==> MatchAt(d, s, p).None?
  {
    forall p | stop <= p <= |s| ensures MatchAt(d, s, p).None? {
      RoleRuleAt(d, head, open, close, s, p);
      var x := p + |head| - 1;
      if x < |s| {
        assert s[x] == after[x - stop];
      }
      RoleWithoutBacktick(s, p, head, open, close);
    }
  }

  /** Global replacement of a role copies the characters where it does not match. */
  lemma {:induction false} ReplaceUpTo(d: Directive, s: string, p: nat, b: nat)
    requires d == Mod || d == MathRole
    requires p <= b <= |s|
    requires forall i :: p <= i < b ==> MatchAt(d, s, i).None?
    ensures ReplaceAllFrom(d, s, p) == s[p..b] + ReplaceAllFrom(d, s, b)
    decreases b - p
  {
    if p < b {
      assert ReplaceAllFrom(d, s, p + 1) == s[p + 1..b] + ReplaceAllFrom(d, s, b) by {
        ReplaceUpTo(d, s, p + 1, b);
      }
      assert ReplaceAllFrom(d, s, p) == [s[p]] + ReplaceAllFrom(d, s, p + 1) by {
        ReplaceSkips(d, s, p);
      }
      CopiedOne(s, p, b, ReplaceAllFrom(d, s, p), ReplaceAllFrom(d, s, p + 1), ReplaceAllFrom(d, s, b));
    }
  }

  /** One copied character before a copied stretch is a longer copied stretch. */
  lemma CopiedOne(s: string, p: nat, b: nat, here: string, next: string, rest: string)
    requires p < b <= |s|
    requires next == s[p + 1..b] + rest && here == [s[p]] + next
    ensures here == s[p..b] + rest
  {
    assert s[p..b] == [s[p]] + s[p + 1..b];
  }

  /** Where the rule does not match, global replacement copies one character. */
  lemma ReplaceSkips(d: Directive, s: string, p: nat)
    requires p < |s| && MatchAt(d, s, p).None?
    ensures ReplaceAllFrom(d, s, p) == [s[p]] + ReplaceAllFrom(d, s, p + 1)
  {
  }

  /** The whitespace run before `j` that starts after a non-space at `t - 1`. */
  lemma {:induction false} TrailingSpaceFrom(s: string, q: nat, t: nat, j: nat)
    requires q < t <= j <= |s|
    requires !IsSpace(s[t - 1])
    requires forall i :: t <= i < j ==> IsSpace(s[i])
    ensures TrailingSpaceStart(s, q, j) == t
    decreases j
  {
    if j > t {
      TrailingSpaceFrom(s, q, t, j - 1);
    }
  }

  /** A `:ref:` scanned by its indices: the title in `[p + 6, t)`, whitespace up
      to `<` at `j`, the target up to `>` at `e` and a backtick after it. */
  lemma RefAtIndices(s: string, p: nat, t: nat, j: nat, e: nat)
    requires StartsAt(s, p, ":ref:`") && p + 6 < t <= j && j + 1 < e && e + 1 < |s|
    requires forall i :: p + 6 <= i < j ==> s[i] != '<' && s[i] != '`'
    requires !IsSpace(s[t - 1]) && forall i :: t <= i < j ==> IsSpace(s[i])
    requires s[j] == '<' && s[e] == '>' && s[e + 1] == '`'
    requires forall i :: j + 1 <= i < e ==> s[i] != '>' && s[i] != '`'
    ensures RefAt(s, p) == Some(Match(e + 2, s[p + 6..t] + ": `" + s[j + 1..e] + "`"))
  {
    RunEndIs(s, p + 6, j, AtOpenOrBacktick);
    TrailingSpaceFrom(s, p + 6, t, j);
    RunEndIs(s, j + 1, e, AtCloseOrBacktick);
  }

  /** `:ref:`title <target>`` becomes `title: `target``: the title loses the
      whitespace before `<`. */
  lemma RefMatch(s: string, p: nat, title: string, ws: string, target: string)
    requires StartsAt(s, p, ":ref:`" + title + ws + "<" + target + ">`")
    requires |title| > 0 && '<' !in title && '`' !in title && !IsSpace(title[|title| - 1])
    requires AllSpace(ws)
    requires |target| > 0 && '>' !in target && '`' !in target
    ensures RefAt(s, p) == Some(Match(p + 6 + |title| + |ws| + 1 + |target| + 2, title + ": `" + target + "`"))
  {
    var t := p + 6 + |title|;
    var j := t + |ws|;
    var e := j + 1 + |target|;
    RefSpelled(s, p, title, ws, target);
    RefAtIndices(s, p, t, j, e);
  }

  lemma RefSpelled(s: string, p: nat, title: string, ws: string, target: string)
    requires StartsAt(s, p, ":ref:`" + title + ws + "<" + target + ">`")
    requires |title| > 0 && '<' !in title && '`' !in title && !IsSpace(title[|title| - 1])
    requires AllSpace(ws)
    requires '>' !in target && '`' !in target
    ensures var t := p + 6 + |title|; var j := t + |ws|; var e := j + 1 + |target|;
      && StartsAt(s, p, ":ref:`") && e + 1 < |s|
      && (forall i :: p + 6 <= i < j ==> s[i] != '<' && s[i] != '`')
      && !IsSpace(s[t - 1]) && (forall i :: t <= i < j ==> IsSpace(s[i]))
      && s[j] == '<' && s[e] == '>' && s[e + 1] == '`'
      && (forall i :: j + 1 <= i < e ==> s[i] != '>' && s[i] != '`')
      && s[p + 6..t] == title && s[j + 1..e] == target
  {
    var pat := ":ref:`" + title + ws + "<" + target + ">`";
    var q := p + 6;
    var t := q + |title|;
    var j := t + |ws|;
    var e := j + 1 + |target|;
    PrefixAt(s, p, pat, 6);
    assert pat[..6] == ":ref:`";
    Spelled(s, p, pat);
    forall i | q <= i < t ensures s[i] == title[i - q] {
      assert s[i] == pat[i - p];
    }
    forall i | t <= i < j ensures s[i] == ws[i - t] {
      assert s[i] == pat[i - p];
    }
    forall i | j + 1 <= i < e ensures s[i] == target[i - j - 1] {
      assert s[i] == pat[i - p];
    }
    assert s[j] == pat[j - p] && s[e] == pat[e - p] && s[e + 1] == pat[e + 1 - p];
    assert s[q..t] == title;
    assert s[j + 1..e] == target;
  }

  /** A link scanned by its indices: the title in `[p + 1, k)`, an optional
      line break up to `<` at `j`, the url up to `>` at `e`, a backtick, and
      underscores up to `f`. */
  lemma LinkAtIndices(s: string, p: nat, k: nat, j: nat, e: nat, f: nat)
    requires p + 1 < k <= j <= k + 1 && j + 1 < e && e + 2 < f <= |s|
    requires s[p] == '`' && s[j] == '<' && s[e] == '>' && s[e + 1] == '`'
    requires forall i :: p + 1 <= i < j ==> s[i] != '<' && s[i] != '`'
    requires (j == k + 1 && s[k] == '\n') || (j == k && s[k - 1] != '\n')
    requires forall i :: j + 1 <= i < e ==> s[i] != '>' && s[i] != '`'
    requires forall i :: e + 2 <= i < f ==> s[i] == '_'
    requires f == |s| || s[f] != '_'
    ensures LinkAt(s, p) == Some(Match(f, "[" + s[p + 1..k] + "](" + s[j + 1..e] + ")"))
  {
    RunEndIs(s, p + 1, j, AtOpenOrBacktick);
    RunEndIs(s, j + 1, e, AtCloseOrBacktick);
    RunEndIs(s, e + 2, f, AtNonUnderscore);
  }

  /** `` `title<url>`_ `` (with an optional line break before `<` and one or
      more underscores) becomes `[title](url)`. */
  lemma LinkMatch(s: string, p: nat, title: string, nl: string, url: string, underscores: string)
    requires nl == "" || nl == "\n"
    requires StartsAt(s, p, "`" + title + nl + "<" + url + ">`" + underscores)
    requires |title| > 0 && '<' !in title && '`' !in title
    requires nl == "" ==> title[|title| - 1] != '\n'
    requires |url| > 0 && '>' !in url && '`' !in url
    requires |underscores| > 0 && forall i :: 0 <= i < |underscores| ==> underscores[i] == '_'
    requires var f := p + |title| + |nl| + |url| + 4 + |underscores|; f == |s| || s[f] != '_'
    ensures LinkAt(s, p) == Some(Match(p + |title| + |nl| + |url| + 4 + |underscores|, "[" + title + "](" + url + ")"))
  {
    var k := p + 1 + |title|;
    var j := k + |nl|;
    var e := j + 1 + |url|;
    var f := e + 2 + |underscores|;
    LinkSpelled(s, p, title, nl, url, underscores);
    LinkAtIndices(s, p, k, j, e, f);
  }

  /** The characters of a link, position by position. */
  lemma LinkSpelled(s: string, p: nat, title: string, nl: string, url: string, underscores: string)
    requires nl == "" || nl == "\n"
    requires StartsAt(s, p, "`" + title + nl + "<" + url + ">`" + underscores)
    requires |title| > 0 && '<' !in title && '`' !in title
    requires nl == "" ==> title[|title| - 1] != '\n'
    requires '>' !in url && '`' !in url
    requires forall i :: 0 <= i < |underscores| ==> underscores[i] == '_'
    ensures var k := p + 1 + |title|; var j := k + |nl|; var e := j + 1 + |url|; var f := e + 2 + |underscores|;
      && s[p] == '`' && s[j] == '<' && s[e] == '>' && s[e + 1] == '`'
      && (forall i :: p + 1 <= i < j ==> s[i] != '<' && s[i] != '`')
      && ((j == k + 1 && s[k] == '\n') || (j == k && s[k - 1] != '\n'))
      && (forall i :: j + 1 <= i < e ==> s[i] != '>' && s[i] != '`')
      && (forall i :: e + 2 <= i < f ==> s[i] == '_')
      && s[p + 1..k] == title && s[j + 1..e] == url
  {
    var pat := "`" + title + nl + "<" + url + ">`" + underscores;
    var k := p + 1 + |title|;
    var j := k + |nl|;
    var e := j + 1 + |url|;
    var f := e + 2 + |underscores|;
    Spelled(s, p, pat);
    forall i | p + 1 <= i < k ensures s[i] == title[i - p - 1] {
      assert s[i] == pat[i - p];
    }
    forall i | k <= i < j ensures s[i] == '\n' {
      assert s[i] == pat[i - p];
    }
    forall i | j + 1 <= i < e ensures s[i] == url[i - j - 1] {
      assert s[i] == pat[i - p];
    }
    forall i | e + 2 <= i < f ensures s[i] == '_' {
      assert s[i] == pat[i - p] == underscores[i - e - 2];
    }
    assert s[p] == pat[0] && s[j] == pat[j - p] && s[e] == pat[e - p] && s[e + 1] == pat[e + 1 - p];
    assert s[k - 1] == title[|title| - 1];
    assert s[p + 1..k] == title;
    assert s[j + 1..e] == url;
  }

  /** An occurrence of a pattern is also an occurrence of each of its prefixes. */
  lemma PrefixAt(s: string, p: nat, pat: string, n: nat)
    requires StartsAt(s, p, pat) && n <= |pat|
    ensures StartsAt(s, p, pat[..n])
  {
    assert s[p..p + n] == s[p..p + |pat|][..n];
  }
}
