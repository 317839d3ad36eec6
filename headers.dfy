/** How the ingested repository text is cut into (file name, body) sections:
    the file-name clean-up and the three header layouts the digest may use.

    Each regular expression of the source is modelled by a scanner for that
    one pattern. A scanner tries the alternatives in the order the regex
    engine backtracks through them; where giving a character back provably
    cannot lead to a match, the scanner goes straight to the only candidate
    and its comment says why. */
module Headers {
  import opened Text

  predicate IsHash(c: char) { c == '#' }

  predicate IsEq(c: char) { c == '=' }

  predicate IsDash(c: char) { c == '-' }

  /** The characters of the classes `[-=]`, `=+` and `-+`. */
  predicate IsRuleChar(c: char) { c == '-' || c == '=' }

  /** The run of one rule character starting at a rule character: `=+` when
      it is `=`, `-+` when it is `-` (the other alternative fails at once). */
  function RuleRun(s: string, q: nat): (z: nat)
    requires q < |s| && IsRuleChar(s[q])
    ensures q < z <= |s|
    ensures forall i :: q <= i < z ==> s[i] == s[q]
    ensures z < |s| ==> s[z] != s[q]
  {
    SpanFrom(s, q, if s[q] == '=' then IsEq else IsDash)
  }

  // ---------------------------------------------------------------------
  // _clean_filename

  /** `\s+\(.*\)$` matches at p of a one-line string. The greedy `\s+` can
      only give back whitespace, where `\(` needs a parenthesis, so it
      matches only with its longest run; `.*\)$` then needs the string to end
      with `)` after that parenthesis. */
  predicate AnnotationAt(s: string, p: nat) {
    p < |s| &&
    var o := SpanFrom(s, p, IsSpace);
    o > p && o + 1 < |s| && s[o] == '(' && s[|s| - 1] == ')'
  }

  /** re.sub(r"\s+\(.*\)$", "", s) trying the positions from p on: the
      leftmost match runs to the end, so everything from its start is
      removed. */
  function DropAnnotationFrom(s: string, p: nat): (r: string)
    requires p <= |s|
    ensures p <= |r| <= |s| && r == s[..|r|]
    decreases |s| - p
  {
    if p == |s| then s
    else if AnnotationAt(s, p) then s[..p]
    else DropAnnotationFrom(s, p + 1)
  }

  function DropAnnotation(s: string): (r: string)
    ensures |r| <= |s| && r == s[..|r|]
  {
    DropAnnotationFrom(s, 0)
  }

  lemma {:induction false} DropAnnotationFromLeftmost(s: string, p: nat)
    requires p <= |s|
    ensures DropAnnotationFrom(s, p) == s <==> forall q :: p <= q <= |s| ==> !AnnotationAt(s, q)
    ensures DropAnnotationFrom(s, p) != s ==>
      AnnotationAt(s, |DropAnnotationFrom(s, p)|) && forall q :: p <= q < |DropAnnotationFrom(s, p)| ==> !AnnotationAt(s, q)
    decreases |s| - p
  {
    var r := DropAnnotationFrom(s, p);
    if p == |s| {
      assert r == s;
      assert !AnnotationAt(s, |s|);
    } else if AnnotationAt(s, p) {
      assert |r| == p < |s|;
    } else {
      assert r == DropAnnotationFrom(s, p + 1);
      DropAnnotationFromLeftmost(s, p + 1);
    }
  }

  /** The annotation removed is the leftmost place where the pattern
      matches; nothing is removed when it matches nowhere. */
  lemma DropAnnotationLeftmost(s: string)
    ensures var r := DropAnnotation(s);
      (r == s <==> forall p :: 0 <= p <= |s| ==> !AnnotationAt(s, p)) &&
      (r != s ==> AnnotationAt(s, |r|) && forall p :: 0 <= p < |r| ==> !AnnotationAt(s, p))
  {
    DropAnnotationFromLeftmost(s, 0);
  }

  /** `\s*:\s*` after a label ending at k: where the match ends. The first
      `\s*` gives back only whitespace, where `:` is needed. */
  function AfterColon(s: string, k: nat): (r: Option<nat>)
    requires k <= |s|
    ensures r.Some? ==> k < r.value <= |s|
  {
    var c := SpanFrom(s, k, IsSpace);
    if c < |s| && s[c] == ':' then Some(SpanFrom(s, c + 1, IsSpace)) else None
  }

  /** `^(file|path|filename)\s*:\s*`, ignoring case, alternatives in order:
      where the label ends when there is one. */
  function LabelEnd(s: string): (r: Option<nat>)
    ensures r.Some? ==> 0 < r.value <= |s|
    ensures r.Some? ==> LooksAtIgnoreCase(s, 0, "file") || LooksAtIgnoreCase(s, 0, "path")
    ensures r.Some? && r.value < |s| ==> !IsSpace(s[r.value])
    ensures !LooksAtIgnoreCase(s, 0, "file") && !LooksAtIgnoreCase(s, 0, "path") ==> r.None?
  {
    OrElse(
      if LooksAtIgnoreCase(s, 0, "file") then AfterColon(s, 4) else None,
      OrElse(
        if LooksAtIgnoreCase(s, 0, "path") then AfterColon(s, 4) else None,
        if LooksAtIgnoreCase(s, 0, "filename") then AfterColon(s, 8) else None))
  }

  /** re.sub(r"^(file|path|filename)\s*:\s*", "", s, flags=re.IGNORECASE). */
  function DropLabel(s: string): (r: string)
    ensures |r| <= |s| && r == s[|s| - |r|..]
    ensures LabelEnd(s).None? <==> r == s
  {
    match LabelEnd(s)
    case None => s
    case Some(k) => s[k..]
  }

  /** re.sub(r"^[-=]+\s*", "", s). `[-=]+` mixes both characters. */
  function DropLeadingRule(s: string): (r: string)
    ensures |r| <= |s| && r == s[|s| - |r|..]
    ensures r == s <==> s == [] || !IsRuleChar(s[0])
    ensures r != s && r != [] ==> !IsSpace(r[0])
  {
    if s != [] && IsRuleChar(s[0]) then s[SpanFrom(s, SpanFrom(s, 0, IsRuleChar), IsSpace)..] else s
  }

  /** `\s*[-=]+$` matches at p of a one-line string: the whitespace run from
      p is followed by a rule run that reaches the end. */
  predicate TrailingRuleAt(s: string, p: nat) {
    p <= |s| &&
    var w := SpanFrom(s, p, IsSpace);
    w < |s| && SpanFrom(s, w, IsRuleChar) == |s|
  }

  /** re.sub(r"\s*[-=]+$", "", s) trying the positions from p on:
      everything from the leftmost match on is removed. */
  function DropTrailingRuleFrom(s: string, p: nat): (r: string)
    requires p <= |s|
    ensures p <= |r| <= |s| && r == s[..|r|]
    decreases |s| - p
  {
    if p == |s| then s
    else if TrailingRuleAt(s, p) then s[..p]
    else DropTrailingRuleFrom(s, p + 1)
  }

  function DropTrailingRule(s: string): (r: string)
    ensures |r| <= |s| && r == s[..|r|]
  {
    DropTrailingRuleFrom(s, 0)
  }

  lemma {:induction false} DropTrailingRuleFromLeftmost(s: string, p: nat)
    requires p <= |s|
    ensures var r := DropTrailingRuleFrom(s, p);
      (r == s <==> forall q :: p <= q <= |s| ==> !TrailingRuleAt(s, q)) &&
      (r != s ==> TrailingRuleAt(s, |r|) && forall q :: p <= q < |r| ==> !TrailingRuleAt(s, q))
    decreases |s| - p
  {
    if p < |s| && !TrailingRuleAt(s, p) {
      DropTrailingRuleFromLeftmost(s, p + 1);
    }
  }

  /** The trailing rule removed starts at the leftmost place where the
      pattern matches; nothing is removed when it matches nowhere. */
  lemma DropTrailingRuleLeftmost(s: string)
    ensures var r := DropTrailingRule(s);
      (r == s <==> forall p :: 0 <= p <= |s| ==> !TrailingRuleAt(s, p)) &&
      (r != s ==> TrailingRuleAt(s, |r|) && forall p :: 0 <= p < |r| ==> !TrailingRuleAt(s, p))
  {
    DropTrailingRuleFromLeftmost(s, 0);
  }

  /** _clean_filename. Every caller passes a captured `[^\n]+` group, so
      the name is one line; the anchors `$` of the patterns then only match
      at the end. */
  function CleanFilename(name: string): (r: string)
    requires '\n' !in name
    ensures |r| <= |name|
    ensures '\n' !in r
  {
    var stripped := Strip(StripSpace(name), IsBacktick);
    var unannotated := DropAnnotation(stripped);
    var unlabelled := DropLabel(unannotated);
    var trimmed := DropLeadingRule(unlabelled);
    var cleaned := DropTrailingRule(trimmed);
    OneLineSteps(name);
    cleaned
  }

  /** Every step of _clean_filename keeps a slice of its input, so a
      one-line name stays on one line. */
  lemma OneLineSteps(name: string)
    requires '\n' !in name
    ensures '\n' !in DropTrailingRule(DropLeadingRule(DropLabel(DropAnnotation(Strip(StripSpace(name), IsBacktick)))))
  {
    StripExcludes(name, IsSpace, '\n');
    var stripped := Strip(StripSpace(name), IsBacktick);
    StripExcludes(StripSpace(name), IsBacktick, '\n');
    var unannotated := DropAnnotation(stripped);
    SliceExcludes(stripped, 0, |unannotated|, '\n');
    var unlabelled := DropLabel(unannotated);
    SliceExcludes(unannotated, |unannotated| - |unlabelled|, |unannotated|, '\n');
    var trimmed := DropLeadingRule(unlabelled);
    SliceExcludes(unlabelled, |unlabelled| - |trimmed|, |unlabelled|, '\n');
    var cleaned := DropTrailingRule(trimmed);
    SliceExcludes(trimmed, 0, |cleaned|, '\n');
  }

  /** A file name with nothing for _clean_filename to remove: no whitespace,
      backtick or colon, and no rule character or parenthesis at its ends. */
  predicate PlainName(n: string) {
    n != [] && (forall i :: 0 <= i < |n| ==> !IsSpace(n[i]) && n[i] != '`' && n[i] != ':' && n[i] != '\n')
    && !IsRuleChar(n[0]) && !IsRuleChar(n[|n| - 1]) && n[0] != '('
  }

  lemma PlainStrip(n: string)
    requires PlainName(n)
    ensures StripSpace(n) == n && Strip(n, IsBacktick) == n
  {
    assert !IsSpace(n[0]) && !IsSpace(n[|n| - 1]);
    StripKeeps(n, IsSpace);
    StripKeeps(n, IsBacktick);
  }

  lemma PlainNoAnnotation(n: string)
    requires PlainName(n)
    ensures DropAnnotation(n) == n
  {
    DropAnnotationLeftmost(n);
    forall p | 0 <= p <= |n|
      ensures !AnnotationAt(n, p)
    {
      if p < |n| {
        assert SpanFrom(n, p, IsSpace) == p;
      }
    }
  }

  lemma PlainNoLabel(n: string)
    requires PlainName(n)
    ensures DropLabel(n) == n
  {
    if 4 <= |n| {
      assert SpanFrom(n, 4, IsSpace) == 4;
      assert AfterColon(n, 4).None?;
    }
    if 8 <= |n| {
      assert SpanFrom(n, 8, IsSpace) == 8;
      assert AfterColon(n, 8).None?;
    }
  }

  lemma PlainNoRules(n: string)
    requires PlainName(n)
    ensures DropLeadingRule(n) == n && DropTrailingRule(n) == n
  {
    DropTrailingRuleLeftmost(n);
    forall p | 0 <= p <= |n|
      ensures !TrailingRuleAt(n, p)
    {
      if p < |n| {
        assert SpanFrom(n, p, IsSpace) == p;
      }
    }
  }

  /** A plain file name comes out of _clean_filename unchanged. */
  lemma {:induction false} CleanPlainName(n: string)
    requires PlainName(n)
    ensures CleanFilename(n) == n
  {
    PlainStrip(n);
    PlainNoAnnotation(n);
    PlainNoLabel(n);
    PlainNoRules(n);
  }

  lemma LabelledStrip(n: string)
    requires PlainName(n)
    ensures StripSpace("FILE: " + n) == "FILE: " + n
    ensures Strip("FILE: " + n, IsBacktick) == "FILE: " + n
  {
    var s := "FILE: " + n;
    assert s[|s| - 1] == n[|n| - 1];
    StripKeeps(s, IsSpace);
    StripKeeps(s, IsBacktick);
  }

  lemma LabelledNoAnnotation(n: string)
    requires PlainName(n)
    ensures DropAnnotation("FILE: " + n) == "FILE: " + n
  {
    var s := "FILE: " + n;
    DropAnnotationLeftmost(s);
    forall p | 0 <= p <= |s|
      ensures !AnnotationAt(s, p)
    {
      if p < |s| && p != 5 {
        assert !IsSpace(s[p]) by {
          if p > 5 { assert s[p] == n[p - 6]; }
        }
      }
      if p == 5 {
        assert s[6] == n[0];
      }
    }
  }

  lemma LabelledLabel(n: string)
    requires PlainName(n)
    ensures DropLabel("FILE: " + n) == n
  {
    var s := "FILE: " + n;
    assert s[..4] == "FILE" && s[4] == ':' && s[5] == ' ' && s[6] == n[0];
    assert Lower(s[0..4]) == "file";
    assert SpanFrom(s, 4, IsSpace) == 4;
    assert SpanFrom(s, 5, IsSpace) == 6;
    assert AfterColon(s, 4) == Some(6);
    assert s[6..] == n;
  }

  /** One leading `FILE:` label is removed from a plain name. */
  lemma {:induction false} CleanLabelledName(n: string)
    requires PlainName(n)
    ensures CleanFilename("FILE: " + n) == n
  {
    var s := "FILE: " + n;
    LabelledStrip(n);
    LabelledNoAnnotation(n);
    LabelledLabel(n);
    PlainNoRules(n);
    assert Strip(StripSpace(s), IsBacktick) == s;
    assert DropLabel(DropAnnotation(s)) == n;
  }

  // ---------------------------------------------------------------------
  // Header matches

  /** A header match of the pattern: where it starts (match.start()), the
      captured name s[nameStart..nameEnd], and where it ends (match.end()). */
  datatype Match = Match(start: nat, nameStart: nat, nameEnd: nat, end: nat)

  /** What a pattern matches after its `(?:^|\n)` prefix. */
  datatype Tail = Tail(nameStart: nat, nameEnd: nat, end: nat)

  /** The three header layouts, in the order _parse_file_sections tries
      them: a markdown heading or `FILE:` line, a name line between two rule
      lines, and a name inside a single rule line. */
  datatype Form = Heading | Fenced | Banner

  /** A one-line name after q, ending before the match does. */
  predicate TailFrom(s: string, q: nat, t: Tail) {
    q <= t.nameStart < t.nameEnd < t.end <= |s| &&
    forall i :: t.nameStart <= i < t.nameEnd ==> s[i] != '\n'
  }

  predicate WellFormed(s: string, m: Match) {
    m.start <= m.nameStart < m.nameEnd < m.end <= |s| &&
    forall i :: m.nameStart <= i < m.nameEnd ==> s[i] != '\n'
  }

  /** `([^\n]+)\n` with the name starting at k, then k - 1, ..., lo: the
      `\s+` before it gives back one character at a time. The greedy
      `[^\n]+` can be followed by `\n` only at the end of its run. */
  function NameLine(s: string, lo: nat, k: nat): (r: Option<Tail>)
    requires lo <= k <= |s|
    ensures r.Some? ==> TailFrom(s, lo, r.value) && r.value.end == r.value.nameEnd + 1
    ensures r.Some? ==> s[r.value.nameEnd] == '\n'
    decreases k - lo
  {
    var e := SpanFrom(s, k, NotNewline);
    if k < e < |s| then Some(Tail(k, e, e + 1))
    else if k == lo then None
    else NameLine(s, lo, k - 1)
  }

  /** `#{1,6}\s+` at q up to its first whitespace: the end of the hashes.
      `#{1,6}` takes the whole run of hashes when it has at most six; giving
      one back leaves a `#` where `\s+` needs whitespace, so a run of seven
      or more never matches. */
  function HashMarker(s: string, q: nat): (h: Option<nat>)
    requires q <= |s|
    ensures h.Some? ==> q < h.value < |s| && IsSpace(s[h.value])
    ensures h.Some? ==> h.value - q <= 6 && forall i :: q <= i < h.value ==> s[i] == '#'
  {
    var h := SpanFrom(s, q, IsHash);
    if 1 <= h - q <= 6 && h < |s| && IsSpace(s[h]) then Some(h) else None
  }

  /** `#{1,6}\s+([^\n]+)\n` at q. */
  function HashHeading(s: string, q: nat): (r: Option<Tail>)
    requires q <= |s|
    ensures r.Some? ==> TailFrom(s, q, r.value)
  {
    match HashMarker(s, q)
    case None => None
    case Some(h) => NameLine(s, h + 1, SpanFrom(s, h, IsSpace))
  }

  /** `<word>\s*:\s+([^\n]+)\n` at q, ignoring case. */
  function LabelHeading(s: string, q: nat, word: string): (r: Option<Tail>)
    requires q <= |s|
    ensures r.Some? ==> TailFrom(s, q, r.value)
  {
    if LooksAtIgnoreCase(s, q, word) then
      var c := SpanFrom(s, q + |word|, IsSpace);
      if c < |s| && s[c] == ':' then
        var w := SpanFrom(s, c + 1, IsSpace);
        if w > c + 1 then NameLine(s, c + 2, w) else None
      else None
    else None
  }

  /** `(?:#{1,6}\s+|(?:file|path|filename)\s*:\s+)([^\n]+)\n` at q. */
  function HeadingTail(s: string, q: nat): (r: Option<Tail>)
    requires q <= |s|
    ensures r.Some? ==> TailFrom(s, q, r.value)
  {
    OrElse(HashHeading(s, q),
      OrElse(LabelHeading(s, q, "file"),
        OrElse(LabelHeading(s, q, "path"), LabelHeading(s, q, "filename"))))
  }

  /** `(?:=+|-+)\n` at q: where the line after the rule begins. */
  function RuleLine(s: string, q: nat): (r: Option<nat>)
    requires q <= |s|
    ensures r.Some? ==> q < r.value <= |s| && s[r.value - 1] == '\n'
  {
    if q < |s| && IsRuleChar(s[q]) then
      var z := RuleRun(s, q);
      if z < |s| && s[z] == '\n' then Some(z + 1) else None
    else None
  }

  /** `(?:=+|-+)\n([^\n]+)\n(?:=+|-+)\n` at q. */
  function FencedTail(s: string, q: nat): (r: Option<Tail>)
    requires q <= |s|
    ensures r.Some? ==> TailFrom(s, q, r.value)
  {
    match RuleLine(s, q)
    case None => None
    case Some(a) =>
      var e := SpanFrom(s, a, NotNewline);
      if a < e < |s| then
        match RuleLine(s, e + 1)
        case None => None
        case Some(b) => Some(Tail(a, e, b))
      else None
  }

  /** `\s*(?:=+|-+)(?:\n|$)` at d: where the match ends. The greedy `\s*`
      can only give back whitespace, where a rule character is needed, and a
      shorter rule run leaves a rule character where the newline or the end
      must be. */
  function BannerClose(s: string, d: nat): (r: Option<nat>)
    requires d <= |s|
    ensures r.Some? ==> d < r.value <= |s|
  {
    var x := SpanFrom(s, d, IsSpace);
    if x < |s| && IsRuleChar(s[x]) then
      var z := RuleRun(s, x);
      if z == |s| then Some(z) else if s[z] == '\n' then Some(z + 1) else None
    else None
  }

  /** The lazy `([^\n]+?)` holding s[b..e], then s[b..e+1], ..., until the
      rest of the line matches or a newline stops the name. */
  function LazyName(s: string, b: nat, e: nat): (r: Option<Tail>)
    requires b < e <= |s|
    requires forall i :: b <= i < e - 1 ==> s[i] != '\n'
    ensures r.Some? ==> TailFrom(s, b, r.value) && r.value.nameStart == b
    decreases |s| - e
  {
    if s[e - 1] == '\n' then None
    else match BannerClose(s, e)
      case Some(end) => Some(Tail(b, e, end))
      case None => if e == |s| then None else LazyName(s, b, e + 1)
  }

  /** The name starts where the `\s*` before it ends, b, then at b - 1, ...,
      down to a. */
  function BannerName(s: string, a: nat, b: nat): (r: Option<Tail>)
    requires a <= b <= |s|
    ensures r.Some? ==> TailFrom(s, a, r.value)
    decreases b - a
  {
    var r := if b < |s| then LazyName(s, b, b + 1) else None;
    if r.Some? then r
    else if b == a then None
    else BannerName(s, a, b - 1)
  }

  /** The opening `=+` or `-+` holds n characters: first the whole run,
      then one fewer, and so on. */
  function BannerOpen(s: string, q: nat, n: nat): (r: Option<Tail>)
    requires q + n <= |s|
    ensures r.Some? ==> TailFrom(s, q, r.value)
    decreases n
  {
    if n == 0 then None
    else
      var r := BannerName(s, q + n, SpanFrom(s, q + n, IsSpace));
      if r.Some? then r else BannerOpen(s, q, n - 1)
  }

  /** `(?:=+|-+)\s*([^\n]+?)\s*(?:=+|-+)(?:\n|$)` at q. */
  function BannerTail(s: string, q: nat): (r: Option<Tail>)
    requires q <= |s|
    ensures r.Some? ==> TailFrom(s, q, r.value)
  {
    if q < |s| && IsRuleChar(s[q]) then BannerOpen(s, q, RuleRun(s, q) - q) else None
  }

  function FormTail(form: Form, s: string, q: nat): (r: Option<Tail>)
    requires q <= |s|
    ensures r.Some? ==> TailFrom(s, q, r.value)
  {
    match form
    case Heading => HeadingTail(s, q)
    case Fenced => FencedTail(s, q)
    case Banner => BannerTail(s, q)
  }

  /** The match of a form's pattern that starts at p, if any: the prefix
      `(?:^|\n)` tries the start of the content first, then a newline. */
  function MatchAt(form: Form, s: string, p: nat): (r: Option<Match>)
    requires p <= |s|
    ensures r.Some? ==> r.value.start == p && WellFormed(s, r.value)
  {
    var atStart := if p == 0 then FormTail(form, s, 0) else None;
    var afterNewline := if p < |s| && s[p] == '\n' then FormTail(form, s, p + 1) else None;
    match OrElse(atStart, afterNewline)
    case None => None
    case Some(t) => Some(Match(p, t.nameStart, t.nameEnd, t.end))
  }

  /** A form's pattern as finditer sees it: the match at each position. */
  function MatcherOf(form: Form, s: string): (at: nat -> Option<Match>)
    ensures forall p: nat :: p <= |s| ==> at(p) == MatchAt(form, s, p)
    ensures forall p: nat :: p > |s| ==> at(p).None?
    ensures IsMatcher(s, at)
  {
    (p: nat) => if p <= |s| then MatchAt(form, s, p) else None
  }

  /** What finditer needs of a pattern: a match at p starts at p, is well
      formed and is not empty. */
  ghost predicate IsMatcher(s: string, at: nat -> Option<Match>) {
    forall p: nat :: at(p).Some? ==> at(p).value.start == p && WellFormed(s, at(p).value)
  }

  /** Matches that are well formed, in order and not overlapping. */
  predicate Ordered(s: string, ms: seq<Match>) {
    (forall i :: 0 <= i < |ms| ==> WellFormed(s, ms[i])) &&
    (forall i, j :: 0 <= i < j < |ms| ==> ms[i].end <= ms[j].start)
  }

  /** Where re.search finds its match from pos on. */
  function FirstMatch(s: string, at: nat -> Option<Match>, pos: nat): (r: Option<nat>)
    requires pos <= |s|
    ensures r.Some? ==> pos <= r.value <= |s| && at(r.value).Some?
    ensures r.Some? ==> forall p :: pos <= p < r.value ==> at(p).None?
    ensures r.None? ==> forall p :: pos <= p <= |s| ==> at(p).None?
  {
    var found := (p: nat) => at(p).Some?;
    assert forall p: nat :: found(p) == at(p).Some?;
    FirstAt(pos, |s|, found)
  }

  /** pattern.finditer(s, pos): the leftmost match at or after pos, then the
      matches after its end. */
  function FindAll(s: string, at: nat -> Option<Match>, pos: nat): (ms: seq<Match>)
    requires pos <= |s| && IsMatcher(s, at)
    ensures Ordered(s, ms)
    ensures forall i :: 0 <= i < |ms| ==> pos <= ms[i].start && at(ms[i].start) == Some(ms[i])
    decreases |s| - pos
  {
    match FirstMatch(s, at, pos)
    case None => []
    case Some(p) =>
      var m := at(p).value;
      [m] + FindAll(s, at, m.end)
  }

  /** Position p lies inside one of the matches. */
  predicate Covers(ms: seq<Match>, p: nat) {
    exists i :: 0 <= i < |ms| && ms[i].start <= p < ms[i].end
  }

  /** finditer misses no header: every position where the pattern matches
      lies inside a reported match (it is either reported or overlapped by
      an earlier one). */
  lemma {:induction false} FindAllCovers(s: string, at: nat -> Option<Match>, pos: nat, p: nat)
    requires pos <= p <= |s| && IsMatcher(s, at) && at(p).Some?
    ensures Covers(FindAll(s, at, pos), p)
    decreases |s| - pos
  {
    var ms := FindAll(s, at, pos);
    var first := FirstMatch(s, at, pos);
    var m := at(first.value).value;
    var rest := FindAll(s, at, m.end);
    assert ms == [m] + rest;
    if p < m.end {
      assert ms[0].start <= p < ms[0].end;
    } else {
      FindAllCovers(s, at, m.end, p);
      var i :| 0 <= i < |rest| && rest[i].start <= p < rest[i].end;
      assert ms[i + 1] == rest[i];
    }
  }

  /** The matches of a form's pattern over the whole content. */
  function Matches(form: Form, s: string): (ms: seq<Match>)
    ensures Ordered(s, ms)
    ensures forall i :: 0 <= i < |ms| ==> MatchAt(form, s, ms[i].start) == Some(ms[i])
  {
    FindAll(s, MatcherOf(form, s), 0)
  }

  /** Every position where a form's pattern matches is covered by Matches. */
  lemma MatchesCover(form: Form, s: string, p: nat)
    requires p <= |s| && MatchAt(form, s, p).Some?
    ensures Covers(Matches(form, s), p)
  {
    FindAllCovers(s, MatcherOf(form, s), 0, p);
  }

  // ---------------------------------------------------------------------
  // Sections

  /** A (file name, body) pair of _parse_file_sections. */
  datatype Section = Section(name: string, body: string)

  /** Where the body after the i-th header stops: at the start of the next
      match, or at the end of the content. */
  function BodyEnd(s: string, ms: seq<Match>, i: nat): (e: nat)
    requires Ordered(s, ms) && i < |ms|
    ensures ms[i].end <= e <= |s|
  {
    if i + 1 < |ms| then ms[i + 1].start else |s|
  }

  function HeaderName(s: string, m: Match): (name: string)
    requires WellFormed(s, m)
    ensures '\n' !in name
  {
    var raw := s[m.nameStart..m.nameEnd];
    assert '\n' !in raw by {
      forall i | 0 <= i < |raw| ensures raw[i] != '\n' {
        assert raw[i] == s[m.nameStart + i];
      }
    }
    CleanFilename(raw)
  }

  /** The section of the i-th match: its cleaned name and the text up to
      the next match with newlines stripped from both ends. */
  function SectionAt(s: string, ms: seq<Match>, i: nat): (sec: Section)
    requires Ordered(s, ms) && i < |ms|
    ensures '\n' !in sec.name
    ensures sec.body != [] ==> sec.body[0] != '\n' && sec.body[|sec.body| - 1] != '\n'
  {
    Section(HeaderName(s, ms[i]), Strip(s[ms[i].end..BodyEnd(s, ms, i)], IsNewline))
  }

  /** One section per match, in match order. */
  function SectionsOf(s: string, ms: seq<Match>): (secs: seq<Section>)
    requires Ordered(s, ms)
    ensures |secs| == |ms|
    ensures forall i :: 0 <= i < |ms| ==> secs[i] == SectionAt(s, ms, i)
  {
    seq(|ms|, i requires 0 <= i < |ms| => SectionAt(s, ms, i))
  }

  /** _parse_file_sections: the sections of the first form with any match. */
  function Sections(s: string): (secs: seq<Section>)
    ensures forall i :: 0 <= i < |secs| ==> '\n' !in secs[i].name
  {
    var heading := Matches(Heading, s);
    if heading != [] then SectionsOf(s, heading)
    else
      var fenced := Matches(Fenced, s);
      if fenced != [] then SectionsOf(s, fenced)
      else SectionsOf(s, Matches(Banner, s))
  }

  /** One turn of the loop: the section of the idx-th match. */
  method SliceOne(s: string, ms: seq<Match>, idx: nat) returns (sec: Section)
    requires Ordered(s, ms) && idx < |ms|
    ensures sec == SectionAt(s, ms, idx)
  {
    var m := ms[idx];
    var name := HeaderName(s, m);
    var start := m.end;
    var end := if idx + 1 < |ms| then ms[idx + 1].start else |s|;
    var body := Strip(s[start..end], IsNewline);
    sec := Section(name, body);
  }

  /** The loop that turns one form's matches into sections. */
  method SliceSections(s: string, ms: seq<Match>) returns (sections: seq<Section>)
    requires Ordered(s, ms)
    ensures sections == SectionsOf(s, ms)
  {
    sections := [];
    for idx := 0 to |ms|
      invariant |sections| == idx
      invariant forall i :: 0 <= i < idx ==> sections[i] == SectionAt(s, ms, i)
    {
      var sec := SliceOne(s, ms, idx);
      ghost var before := sections;
      sections := sections + [sec];
      forall i | 0 <= i <= idx
        ensures sections[i] == SectionAt(s, ms, i)
      {
        if i < idx {
          assert sections[i] == before[i];
        }
      }
    }
  }

  method ParseFileSections(content: string) returns (sections: seq<Section>)
    ensures sections == Sections(content)
  {
    var matches := Matches(Heading, content);
    if matches != [] {
      sections := SliceSections(content, matches);
      return;
    }
    sections := [];
    matches := Matches(Fenced, content);
    if matches != [] {
      sections := SliceSections(content, matches);
    }
    if sections != [] {
      return;
    }
    matches := Matches(Banner, content);
    if matches != [] {
      sections := SliceSections(content, matches);
    }
  }

  // ---------------------------------------------------------------------
  // Properties of the sections

  /** The text from the i-th match on, rebuilt from each header followed by
      the raw text of its body. */
  function Reassemble(s: string, ms: seq<Match>, i: nat): string
    requires Ordered(s, ms) && i <= |ms|
    decreases |ms| - i
  {
    if i == |ms| then [] else s[ms[i].start..BodyEnd(s, ms, i)] + Reassemble(s, ms, i + 1)
  }

  /** The bodies fill the gaps between the headers exactly: header and body
      pieces, in match order, give back the content from the first header
      to the end, with nothing lost or repeated. */
  lemma {:induction false} SlicesPartition(s: string, ms: seq<Match>, i: nat)
    requires Ordered(s, ms) && i < |ms|
    ensures Reassemble(s, ms, i) == s[ms[i].start..]
    decreases |ms| - i
  {
    if i + 1 < |ms| {
      SlicesPartition(s, ms, i + 1);
      var b := ms[i + 1].start;
      assert s[ms[i].start..b] + s[b..] == s[ms[i].start..];
    }
  }

  /** The form _parse_file_sections settles on: the first one, in the order
      Heading, Fenced, Banner, with any match. */
  predicate ChosenForm(s: string, form: Form) {
    match form
    case Heading => Matches(Heading, s) != []
    case Fenced => Matches(Heading, s) == [] && Matches(Fenced, s) != []
    case Banner => Matches(Heading, s) == [] && Matches(Fenced, s) == []
  }

  /** Sections never mix forms: they are exactly the sections of the chosen
      form's matches, one per match and in match order. */
  lemma SectionsOfOneForm(s: string, form: Form)
    requires ChosenForm(s, form)
    ensures Sections(s) == SectionsOf(s, Matches(form, s))
    ensures |Sections(s)| == |Matches(form, s)|
  {
  }

  /** A header of any form anywhere in the content yields sections. */
  lemma {:induction false} HeaderGivesSections(s: string, form: Form, p: nat)
    requires p <= |s| && MatchAt(form, s, p).Some?
    ensures Sections(s) != []
  {
    MatchesCover(form, s, p);
  }

  /** Sections come only from header matches. */
  lemma {:induction false} SectionsNeedHeader(s: string)
    requires Sections(s) != []
    ensures exists form, p :: 0 <= p <= |s| && MatchAt(form, s, p).Some?
  {
    var form := if Matches(Heading, s) != [] then Heading
      else if Matches(Fenced, s) != [] then Fenced else Banner;
    var m := Matches(form, s)[0];
    assert MatchAt(form, s, m.start).Some?;
  }

  /** _parse_file_sections finds nothing exactly when no header of any form
      occurs anywhere in the content. */
  lemma {:induction false} SectionsEmptyIff(s: string)
    ensures Sections(s) == [] <==>
      forall form, p :: 0 <= p <= |s| ==> MatchAt(form, s, p).None?
  {
    if Sections(s) == [] {
      forall form, p | 0 <= p <= |s|
        ensures MatchAt(form, s, p).None?
      {
        if MatchAt(form, s, p).Some? {
          HeaderGivesSections(s, form, p);
        }
      }
    } else {
      SectionsNeedHeader(s);
    }
  }
}
