/** The older, top-level summarizer: a regular-expression extractor that picks
    a README block and package.json / pyproject.toml blocks out of the
    flattened repository text, and the summary it falls back to when the
    language model gives nothing. */
module LegacySummarizer {
  import opened Text
  import opened Headers

  predicate IsLineBreak(c: char) { c == '\n' || c == '\r' }

  predicate Matched(attempt: Option<string>) { attempt.Some? }

  const ReadmeLabel := "README:\n"
  const ConfigLabel := "Project Config:\n"
  /** Characters kept of a package.json / pyproject.toml body. */
  const ConfigLimit := 2000
  /** Characters kept of the whole content when no block is found. */
  const FallbackLimit := 1500

  // ---------------------------------------------------------------------
  // The README pattern, case-insensitive and with `.` matching newlines:
  //   (?:^|\n)(#+\s*)?README(?:\.md)?[\n\r]+(.*?)(?=\n#+\s|\Z)
  // ---------------------------------------------------------------------

  /** `#+\s` at q. A shorter run of hashes would leave a hash where the
      whitespace is needed, so only the longest run can match. */
  predicate HeadingAt(s: string, q: nat) {
    q < |s| && s[q] == '#' &&
    var e := SpanFrom(s, q, IsHash);
    e < |s| && IsSpace(s[e])
  }

  /** HeadingAt is the regex `#+\s` at q: a run of hashes ending right
      before a whitespace character. */
  lemma HeadingAtMeaning(s: string, q: nat)
    ensures HeadingAt(s, q) <==>
      exists e :: q < e < |s| && (forall k :: q <= k < e ==> s[k] == '#') && IsSpace(s[e])
  {
    if !HeadingAt(s, q) && exists e :: q < e < |s| && (forall k :: q <= k < e ==> s[k] == '#') && IsSpace(s[e]) {
      var e :| q < e < |s| && (forall k :: q <= k < e ==> s[k] == '#') && IsSpace(s[e]);
      assert !IsHash(s[e]);
      SpanFromIs(s, q, IsHash, e);
    }
  }

  /** The lookahead `(?=\n#+\s|\Z)` holds at y. */
  predicate ReadmeStop(s: string, y: nat)
    requires y <= |s|
  {
    y == |s| || (s[y] == '\n' && HeadingAt(s, y + 1))
  }

  /** The lazy body `(.*?)` started at t ends at the first stop. */
  function ReadmeEnd(s: string, t: nat): (y: nat)
    requires t <= |s|
    ensures t <= y <= |s| && ReadmeStop(s, y)
    ensures forall z :: t <= z < y ==> !ReadmeStop(s, z)
    decreases |s| - t
  {
    if ReadmeStop(s, t) then t else ReadmeEnd(s, t + 1)
  }

  /** Where `README` has to begin when the pattern is tried at q: past the
      optional `#+\s*` group (greedy; giving characters back would leave a
      hash or a blank where `R` is needed). */
  function TitleStart(s: string, q: nat): (t: nat)
    requires q <= |s|
    ensures q <= t <= |s|
  {
    if q < |s| && s[q] == '#' then SpanFrom(s, SpanFrom(s, q, IsHash), IsSpace) else q
  }

  /** `README(?:\.md)?[\n\r]+` at t, ignoring case: the position where the
      body starts, after the whole run of line breaks. */
  function BodyStart(s: string, t: nat): (r: Option<nat>)
    requires t <= |s|
    ensures r.Some? ==> LooksAtIgnoreCase(s, t, "readme") && t + 7 <= r.value <= |s|
    ensures r.Some? ==> IsLineBreak(s[r.value - 1]) && (r.value < |s| ==> !IsLineBreak(s[r.value]))
  {
    if LooksAtIgnoreCase(s, t, "readme") then
      var x := if LooksAtIgnoreCase(s, t + 6, ".md") then t + 9 else t + 6;
      if x < |s| && IsLineBreak(s[x]) then Some(SpanFrom(s, x, IsLineBreak)) else None
    else None
  }

  /** The captured body when the pattern, past its anchor, is tried at q. */
  function ReadmeAt(s: string, q: nat): (body: Option<string>)
    requires q <= |s|
    ensures body.Some? ==> LooksAtIgnoreCase(s, TitleStart(s, q), "readme")
  {
    match BodyStart(s, TitleStart(s, q))
    case None => None
    case Some(r) => Some(s[r..ReadmeEnd(s, r)])
  }

  /** The pattern tried at p: `^` when p is 0, else a newline at p. */
  function ReadmeMatchAt(s: string, p: nat): (body: Option<string>)
    requires p <= |s|
    ensures body.Some? ==> p == 0 || (p < |s| && s[p] == '\n')
  {
    OrElse(
      if p == 0 then ReadmeAt(s, 0) else None,
      if p < |s| && s[p] == '\n' then ReadmeAt(s, p + 1) else None)
  }

  /** The match attempted at every position 0..|s|, in order. */
  function ReadmeAttempts(s: string): (attempts: seq<Option<string>>)
    ensures |attempts| == |s| + 1
    ensures forall k :: 0 <= k <= |s| ==> attempts[k] == ReadmeMatchAt(s, k)
  {
    seq(|s| + 1, k requires 0 <= k <= |s| => ReadmeMatchAt(s, k))
  }

  /** `re.search`: the README, at the leftmost position where one exists. */
  function ReadmeBlock(s: string): (body: Option<string>)
    ensures body.None? <==> forall p :: 0 <= p <= |s| ==> ReadmeMatchAt(s, p).None?
    ensures body.Some? ==>
      exists p :: 0 <= p <= |s| && body == ReadmeMatchAt(s, p) &&
        forall q :: 0 <= q < p ==> ReadmeMatchAt(s, q).None?
  {
    var attempts := ReadmeAttempts(s);
    match FirstIndex(attempts, Matched)
    case None => None
    case Some(p) => attempts[p]
  }

  // ---------------------------------------------------------------------
  // The configuration patterns, case-sensitive, `.` matching newlines:
  //   <name>[\n\r]+(.*?)(?=\n[A-Z]|\Z)
  // ---------------------------------------------------------------------

  /** The lookahead `(?=\n[A-Z]|\Z)` holds at y. */
  predicate ConfigStop(s: string, y: nat)
    requires y <= |s|
  {
    y == |s| || (s[y] == '\n' && y + 1 < |s| && IsAsciiUpper(s[y + 1]))
  }

  function ConfigEnd(s: string, t: nat): (y: nat)
    requires t <= |s|
    ensures t <= y <= |s| && ConfigStop(s, y)
    ensures forall z :: t <= z < y ==> !ConfigStop(s, z)
    decreases |s| - t
  {
    if ConfigStop(s, t) then t else ConfigEnd(s, t + 1)
  }

  /** The captured body when the pattern for file `name` is tried at p. */
  function ConfigAt(s: string, p: nat, name: string): (body: Option<string>)
    requires p <= |s|
    ensures body.Some? ==> LooksAt(s, p, name)
  {
    var x := p + |name|;
    if LooksAt(s, p, name) && x < |s| && IsLineBreak(s[x]) then
      var r := SpanFrom(s, x, IsLineBreak);
      Some(s[r..ConfigEnd(s, r)])
    else None
  }

  /** The match attempted at every position 0..|s|, in order. */
  function ConfigAttempts(s: string, name: string): (attempts: seq<Option<string>>)
    ensures |attempts| == |s| + 1
    ensures forall k :: 0 <= k <= |s| ==> attempts[k] == ConfigAt(s, k, name)
  {
    seq(|s| + 1, k requires 0 <= k <= |s| => ConfigAt(s, k, name))
  }

  /** `re.search`: the configuration match, at the leftmost position where one exists. */
  function ConfigBlock(s: string, name: string): (body: Option<string>)
    ensures body.None? <==> forall p :: 0 <= p <= |s| ==> ConfigAt(s, p, name).None?
    ensures body.Some? ==>
      exists p :: 0 <= p <= |s| && body == ConfigAt(s, p, name) &&
        forall q :: 0 <= q < p ==> ConfigAt(s, q, name).None?
  {
    var attempts := ConfigAttempts(s, name);
    match FirstIndex(attempts, Matched)
    case None => None
    case Some(p) => attempts[p]
  }

  // ---------------------------------------------------------------------
  // extract_key_sections
  // ---------------------------------------------------------------------

  function ReadmeEntry(s: string): (entry: seq<string>)
    ensures |entry| <= 1 && (entry == [] <==> ReadmeBlock(s).None?)
    ensures forall j :: 0 <= j < |entry| ==> StartsWith(entry[j], ReadmeLabel)
  {
    match ReadmeBlock(s)
    case Some(b) =>
      assert (ReadmeLabel + b)[..|ReadmeLabel|] == ReadmeLabel;
      [ReadmeLabel + b]
    case None => []
  }

  /** A configuration block: the label, then at most 2000 characters. */
  predicate ConfigShaped(block: string) {
    StartsWith(block, ConfigLabel) && |block| <= |ConfigLabel| + ConfigLimit
  }

  /** The block for `name`, tried only when `name` occurs in the content:
      at most one block, labelled and capped at 2000 characters of body. */
  function ConfigEntry(s: string, name: string): (entry: seq<string>)
    ensures |entry| <= 1 && (entry != [] ==> ConfigBlock(s, name).Some?)
    ensures forall j :: 0 <= j < |entry| ==> ConfigShaped(entry[j])
  {
    if Contains(s, name) then
      match ConfigBlock(s, name)
      case Some(b) =>
        var block := ConfigLabel + Prefix(b, ConfigLimit);
        assert block[..|ConfigLabel|] == ConfigLabel;
        [block]
      case None => []
    else []
  }

  /** The README block, then the package.json block, then the
      pyproject.toml block, each present only when found. */
  function KeyBlocks(s: string): (blocks: seq<string>)
    ensures s == [] ==> blocks == []
    ensures forall i :: 0 <= i < |blocks| ==> StartsWith(blocks[i], ReadmeLabel) || ConfigShaped(blocks[i])
  {
    ReadmeBlockNeedsWord(s);
    var readme, packageJson, pyproject :=
      ReadmeEntry(s), ConfigEntry(s, "package.json"), ConfigEntry(s, "pyproject.toml");
    ShapedAfterReadme(readme, packageJson, pyproject);
    readme + packageJson + pyproject
  }

  /** extract_key_sections: the blocks joined by blank lines, or the first
      1500 characters when no block is found. */
  function KeySections(s: string): (key: string)
    ensures key == [] <==> s == []
  {
    var blocks := KeyBlocks(s);
    var parts := if blocks == [] then [Prefix(s, FallbackLimit)] else blocks;
    JoinStartsWithFirst(parts, "\n\n");
    Join(parts, "\n\n")
  }

  /** One of the two configuration steps: append the block for `name` when
      the name occurs in the content and the pattern matches. */
  method AppendConfig(sections: seq<string>, content: string, name: string) returns (extended: seq<string>)
    ensures extended == sections + ConfigEntry(content, name)
  {
    extended := sections;
    if Contains(content, name) {
      var body := ConfigBlock(content, name);
      if body.Some? {
        extended := extended + [ConfigLabel + Prefix(body.value, ConfigLimit)];
      }
    }
    if ConfigEntry(content, name) == [] {
      assert sections + [] == sections;
    }
  }

  /** Builds the list of sections by conditional appends, as the source does. */
  method ExtractKeySections(content: string) returns (key: string)
    ensures key == KeySections(content)
  {
    var sections: seq<string> := [];
    var readme := ReadmeBlock(content);
    if readme.Some? {
      sections := sections + [ReadmeLabel + readme.value];
    }
    assert sections == ReadmeEntry(content);
    sections := AppendConfig(sections, content, "package.json");
    sections := AppendConfig(sections, content, "pyproject.toml");
    assert sections == KeyBlocks(content);
    if sections == [] {
      sections := sections + [Prefix(content, FallbackLimit)];
    }
    key := Join(sections, "\n\n");
  }

  /** A configuration block is only ever found where its file name occurs,
      so the `in content` guard never hides a match. */
  lemma ConfigBlockNeedsName(s: string, name: string)
    ensures ConfigBlock(s, name).Some? ==> Contains(s, name)
    ensures ConfigEntry(s, name) == match ConfigBlock(s, name)
      case Some(b) => [ConfigLabel + Prefix(b, ConfigLimit)]
      case None => []
  {
    if ConfigBlock(s, name).Some? {
      var p :| 0 <= p <= |s| && ConfigBlock(s, name) == ConfigAt(s, p, name);
      ContainsFromFinds(s, name, 0, p);
    }
  }

  /** A README block is only ever found where the word "readme" occurs in
      some letter case. */
  lemma ReadmeBlockNeedsWord(s: string)
    ensures ReadmeBlock(s).Some? ==> exists i :: 0 <= i <= |s| && LooksAtIgnoreCase(s, i, "readme")
  {
    if ReadmeBlock(s).Some? {
      var p :| 0 <= p <= |s| && ReadmeBlock(s) == ReadmeMatchAt(s, p);
      if p == 0 && ReadmeAt(s, 0).Some? {
        assert LooksAtIgnoreCase(s, TitleStart(s, 0), "readme");
      } else {
        assert LooksAtIgnoreCase(s, TitleStart(s, p + 1), "readme");
      }
    }
  }

  /** At most three blocks: the README block first when there is one, then
      the configuration blocks, each holding at most 2000 characters of body. */
  lemma KeyBlocksShape(s: string)
    ensures |KeyBlocks(s)| <= 3
    ensures ReadmeBlock(s).Some? <==> |KeyBlocks(s)| > 0 && StartsWith(KeyBlocks(s)[0], ReadmeLabel)
    ensures ReadmeBlock(s).Some? ==> KeyBlocks(s)[0] == ReadmeLabel + ReadmeBlock(s).value
    ensures forall i :: 0 <= i < |KeyBlocks(s)| && (i > 0 || ReadmeBlock(s).None?) ==>
      ConfigShaped(KeyBlocks(s)[i])
  {
    var readme := ReadmeEntry(s);
    var packageJson := ConfigEntry(s, "package.json");
    var pyproject := ConfigEntry(s, "pyproject.toml");
    ShapedAfterReadme(readme, packageJson, pyproject);
    if readme == [] && KeyBlocks(s) != [] {
      ConfigNotReadme(KeyBlocks(s)[0]);
    }
  }

  /** The order of the appends: the package.json block follows the README
      block, and the pyproject.toml block comes last, each carrying at most
      2000 characters of its own file's body. */
  lemma KeyBlocksOrder(s: string)
    ensures |KeyBlocks(s)| == |ReadmeEntry(s)|
      + (if ConfigBlock(s, "package.json").Some? then 1 else 0)
      + (if ConfigBlock(s, "pyproject.toml").Some? then 1 else 0)
    ensures ConfigBlock(s, "package.json").Some? ==>
      && |ReadmeEntry(s)| < |KeyBlocks(s)|
      && KeyBlocks(s)[|ReadmeEntry(s)|] == ConfigLabel + Prefix(ConfigBlock(s, "package.json").value, ConfigLimit)
    ensures ConfigBlock(s, "pyproject.toml").Some? ==>
      && KeyBlocks(s) != []
      && KeyBlocks(s)[|KeyBlocks(s)| - 1] == ConfigLabel + Prefix(ConfigBlock(s, "pyproject.toml").value, ConfigLimit)
  {
    ConfigBlockNeedsName(s, "package.json");
    ConfigBlockNeedsName(s, "pyproject.toml");
  }

  /** A README block followed by a configuration block: the sections open
      with the README block, a blank line, then the configuration label. */
  lemma KeySectionsReadmeThenConfig(s: string)
    requires ReadmeBlock(s).Some?
    requires ConfigBlock(s, "package.json").Some? || ConfigBlock(s, "pyproject.toml").Some?
    ensures StartsWith(KeySections(s), ReadmeLabel + ReadmeBlock(s).value + "\n\n" + ConfigLabel)
  {
    var blocks := KeyBlocks(s);
    KeyBlocksShape(s);
    KeyBlocksOrder(s);
    assert |blocks| >= 2 && ConfigShaped(blocks[1]);
    JoinStartsWithTwo(blocks, "\n\n");
    StartsWithTrans(KeySections(s), blocks[0] + "\n\n", blocks[1], ConfigLabel);
  }

  lemma ShapedAfterReadme(readme: seq<string>, first: seq<string>, second: seq<string>)
    requires forall j :: 0 <= j < |first| ==> ConfigShaped(first[j])
    requires forall j :: 0 <= j < |second| ==> ConfigShaped(second[j])
    ensures forall i :: |readme| <= i < |readme + first + second| ==> ConfigShaped((readme + first + second)[i])
  {
  }

  /** A README block and a configuration block never look alike. */
  lemma ConfigNotReadme(block: string)
    requires ConfigShaped(block)
    ensures !StartsWith(block, ReadmeLabel)
  {
    assert block[0] == ConfigLabel[0];
  }

  /** With no block found, the result is exactly the first 1500 characters. */
  lemma KeySectionsFallback(s: string)
    requires KeyBlocks(s) == []
    ensures KeySections(s) == s[..SliceStop(FallbackLimit, |s|)]
    ensures |KeySections(s)| <= FallbackLimit
  {
  }

  /** Content mentioning neither "readme" (in any case) nor either file name
      is summarised by its first 1500 characters. */
  lemma PlainContentFallback(s: string)
    requires forall i :: 0 <= i <= |s| ==> !LooksAtIgnoreCase(s, i, "readme")
    requires !Contains(s, "package.json") && !Contains(s, "pyproject.toml")
    ensures KeySections(s) == s[..SliceStop(FallbackLimit, |s|)]
  {
    ReadmeBlockNeedsWord(s);
    KeySectionsFallback(s);
  }

  /** A README block, when found, opens the joined sections. */
  lemma KeySectionsLeadWithReadme(s: string)
    requires ReadmeBlock(s).Some?
    ensures StartsWith(KeySections(s), ReadmeLabel + ReadmeBlock(s).value)
  {
    KeyBlocksShape(s);
    JoinStartsWithFirst(KeyBlocks(s), "\n\n");
  }

  // ---------------------------------------------------------------------
  // generate_summary
  // ---------------------------------------------------------------------

  const PromptIntro := "Based on this repository information, write a concise 4 to 10 sentences summary " +
    "describing what this project does, its main purpose, and key features:\n\nRepository: "

  /** The prompt sent to the language model. */
  function Prompt(repoName: string, key: string): (prompt: string)
    ensures EndsWith(prompt, key + "\n\nSummary:")
  {
    var head := PromptIntro + repoName + "\n\n";
    assert head + key + "\n\nSummary:" == head + (key + "\n\nSummary:");
    head + key + "\n\nSummary:"
  }

  /** `content` is what the fetch returned ("" when it failed); `ask` stands
      for the model call, `None` or `Some("")` when it gives nothing. */
  function GenerateSummary(content: string, repoName: string, ask: string -> Option<string>): (summary: string)
    ensures summary != []
    ensures content == [] ==> summary == "Could not fetch " + repoName
  {
    if content == [] then "Could not fetch " + repoName
    else
      var key := KeySections(content);
      match ask(Prompt(repoName, key))
      case Some(text) => if text != [] then text else repoName + "\n\n" + key
      case None => repoName + "\n\n" + key
  }

  /** The three outcomes: a failed fetch, a usable answer, and the fallback
      to the name followed by the key sections. */
  lemma SummaryOutcomes(content: string, repoName: string, ask: string -> Option<string>)
    ensures content == [] ==> GenerateSummary(content, repoName, ask) == "Could not fetch " + repoName
    ensures content != [] ==>
      var answer := ask(Prompt(repoName, KeySections(content)));
      (answer.Some? && answer.value != [] ==> GenerateSummary(content, repoName, ask) == answer.value) &&
      (answer.None? || answer.value == [] ==>
        GenerateSummary(content, repoName, ask) == repoName + "\n\n" + KeySections(content))
  {
  }
}
