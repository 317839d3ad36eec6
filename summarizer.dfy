/** The summariser of src/ragstar/summarizer.py: the ingest plan, the README
    and root-document extraction over the parsed sections, the labelled
    context blocks and the pure branches of generate_summary. Fetching the
    repository and asking the language model are inputs. */
module Summarizer {
  import opened Text
  import opened Headers

  // ---------------------------------------------------------------------
  // _iter_ingest_attempts

  const MiB: int := 1024 * 1024

  /** The include patterns handed to gitingest: none (every file), the
      configured pattern string, or a set of globs. */
  datatype Patterns = AllFiles | Pattern(text: string) | PatternSet(globs: set<string>)

  /** One fetch attempt: the file-size cap in bytes, the patterns and a tag
      for the log. */
  datatype Attempt = Attempt(maxFileSize: int, patterns: Patterns, tag: string)

  /** The globs of the documentation-only fallback. */
  const DocGlobs: set<string> := {"**/README*", "**/*.md", "**/*.rst", "**/*.txt"}

  function Max(a: int, b: int): (m: int)
    ensures m >= a && m >= b && (m == a || m == b)
  {
    if a >= b then a else b
  }

  function Min(a: int, b: int): (m: int)
    ensures m <= a && m <= b && (m == a || m == b)
  {
    if a <= b then a else b
  }

  /** _iter_ingest_attempts, with the two settings it reads as parameters. */
  method IngestAttempts(maxFileSizeMb: int, includePatterns: string) returns (attempts: seq<Attempt>)
    ensures |attempts| == 2
    ensures attempts[0].maxFileSize == (if maxFileSizeMb < 1 then 1 else maxFileSizeMb) * MiB
    ensures attempts[0].maxFileSize >= MiB
    ensures StripSpace(includePatterns) == [] ==> attempts[0].patterns == AllFiles
    ensures StripSpace(includePatterns) != [] ==> attempts[0].patterns == Pattern(StripSpace(includePatterns))
    ensures attempts[0].tag == "primary"
    ensures attempts[1] == Attempt(MiB, PatternSet(DocGlobs), "fallback:docs-only")
  {
    var maxSizeBytes := Max(1, maxFileSizeMb) * MiB;
    attempts := [];
    var stripped := StripSpace(includePatterns);
    var patterns := if stripped != [] then Pattern(stripped) else AllFiles;
    attempts := attempts + [Attempt(maxSizeBytes, patterns, "primary")];
    var fallbackSize := Min(maxSizeBytes, 1 * MiB);
    attempts := attempts + [Attempt(fallbackSize, PatternSet(DocGlobs), "fallback:docs-only")];
  }

  // ---------------------------------------------------------------------
  // extract_readme

  /** `name.split("/")[-1].split("\\")[-1].lower()`. */
  function Basename(name: string): (base: string)
    ensures |base| <= |name|
  {
    Lower(AfterLast(AfterLast(name, '/'), '\\'))
  }

  /** A basename holds no path separator. */
  lemma BasenameHasNoSeparator(name: string)
    ensures '/' !in Basename(name) && '\\' !in Basename(name)
  {
    var afterSlash := AfterLast(name, '/');
    var last := AfterLast(afterSlash, '\\');
    AfterLastSuffix(name, '/');
    AfterLastSuffix(afterSlash, '\\');
    assert afterSlash[|afterSlash| - |last|..|afterSlash|] == last;
    SliceExcludes(afterSlash, |afterSlash| - |last|, |afterSlash|, '/');
    LowerExcludes(last, '/');
    LowerExcludes(last, '\\');
  }

  /** A name without separators is its own basename, lowered. */
  lemma BasenameOfPlainName(name: string)
    requires '/' !in name && '\\' !in name
    ensures Basename(name) == Lower(name)
  {
    AfterLastWhole(name, '/');
    AfterLastWhole(name, '\\');
  }

  /** The directories in front of a name do not change its basename. */
  lemma BasenameAfterDirectory(dir: string, name: string)
    ensures Basename(dir + "/" + name) == Basename(name)
  {
    assert dir + "/" + name == dir + ['/'] + name;
    AfterLastAfterSep(dir, '/', name);
  }

  /** The first loop of extract_readme looks for a basename starting with
      "readme"; the second for one containing it. */
  predicate PreferredReadme(sec: Section) { StartsWith(Basename(sec.name), "readme") }

  predicate MentionsReadme(sec: Section) { Contains(Basename(sec.name), "readme") }

  /** A name the first loop accepts would also be accepted by the second,
      so the first loop only ranks names, it never admits more. */
  lemma PreferredMentions(sec: Section)
    requires PreferredReadme(sec)
    ensures MentionsReadme(sec)
  {
    assert LooksAt(Basename(sec.name), 0, "readme");
  }

  /** `body.strip()[:8000]`. */
  function ReadmeText(body: string): (text: string)
    ensures |text| <= 8000
    ensures text != [] ==> !IsSpace(text[0])
  {
    Prefix(StripSpace(body), 8000)
  }

  /** `FILE:\s+` at q, ignoring case: where the whitespace ends. */
  function FileMarker(s: string, q: nat): (w: Option<nat>)
    requires q <= |s|
    ensures w.Some? ==> q + 5 < w.value <= |s|
  {
    if LooksAtIgnoreCase(s, q, "file:") && q + 5 < |s| && IsSpace(s[q + 5]) then
      Some(SpanFrom(s, q + 5, IsSpace))
    else None
  }

  /** `README(?:\.(?:md|rst|txt))?\n` at r, ignoring case: where the body
      begins. The extension is tried first; without it the `\n` would have
      to stand where the dot is. */
  /** A title line of the content ends just before t. */
  predicate AfterLineBreak(s: string, t: nat) {
    0 < t <= |s| && s[t - 1] == '\n'
  }

  function ReadmeTitle(s: string, r: nat): (t: Option<nat>)
    requires r <= |s|
    ensures t.Some? ==> r + 7 <= t.value <= |s| && AfterLineBreak(s, t.value)
  {
    if LooksAtIgnoreCase(s, r, "readme") then
      var x := r + 6;
      var ext := if LooksAtIgnoreCase(s, x, ".md") then 3
        else if LooksAtIgnoreCase(s, x, ".rst") || LooksAtIgnoreCase(s, x, ".txt") then 4
        else 0;
      if ext > 0 && LooksAt(s, x + ext, "\n") then Some(x + ext + 1)
      else if LooksAt(s, x, "\n") then Some(x + 1)
      else None
    else None
  }

  /** The lookahead `(?=\n(?:#{1,6}\s+|FILE:\s+)|\Z)` holds at y. */
  predicate ReadmeStop(s: string, y: nat)
    requires y <= |s|
  {
    y == |s| || (s[y] == '\n' && (HashMarker(s, y + 1).Some? || FileMarker(s, y + 1).Some?))
  }

  /** Where the lazy `(.*?)` from t stops: the first position where the
      lookahead holds. */
  function ReadmeBodyEnd(s: string, t: nat): (y: nat)
    requires t <= |s|
    ensures t <= y <= |s| && ReadmeStop(s, y)
    ensures forall z :: t <= z < y ==> !ReadmeStop(s, z)
    decreases |s| - t
  {
    if ReadmeStop(s, t) then t else ReadmeBodyEnd(s, t + 1)
  }

  /** The title of the inline README pattern after its `(?:^|\n)` prefix,
      at q: where the body begins. The optional heading marker is tried
      first, then skipped. After a marker the `\s+` gives back only
      whitespace, where README needs a letter, so the title must start
      where the whitespace ends. */
  function TitleAt(s: string, q: nat): (t: Option<nat>)
    requires q <= |s|
    ensures t.Some? ==> q + 7 <= t.value <= |s| && AfterLineBreak(s, t.value)
  {
    var viaHash := match HashMarker(s, q)
      case Some(h) => ReadmeTitle(s, SpanFrom(s, h, IsSpace))
      case None => None;
    var viaFile := match FileMarker(s, q)
      case Some(w) => ReadmeTitle(s, w)
      case None => None;
    if viaHash.Some? then viaHash else if viaFile.Some? then viaFile else ReadmeTitle(s, q)
  }

  /** The body the inline README pattern captures at q: from the end of the
      title line to the first stop. */
  function ReadmeAt(s: string, q: nat): (body: Option<string>)
    requires q <= |s|
    ensures body.Some? ==>
      exists t :: q + 7 <= t <= |s| && AfterLineBreak(s, t) && body.value == s[t..ReadmeBodyEnd(s, t)]
  {
    match TitleAt(s, q)
    case None => None
    case Some(t) => Some(s[t..ReadmeBodyEnd(s, t)])
  }

  function InlineReadmeAt(s: string, p: nat): (body: Option<string>)
    requires p <= |s|
    ensures body.Some? ==> p == 0 || (p < |s| && s[p] == '\n')
  {
    OrElse(
      if p == 0 then ReadmeAt(s, 0) else None,
      if p < |s| && s[p] == '\n' then ReadmeAt(s, p + 1) else None)
  }

  /** The re.search fallback of extract_readme: group 2 of the leftmost
      match. */
  function InlineReadme(s: string): (body: Option<string>)
    ensures body.Some? <==> exists p :: 0 <= p <= |s| && InlineReadmeAt(s, p).Some?
  {
    var found := (p: nat) => p <= |s| && InlineReadmeAt(s, p).Some?;
    assert forall p: nat :: found(p) == (p <= |s| && InlineReadmeAt(s, p).Some?);
    match FirstAt(0, |s|, found)
    case None => None
    case Some(p) => InlineReadmeAt(s, p)
  }

  /** The choice extract_readme makes among the parsed sections: the first
      section named like a README file, else the first whose name mentions
      it, else the inline README block, else nothing. */
  function ReadmeFrom(sections: seq<Section>, inline: Option<string>): (text: string)
    ensures |text| <= 8000
  {
    match FirstIndex(sections, PreferredReadme)
    case Some(i) => ReadmeText(sections[i].body)
    case None =>
      match FirstIndex(sections, MentionsReadme)
      case Some(i) => ReadmeText(sections[i].body)
      case None =>
        match inline
        case None => ""
        case Some(body) => ReadmeText(body)
  }

  /** extract_readme. */
  function Readme(content: string): (text: string)
    ensures |text| <= 8000
  {
    ReadmeFrom(Sections(content), InlineReadme(content))
  }

  /** The first loop of extract_readme: the first section whose basename
      starts with "readme". */
  method FindNamedReadme(sections: seq<Section>) returns (found: Option<nat>)
    ensures found == FirstIndex(sections, PreferredReadme)
  {
    for i := 0 to |sections|
      invariant forall j :: 0 <= j < i ==> !PreferredReadme(sections[j])
    {
      var base := Basename(sections[i].name);
      if StartsWith(base, "readme") {
        assert PreferredReadme(sections[i]);
        FirstIndexIs(sections, PreferredReadme, i);
        return Some(i);
      }
    }
    FirstIndexNone(sections, PreferredReadme);
    return None;
  }

  /** The second loop: the first section whose basename contains
      "readme". */
  method FindMentionedReadme(sections: seq<Section>) returns (found: Option<nat>)
    ensures found == FirstIndex(sections, MentionsReadme)
  {
    for i := 0 to |sections|
      invariant forall j :: 0 <= j < i ==> !MentionsReadme(sections[j])
    {
      var base := Basename(sections[i].name);
      if Contains(base, "readme") {
        assert MentionsReadme(sections[i]);
        FirstIndexIs(sections, MentionsReadme, i);
        return Some(i);
      }
    }
    FirstIndexNone(sections, MentionsReadme);
    return None;
  }

  /** The two loops of extract_readme over the parsed sections, then the
      inline search. */
  method PickReadme(sections: seq<Section>, content: string) returns (text: string)
    ensures text == ReadmeFrom(sections, InlineReadme(content))
  {
    if sections != [] {
      var found := FindNamedReadme(sections);
      if found.Some? {
        return ReadmeText(sections[found.value].body);
      }
      found := FindMentionedReadme(sections);
      if found.Some? {
        return ReadmeText(sections[found.value].body);
      }
    }
    match InlineReadme(content)
    case None =>
      return "";
    case Some(body) =>
      return ReadmeText(body);
  }

  method ExtractReadme(content: string) returns (text: string)
    ensures text == Readme(content)
  {
    var sections := ParseFileSections(content);
    text := PickReadme(sections, content);
  }

  /** A section named like a README file wins over any earlier section that
      only mentions README, and over the inline block. */
  lemma {:induction false} ReadmePrefersNamedFile(sections: seq<Section>, inline: Option<string>, i: nat)
    requires i < |sections| && PreferredReadme(sections[i])
    requires forall j :: 0 <= j < i ==> !PreferredReadme(sections[j])
    ensures ReadmeFrom(sections, inline) == ReadmeText(sections[i].body)
  {
    var r := FirstIndex(sections, PreferredReadme);
    assert r.Some?;
    assert r.value == i;
  }

  /** The inline README block is consulted only when no section name
      mentions README. */
  lemma {:induction false} ReadmeSectionsFirst(sections: seq<Section>, a: Option<string>, b: Option<string>, i: nat)
    requires i < |sections| && MentionsReadme(sections[i])
    ensures ReadmeFrom(sections, a) == ReadmeFrom(sections, b)
  {
    assert FirstIndex(sections, MentionsReadme).Some?;
  }

  /** Without a README-like section and without an inline README block the
      result is empty. */
  lemma ReadmeMissing(sections: seq<Section>)
    requires forall i :: 0 <= i < |sections| ==> !MentionsReadme(sections[i])
    ensures ReadmeFrom(sections, None) == ""
  {
    assert FirstIndex(sections, MentionsReadme).None?;
    assert FirstIndex(sections, PreferredReadme).None? by {
      forall i | 0 <= i < |sections|
        ensures !PreferredReadme(sections[i])
      {
        if PreferredReadme(sections[i]) {
          PreferredMentions(sections[i]);
        }
      }
    }
  }

  // ---------------------------------------------------------------------
  // extract_root_docs

  /** A name with no path separator. */
  predicate IsRootFile(name: string) { '/' !in name && '\\' !in name }

  /** A name ending in .toml or .txt, ignoring case. */
  predicate Wanted(name: string) {
    var lower := Lower(name);
    EndsWith(lower, ".toml") || EndsWith(lower, ".txt")
  }

  /** A document extract_root_docs keeps: a root-level .toml or .txt file. */
  predicate RootDoc(doc: Section) { IsRootFile(doc.name) && Wanted(doc.name) }

  predicate OneLineNames(sections: seq<Section>) {
    forall i :: 0 <= i < |sections| ==> '\n' !in sections[i].name
  }

  /** One turn of the filtering loop of extract_root_docs: the name is
      cleaned once more and kept when it is a root-level .toml or .txt
      file. */
  function Candidate(sec: Section): (r: Option<Section>)
    requires '\n' !in sec.name
    ensures r.Some? ==> RootDoc(r.value) && r.value.body == sec.body
  {
    var name := CleanFilename(sec.name);
    if IsRootFile(name) && Wanted(name) then Some(Section(name, sec.body)) else None
  }

  /** Each section's turn of the filtering loop. */
  function Candidates(sections: seq<Section>): (cs: seq<Option<Section>>)
    requires OneLineNames(sections)
    ensures |cs| == |sections|
  {
    Map(sections, Candidate)
  }

  /** The filtering loop of extract_root_docs. */
  function RootCandidates(sections: seq<Section>): (kept: seq<Section>)
    requires OneLineNames(sections)
    ensures |kept| <= |sections|
  {
    Somes(Candidates(sections))
  }

  /** The preview loop: `body.strip()[:max_chars]`, kept when not empty. */
  function Previews(docs: seq<Section>, maxChars: int): (previews: seq<Section>)
    ensures |previews| <= |docs|
    ensures forall i :: 0 <= i < |previews| ==> previews[i].body != []
    ensures maxChars >= 0 ==> forall i :: 0 <= i < |previews| ==> |previews[i].body| <= maxChars
    decreases |docs|
  {
    if docs == [] then []
    else
      var front := Previews(docs[..|docs| - 1], maxChars);
      var last := docs[|docs| - 1];
      var preview := Prefix(StripSpace(last.body), maxChars);
      if preview != [] then front + [Section(last.name, preview)] else front
  }

  /** What extract_root_docs keeps of the parsed sections. */
  function RootDocsFrom(sections: seq<Section>, maxFiles: int, maxChars: int): (docs: seq<Section>)
    requires OneLineNames(sections)
    ensures |docs| <= |sections|
    ensures maxFiles == 0 ==> docs == []
  {
    Previews(Prefix(RootCandidates(sections), maxFiles), maxChars)
  }

  /** extract_root_docs. When no section is found the source tries one more
      pattern, whose matches would all have been headings; by
      FallbackNeedsHeading that pattern never matches there, so this
      definition leaves it out. */
  function RootDocs(content: string, maxFiles: int, maxChars: int): (docs: seq<Section>)
    ensures Sections(content) == [] ==> docs == []
  {
    RootDocsFrom(Sections(content), maxFiles, maxChars)
  }

  /** The fallback pattern of extract_root_docs,
      `\n(?:#{1,6}\s+)([^\n]+)\n(.*?)(?=\n#{1,6}\s+|\Z)`, matches at p: its
      lazy body always ends at the next heading or at the end, so the match
      exists once the header line matches. */
  predicate RootFallbackAt(s: string, p: nat) {
    p < |s| && s[p] == '\n' && HashHeading(s, p + 1).Some?
  }

  /** Wherever the fallback pattern matches, the heading form matches too,
      so _parse_file_sections has found sections and the fallback branch is
      not taken. */
  lemma {:induction false} FallbackNeedsHeading(s: string, p: nat)
    requires RootFallbackAt(s, p)
    ensures Sections(s) != []
  {
    assert FormTail(Heading, s, p + 1).Some?;
    assert MatchAt(Heading, s, p).Some?;
    HeaderGivesSections(s, Heading, p);
  }

  /** The filtering loop. */
  method FilterRootFiles(sections: seq<Section>) returns (filtered: seq<Section>)
    requires OneLineNames(sections)
    ensures filtered == RootCandidates(sections)
  {
    filtered := [];
    ghost var candidates := Candidates(sections);
    for i := 0 to |sections|
      invariant filtered == Somes(candidates[..i])
    {
      var candidate := Candidate(sections[i]);
      TakeSnoc(candidates, i);
      SomesSnoc(candidates[..i], candidate);
      if candidate.Some? {
        filtered := filtered + [candidate.value];
      }
    }
    assert candidates[..|sections|] == candidates;
  }

  /** The preview loop. */
  method PreviewFiles(filtered: seq<Section>, maxChars: int) returns (previews: seq<Section>)
    ensures previews == Previews(filtered, maxChars)
  {
    previews := [];
    for i := 0 to |filtered|
      invariant previews == Previews(filtered[..i], maxChars)
    {
      assert filtered[..i + 1][..i] == filtered[..i];
      var preview := Prefix(StripSpace(filtered[i].body), maxChars);
      if preview != [] {
        previews := previews + [Section(filtered[i].name, preview)];
      }
    }
    assert filtered[..|filtered|] == filtered;
  }

  method ExtractRootDocs(content: string, maxFiles: int, maxChars: int) returns (previews: seq<Section>)
    ensures previews == RootDocs(content, maxFiles, maxChars)
  {
    var sections := ParseFileSections(content);
    var filtered := FilterRootFiles(sections);
    filtered := Prefix(filtered, maxFiles);
    previews := PreviewFiles(filtered, maxChars);
  }

  /** Filtering keeps the order: the candidates of two pieces are the
      candidates of the first followed by those of the second. */
  lemma RootCandidatesAppend(a: seq<Section>, b: seq<Section>)
    requires OneLineNames(a) && OneLineNames(b)
    ensures OneLineNames(a + b)
    ensures RootCandidates(a + b) == RootCandidates(a) + RootCandidates(b)
  {
    MapAppend(a, b, Candidate);
    SomesAppend(Candidates(a), Candidates(b));
  }

  /** Every candidate is a root-level .toml or .txt file. */
  lemma RootCandidatesAreRootDocs(sections: seq<Section>)
    requires OneLineNames(sections)
    ensures forall i :: 0 <= i < |RootCandidates(sections)| ==> RootDoc(RootCandidates(sections)[i])
  {
    var cs := Candidates(sections);
    forall i | 0 <= i < |cs| && cs[i].Some?
      ensures RootDoc(cs[i].value)
    {
      assert cs[i] == Candidate(sections[i]);
    }
    SomesAll(cs, RootDoc);
  }

  /** The previews keep the order in the same way. */
  lemma {:induction false} PreviewsAppend(a: seq<Section>, b: seq<Section>, maxChars: int)
    ensures Previews(a + b, maxChars) == Previews(a, maxChars) + Previews(b, maxChars)
    decreases |b|
  {
    if b != [] {
      var front, last := b[..|b| - 1], b[|b| - 1];
      assert (a + b)[..|a + b| - 1] == a + front;
      assert (a + b)[|a + b| - 1] == last;
      PreviewsAppend(a, front, maxChars);
      var pa, pf := Previews(a, maxChars), Previews(front, maxChars);
      var preview := Prefix(StripSpace(last.body), maxChars);
      if preview != [] {
        AppendAssoc(pa, pf, [Section(last.name, preview)]);
      }
    } else {
      assert a + b == a;
    }
  }

  /** Previews keep only names they were given. */
  lemma {:induction false} PreviewNames(docs: seq<Section>, maxChars: int)
    requires forall i :: 0 <= i < |docs| ==> RootDoc(docs[i])
    ensures forall i :: 0 <= i < |Previews(docs, maxChars)| ==> RootDoc(Previews(docs, maxChars)[i])
    decreases |docs|
  {
    if docs != [] {
      var front, last := docs[..|docs| - 1], docs[|docs| - 1];
      PreviewNames(front, maxChars);
      var pf := Previews(front, maxChars);
      var preview := Prefix(StripSpace(last.body), maxChars);
      if preview != [] {
        var doc := Section(last.name, preview);
        assert RootDoc(doc);
        forall i | 0 <= i < |pf| + 1
          ensures RootDoc((pf + [doc])[i])
        {
          if i < |pf| {
            assert (pf + [doc])[i] == pf[i];
          }
        }
      }
    }
  }

  /** Every root document is a root-level .toml or .txt file with a
      non-empty preview of at most maxChars characters, and there are at
      most maxFiles of them. */
  lemma {:induction false} RootDocsShape(sections: seq<Section>, maxFiles: int, maxChars: int)
    requires OneLineNames(sections)
    ensures var docs := RootDocsFrom(sections, maxFiles, maxChars);
      (maxFiles >= 0 ==> |docs| <= maxFiles) &&
      forall i :: 0 <= i < |docs| ==>
        RootDoc(docs[i]) && docs[i].body != [] &&
        (maxChars >= 0 ==> |docs[i].body| <= maxChars)
  {
    RootCandidatesAreRootDocs(sections);
    var kept := Prefix(RootCandidates(sections), maxFiles);
    PreviewNames(kept, maxChars);
  }

  // ---------------------------------------------------------------------
  // build_context_blocks

  const NoReadme := "(README missing or empty)"

  const NoRootDocs := "(No root .toml/.txt files captured)"

  const DocSeparator := "\n\n---\n\n"

  function DocChunk(doc: Section): (chunk: string)
    ensures StartsWith(chunk, "FILE: ")
  {
    "FILE: " + doc.name + "\n" + doc.body
  }

  function DocChunks(docs: seq<Section>): (chunks: seq<string>)
    ensures |chunks| == |docs|
    ensures forall i :: 0 <= i < |docs| ==> chunks[i] == DocChunk(docs[i])
  {
    seq(|docs|, i requires 0 <= i < |docs| => DocChunk(docs[i]))
  }

  /** The two labelled blocks made from the README text and the root
      documents. */
  function BlocksOf(readme: string, docs: seq<Section>): (blocks: (string, string))
    ensures blocks.0 != [] && blocks.1 != []
  {
    var chunks := DocChunks(docs);
    (if readme != [] then readme else NoReadme,
     if chunks != [] then Join(chunks, DocSeparator) else NoRootDocs)
  }

  /** build_context_blocks, with the settings it reads as parameters. */
  function ContextBlocks(content: string, maxFiles: int, maxChars: int): (blocks: (string, string))
    ensures blocks.0 != [] && blocks.1 != []
    ensures Readme(content) != [] ==> blocks.0 == Readme(content)
    ensures Readme(content) == [] ==> blocks.0 == NoReadme
    ensures blocks.1 == NoRootDocs <==> RootDocs(content, maxFiles, maxChars) == []
  {
    BlocksLabelled(Readme(content), RootDocs(content, maxFiles, maxChars));
    BlocksOf(Readme(content), RootDocs(content, maxFiles, maxChars))
  }

  /** Neither block is ever empty: a placeholder stands in for missing
      content, and otherwise the README text or the first "FILE: " chunk
      leads. */
  lemma {:induction false} BlocksLabelled(readme: string, docs: seq<Section>)
    ensures var blocks := BlocksOf(readme, docs);
      (readme == [] ==> blocks.0 == NoReadme) &&
      (readme != [] ==> blocks.0 == readme) &&
      (docs == [] <==> blocks.1 == NoRootDocs) &&
      (docs != [] ==> StartsWith(blocks.1, DocChunk(docs[0])))
  {
    var chunks := DocChunks(docs);
    if docs != [] {
      JoinStartsWithFirst(chunks, DocSeparator);
      var joined := Join(chunks, DocSeparator);
      assert joined[..6] == "FILE: " by {
        assert joined[..|chunks[0]|] == chunks[0];
        assert chunks[0][..6] == "FILE: ";
      }
      assert joined != NoRootDocs by {
        assert NoRootDocs[0] == '(';
      }
    }
  }

  // ---------------------------------------------------------------------
  // generate_summary

  const TruncationMarker := "\n[... truncated ...]"

  /** The labelled context placed inside the prompt. */
  function PromptBlocks(repoName: string, readmeBlock: string, docsBlock: string): (blocks: string)
    ensures StartsWith(blocks, "\nRepository: " + repoName + "\n\n[README]\n" + readmeBlock)
    ensures EndsWith(blocks, "\n\n[ROOT_DOCS]\n" + docsBlock + "\n")
  {
    "\nRepository: " + repoName + "\n\n[README]\n" + readmeBlock + "\n\n[ROOT_DOCS]\n" + docsBlock + "\n"
  }

  /** The length check of generate_summary: an over-long context keeps its
      first maxPromptChars characters and gains the truncation marker. */
  function Truncate(blocks: string, maxPromptChars: int): (r: string)
    ensures |blocks| <= maxPromptChars ==> r == blocks
    ensures |blocks| > maxPromptChars ==>
      |r| == SliceStop(maxPromptChars, |blocks|) + |TruncationMarker| &&
      StartsWith(blocks, r[..|r| - |TruncationMarker|]) && EndsWith(r, TruncationMarker)
    ensures maxPromptChars >= 0 ==> |r| <= maxPromptChars + |TruncationMarker|
  {
    if |blocks| > maxPromptChars then Prefix(blocks, maxPromptChars) + TruncationMarker else blocks
  }

  /** The text returned when the model gives nothing back. */
  function FallbackSummary(readmeBlock: string, docsBlock: string): (r: string)
    ensures StartsWith(r, "README: " + readmeBlock)
    ensures |r| <= |readmeBlock| + 21 + 800
  {
    var r := "README: " + readmeBlock + "\n\nROOT_DOCS: " + Prefix(docsBlock, 800);
    assert r[..8 + |readmeBlock|] == "README: " + readmeBlock;
    r
  }

  /** The end of generate_summary once the blocks are built: the model's
      text when it gives any, else the fallback preview. `ask` stands for
      filling the instruction template with the repository name and the
      context, then calling the model (None when it is unreachable). */
  function SummaryFrom(repoName: string, blocks: (string, string), maxPromptChars: int,
                       ask: (string, string) -> Option<string>): (summary: string)
    ensures summary != []
  {
    var context := Truncate(PromptBlocks(repoName, blocks.0, blocks.1), maxPromptChars);
    match ask(repoName, context)
    case Some(text) => if text != [] then text else FallbackSummary(blocks.0, blocks.1)
    case None => FallbackSummary(blocks.0, blocks.1)
  }

  /** generate_summary. `fetched` is the content gitingest returned, None
      when every attempt failed. */
  function GenerateSummary(fetched: Option<string>, repoName: string, maxFiles: int, maxChars: int,
                           maxPromptChars: int, ask: (string, string) -> Option<string>): (summary: string)
    ensures summary == [] <==> fetched.None? || fetched.value == []
  {
    if fetched.None? || fetched.value == [] then ""
    else SummaryFrom(repoName, ContextBlocks(fetched.value, maxFiles, maxChars), maxPromptChars, ask)
  }

  /** The summary is the model's answer to the truncated context when it is
      not empty, and otherwise the labelled preview of the two blocks. */
  lemma SummaryFromAnswer(repoName: string, blocks: (string, string), maxPromptChars: int,
                          ask: (string, string) -> Option<string>)
    ensures var answer := ask(repoName, Truncate(PromptBlocks(repoName, blocks.0, blocks.1), maxPromptChars));
      var summary := SummaryFrom(repoName, blocks, maxPromptChars, ask);
      (answer.Some? && answer.value != [] ==> summary == answer.value) &&
      (answer.None? || answer.value == [] ==>
        summary == FallbackSummary(blocks.0, blocks.1) && StartsWith(summary, "README: " + blocks.0))
  {
  }
}
