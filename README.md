# ragstar core, modelled in Dafny

ragstar finds GitHub repositories that match a natural-language query. It
searches a corpus of per-repository summaries. This project models the parts
of it that hold real logic:

- **Hybrid ranking** (`src/ragstar/search.py`, module `Search`):
  - tokenisation;
  - the simplified BM25 score;
  - the dense score `1 - d/2`;
  - normalisation of the BM25 score and the weighted fusion of the two;
  - the stable descending sort;
  - the cut to `num_results`;
  - the 200-character summary preview.
- **Section extraction** (`src/ragstar/summarizer.py`):
  - module `Headers`: `_clean_filename`, and the three header layouts of `_parse_file_sections`, each as its own line scanner;
  - module `Summarizer`: `extract_readme`, `extract_root_docs`, `build_context_blocks`, `_iter_ingest_attempts`, and the branches of `generate_summary`.
- **The older extractor** (top-level `summarizer.py`, module `LegacySummarizer`): `extract_key_sections` and the branching of its `generate_summary`.
- **Configuration helpers** (`src/ragstar/config.py`, module `Config`): the `_read_*` precedence rules, `_get_config_value` and `_derive_ollama_pull_url`. The environment and the YAML data are maps.
- Module `Text` holds the string helpers the others share. These are Python's `strip`, `lower`, slicing, `in` and `join`, the `\s` class over Python's whitespace characters, and the `\w` class over ASCII letters, digits and `_`.

The vector store, gitingest and the language model do not run here. Their answers are inputs:

- the corpus documents and the nearest-neighbour hits are sequences;
- the fetched content is an `Option<string>` (or a string that is empty on failure);
- the model call is a function from its prompt to `Option<string>`.

Each regular expression is modelled as a scanner that follows Python's backtracking order for that one pattern. Lazy groups, greedy runs that give characters back, alternatives tried in order, and leftmost-first search are each written out. A `Some` result means the pattern matches; `None` means it does not.

Loops of the source are methods with loop invariants. Each method is proved equal to a function that specifies it, and the properties are lemmas about those functions.

Two behaviours of the code are worth noting up front:

- `generate_summary` returns `""` when the fetch fails or returns nothing; there is no separate failure value;
- the BM25 score has no IDF term: each query token contributes only its saturated term frequency.

## Model

| member | source | states |
|---|---|---|
| Search.Tokenize | src/ragstar/search.py:12-13 | every token is a non-empty run of word characters with no upper-case letter |
| Search.WordRuns | src/ragstar/search.py:13 | every run found is a non-empty string of word characters, and none has an upper-case letter when the input has none |
| Search.WordRunsSplit | src/ragstar/search.py:13 | a non-word character separates tokens: the runs of `a + [c] + b` are the runs of `a` followed by those of `b` |
| Search.WordRunsOfToken | src/ragstar/search.py:13 | a string of word characters is a single run |
| Search.TokenizeSplit | src/ragstar/search.py:12-13 | tokenising splits at every whitespace or punctuation character, and no token spans one |
| Search.TokenizeWord | src/ragstar/search.py:12-13 | a maximal run of word characters is kept whole, as one lower-cased token |
| Search.TermWeightUnfold | src/ragstar/search.py:29-32 | when no division by zero occurs, a token's weight is `tf*(k1+1)/(tf + k1*(1-b+b*len/avg))` |
| Search.TermWeight | src/ragstar/search.py:29-32 | an average document length of 0 raises (division by zero); with k1 >= 0 and 0 <= b <= 1 each term's weight is at most k1 + 1 |
| Search.WeightSaturates | src/ragstar/search.py:29-32 | the BM25 term weight tf(k1+1)/(tf + k1(1-b+b·len/avg)) never exceeds k1 + 1 |
| Search.Contribution | src/ragstar/search.py:27-32 | a query token absent from the document adds 0; at average length 0 a token raises exactly when it occurs in the document |
| Search.Bm25 | src/ragstar/search.py:16-34 | the score computation raises exactly when some query token's term weight raises |
| Search.Bm25RaisesAtZeroAverage | src/ragstar/search.py:28-32 | with an average document length of 0 the score raises exactly when some query token occurs in the document |
| Search.Bm25FailurePersists | src/ragstar/search.py:27-32 | once one division raises, the whole score raises |
| Search.ComputeBm25Score | src/ragstar/search.py:16-34 | the accumulation loop computes the BM25 score of the query against the document, or the ZeroDivisionError |
| Search.TermWeightPositive | src/ragstar/search.py:29-32 | with `k1 >= 0`, `0 <= b <= 1`, a positive average and `tf > 0`, the weight exists and is positive |
| Search.Bm25NonNegative | src/ragstar/search.py:23-34 | with `k1 >= 0`, `0 <= b <= 1` and a positive average length, the score exists and is at least 0 |
| Search.Bm25NoMatch | src/ragstar/search.py:27-28 | a document sharing no token with the query scores exactly 0, whatever the parameters |
| Search.Bm25Append | src/ragstar/search.py:27-32 | the score of a concatenated query is the sum of the scores of its parts |
| Search.Bm25RepeatedTimes | src/ragstar/search.py:27-32 | a query of `n` copies of a token adds that token's weight `n` times |
| Search.Bm25Repeated | src/ragstar/search.py:27-32 | duplicate query tokens count multiple times: `n` copies score `n` times the weight |
| Search.Bm25Middle | src/ragstar/search.py:27-32 | a token in the middle of the query adds the same as a token at its end |
| Search.Bm25Permutation | src/ragstar/search.py:27-32 | the order of the query tokens does not change the score |
| Search.DenseScore | src/ragstar/search.py:64 | the dense score is unclamped; it lies in [0, 1] exactly when the distance lies in [0, 2] |
| Search.NormalizeBm25 | src/ragstar/search.py:67 | the normalised score lies in [0, 1]; it is 0 exactly when the raw score is <= 0, and 1 from 10 on |
| Search.NormalizeBm25Monotone | src/ragstar/search.py:67 | normalisation never reverses the order of two raw scores |
| Search.Round3 | src/ragstar/search.py:74-76 | `round(x, 3)` moves a score by at most half a thousandth |
| Search.Round3Monotone | src/ragstar/search.py:74-76 | rounding never reverses the order of two scores |
| Search.Round3Exact | src/ragstar/search.py:74-76 | a multiple of 1/1000 is left unchanged by rounding |
| Search.Round3UnitInterval | src/ragstar/search.py:74-76 | rounding keeps a score in [0, 1] inside [0, 1] |
| Search.FusedBound | src/ragstar/search.py:69 | with non-negative weights and both scores in [0, 1], the fused score lies between 0 and the sum of the weights |
| Search.ScoreHitUnfold | src/ragstar/search.py:60-78 | a hit's record stores the rounded fused, dense and normalised scores, its repository name and URL, and its document |
| Search.ScoreHit | src/ragstar/search.py:59-78 | scoring a hit succeeds whenever the average length is positive; at average 0 it raises exactly when a query token occurs in the hit's document |
| Search.ScoreHitBounds | src/ragstar/search.py:60-78 | a stored BM25 score lies in [0, 1]; the dense and fused scores are bounded when the distance lies in [0, 2]; the name, URL and summary are copied from the hit |
| Search.ScoreEach | src/ragstar/search.py:59-78 | one record, or one failure, per hit, in hit order |
| Search.ScoreHitsSpec | src/ragstar/search.py:58-78 | the result list exists exactly when no hit raises; it then holds one record per hit, in hit order |
| Search.ScoreHitsSnoc | src/ragstar/search.py:59-78 | scoring one more hit appends its record to the list |
| Search.ScoreCandidates | src/ragstar/search.py:58-78 | the scoring loop builds exactly that list, or reports the failure |
| Search.InsertSorted | src/ragstar/search.py:80 | inserting a record keeps the list ordered by non-increasing hybrid score |
| Search.Insert | src/ragstar/search.py:80 | inserting a record into a sorted list adds exactly that record: the result is a permutation of the list plus the record |
| Search.InsertStable | src/ragstar/search.py:80 | an inserted record goes after every earlier record with an equal score |
| Search.InsertStep | src/ragstar/search.py:80 | inserting the last record into the sorted rest sorts the whole list stably |
| Search.SortByScore | src/ragstar/search.py:80 | the sort is ordered by non-increasing hybrid score, is a permutation of its input, and keeps the input order among equal scores |
| Search.DisplaySummary | src/ragstar/search.py:84 | a summary of at most 200 characters is unchanged; a longer one becomes its first 200 characters followed by "..." |
| Search.ShowSummaries | src/ragstar/search.py:82-84 | only the summary of each kept record changes, by the display rule |
| Search.ShowSummariesStep | src/ragstar/search.py:82-84 | rewriting the summary at position i in place extends the rewritten prefix by one |
| Search.ShortenTop | src/ragstar/search.py:82-86 | the in-place summary loop over the first `num_results` records returns exactly those records with their summaries shortened |
| Search.SearchRepositories | src/ragstar/search.py:43-86 | the method computes the search function: the same records, or the same failure |
| Search.SearchShape | src/ragstar/search.py:46-86 | an empty corpus gives `[]`; otherwise `min(num_results, hits)` results, with Python's slice rule for a negative count, ordered by non-increasing hybrid score |
| Search.SearchIsRankedPrefix | src/ragstar/search.py:80-86 | the results are a prefix of the stable ranking of every scored hit, with only the summaries shortened |
| Search.TotalTokens | src/ragstar/search.py:50-51 | the token total is 0 exactly when every document tokenises to nothing |
| Search.AvgDocLength | src/ragstar/search.py:51 | the average document length is non-negative and is 0 exactly when the corpus has no tokens |
| Search.Search | src/ragstar/search.py:43-86 | an empty corpus gives `[]`; the search raises exactly when the corpus is non-empty, has no tokens at all, and some query token occurs in some hit's document |
| Search.SearchConsistentStoreSucceeds | src/ragstar/search.py:49-69 | when every hit is a corpus document, the search never divides by zero |
| Headers.DropAnnotationFrom | src/ragstar/summarizer.py:63 | scanning from p removes a suffix of at least p characters and keeps a prefix |
| Headers.DropAnnotation | src/ragstar/summarizer.py:63 | removing the annotation keeps a prefix of the name |
| Headers.DropAnnotationFromLeftmost | src/ragstar/summarizer.py:63 | the cut is at the leftmost position from p where `\s+\(.*\)$` matches; nothing is cut when it matches nowhere |
| Headers.DropAnnotationLeftmost | src/ragstar/summarizer.py:63 | the annotation removed starts at the leftmost match; nothing is removed when there is no match |
| Headers.AfterColon | src/ragstar/summarizer.py:64 | `\s*:\s*` after a label consumes at least the colon |
| Headers.LabelEnd | src/ragstar/summarizer.py:64 | a label is found only at a name starting with "file" or "path" in any case, and whitespace after the colon is consumed |
| Headers.DropLabel | src/ragstar/summarizer.py:64 | removing the label keeps a suffix; the name is unchanged exactly when no label matches |
| Headers.DropLeadingRule | src/ragstar/summarizer.py:65 | a leading rule is removed exactly when the name starts with `-` or `=`, together with the whitespace after it |
| Headers.DropTrailingRuleFrom | src/ragstar/summarizer.py:66 | scanning from p keeps a prefix of at least p characters |
| Headers.DropTrailingRule | src/ragstar/summarizer.py:66 | removing the trailing rule keeps a prefix of the name |
| Headers.DropTrailingRuleFromLeftmost | src/ragstar/summarizer.py:66 | the cut is at the leftmost position from p where `\s*[-=]+$` matches; nothing is cut when it matches nowhere |
| Headers.DropTrailingRuleLeftmost | src/ragstar/summarizer.py:66 | the trailing rule removed starts at the leftmost match |
| Headers.CleanFilename | src/ragstar/summarizer.py:61-67 | the cleaned name is no longer than the name and stays on one line |
| Headers.OneLineSteps | src/ragstar/summarizer.py:61-67 | each cleaning step keeps a one-line name on one line |
| Headers.PlainStrip | src/ragstar/summarizer.py:62 | stripping leaves a plain file name unchanged |
| Headers.PlainNoAnnotation | src/ragstar/summarizer.py:63 | a plain file name has no annotation to remove |
| Headers.PlainNoLabel | src/ragstar/summarizer.py:64 | a plain file name has no label to remove |
| Headers.PlainNoRules | src/ragstar/summarizer.py:65-66 | a plain file name has no leading or trailing rule to remove |
| Headers.CleanPlainName | src/ragstar/summarizer.py:61-67 | cleaning leaves a plain file name unchanged |
| Headers.LabelledStrip | src/ragstar/summarizer.py:62 | stripping leaves `FILE: name` unchanged |
| Headers.LabelledNoAnnotation | src/ragstar/summarizer.py:63 | `FILE: name` has no annotation to remove |
| Headers.LabelledLabel | src/ragstar/summarizer.py:64 | the label `FILE: ` is removed from `FILE: name` |
| Headers.CleanLabelledName | src/ragstar/summarizer.py:61-67 | cleaning `FILE: name` gives `name` |
| Headers.NameLine | src/ragstar/summarizer.py:74 | `([^\n]+)\n` captures a one-line name that ends at a newline |
| Headers.HashMarker | src/ragstar/summarizer.py:74 | `#{1,6}\s+` matches only a run of one to six hashes followed by whitespace |
| Headers.HashHeading | src/ragstar/summarizer.py:74 | a markdown heading yields a one-line name after its marker |
| Headers.LabelHeading | src/ragstar/summarizer.py:74 | a `file:`, `path:` or `filename:` line yields a one-line name |
| Headers.HeadingTail | src/ragstar/summarizer.py:74 | the heading form yields a one-line name |
| Headers.RuleLine | src/ragstar/summarizer.py:88 | `(?:=+\|-+)\n` ends just after a newline |
| Headers.FencedTail | src/ragstar/summarizer.py:88 | the form with a rule line above and below yields a one-line name |
| Headers.BannerClose | src/ragstar/summarizer.py:104 | the closing rule of a single-line banner consumes at least one character |
| Headers.LazyName | src/ragstar/summarizer.py:104 | a name captured lazily from b yields a well-formed header whose name starts at b |
| Headers.BannerName | src/ragstar/summarizer.py:104 | the banner name is a one-line capture after the opening rule |
| Headers.BannerOpen | src/ragstar/summarizer.py:104 | backtracking over the opening rule, one character at a time, yields only well-formed headers starting at the rule |
| Headers.BannerTail | src/ragstar/summarizer.py:104 | the single-line banner form yields a one-line name |
| Headers.FormTail | src/ragstar/summarizer.py:73-106 | every form yields a one-line name inside the match |
| Headers.MatchAt | src/ragstar/summarizer.py:74 | a match found at p starts at p and is well formed |
| Headers.MatcherOf | src/ragstar/summarizer.py:77 | a form's pattern, seen by finditer, is the match at each position of the content |
| Headers.FirstMatch | src/ragstar/summarizer.py:77 | the search from pos finds the leftmost position at or after pos where the pattern matches |
| Headers.FindAll | src/ragstar/summarizer.py:77 | finditer's matches are well formed, in order and do not overlap; each is a match of the pattern |
| Headers.FindAllCovers | src/ragstar/summarizer.py:77 | finditer misses no header: every position where the pattern matches lies inside a reported match |
| Headers.Matches | src/ragstar/summarizer.py:77 | the matches over the whole content are ordered and are matches of the form's pattern |
| Headers.MatchesCover | src/ragstar/summarizer.py:77 | every position where a form matches is covered by the reported matches |
| Headers.BodyEnd | src/ragstar/summarizer.py:81-82 | a body runs from the end of its header to the start of the next match, or to the end of the content |
| Headers.HeaderName | src/ragstar/summarizer.py:80 | the cleaned header name is on one line |
| Headers.SectionAt | src/ragstar/summarizer.py:80-84 | a section's body has no newline at either end |
| Headers.SectionsOf | src/ragstar/summarizer.py:79-84 | one section per match, in match order |
| Headers.Sections | src/ragstar/summarizer.py:70-116 | every section name is on one line |
| Headers.SliceOne | src/ragstar/summarizer.py:80-84 | one loop turn builds the section of the idx-th match |
| Headers.SliceSections | src/ragstar/summarizer.py:79-85 | the loop over one form's matches builds exactly its sections |
| Headers.ParseFileSections | src/ragstar/summarizer.py:70-116 | `_parse_file_sections` computes the specified sections |
| Headers.SlicesPartition | src/ragstar/summarizer.py:81-83 | headers and raw bodies, in order, rebuild the content from the first header to the end, with nothing lost or repeated |
| Headers.SectionsOfOneForm | src/ragstar/summarizer.py:77-116 | sections never mix forms: they are those of the first form, in the order heading, fenced, banner, that matches anything |
| Headers.HeaderGivesSections | src/ragstar/summarizer.py:77-116 | a header of any form anywhere in the content yields sections |
| Headers.SectionsNeedHeader | src/ragstar/summarizer.py:70-116 | sections come only from header matches |
| Headers.SectionsEmptyIff | src/ragstar/summarizer.py:70-116 | no sections exactly when no header of any form occurs anywhere |
| Summarizer.IngestAttempts | src/ragstar/summarizer.py:17-33 | exactly two attempts: the primary one with `max(1, mb) * 1048576` bytes and the stripped patterns (all files when blank), and the docs-only fallback with 1 MiB and the four doc globs |
| Summarizer.Basename | src/ragstar/summarizer.py:124 | the basename is no longer than the name |
| Summarizer.BasenameHasNoSeparator | src/ragstar/summarizer.py:124 | a basename holds no `/` and no `\` |
| Summarizer.BasenameOfPlainName | src/ragstar/summarizer.py:124 | a name without separators is its own basename, lowered |
| Summarizer.BasenameAfterDirectory | src/ragstar/summarizer.py:124 | leading directories do not change the basename |
| Summarizer.PreferredMentions | src/ragstar/summarizer.py:125-129 | a basename starting with "readme" also contains it |
| Summarizer.ReadmeText | src/ragstar/summarizer.py:126 | README text is at most 8000 characters and does not start with whitespace |
| Summarizer.FileMarker | src/ragstar/summarizer.py:133 | `FILE:\s+` consumes the label and at least one whitespace character |
| Summarizer.ReadmeTitle | src/ragstar/summarizer.py:133 | the inline README title ends with a newline right before the body |
| Summarizer.TitleAt | src/ragstar/summarizer.py:133 | a README title line (after an optional `#{1,6}\s+` or `FILE:\s+` prefix) ends in a line break, at least seven characters on |
| Summarizer.ReadmeBodyEnd | src/ragstar/summarizer.py:133 | the lazy body stops at the first heading, `FILE:` line or end of the content |
| Summarizer.InlineReadme | src/ragstar/summarizer.py:132-138 | the inline search succeeds exactly when the pattern matches at some position |
| Summarizer.ReadmeAt | src/ragstar/summarizer.py:133 | a match at a position gives the text from just after the title's line break to the body's end |
| Summarizer.InlineReadmeAt | src/ragstar/summarizer.py:132-133 | a match starts only at the start of the content or just after a line break (`(?:^|\n)`) |
| Summarizer.ReadmeFrom | src/ragstar/summarizer.py:122-139 | the chosen README text is at most 8000 characters |
| Summarizer.Readme | src/ragstar/summarizer.py:119-139 | `extract_readme` returns at most 8000 characters |
| Summarizer.FindNamedReadme | src/ragstar/summarizer.py:123-126 | the first loop finds the first section whose basename starts with "readme" |
| Summarizer.FindMentionedReadme | src/ragstar/summarizer.py:127-130 | the second loop finds the first section whose basename contains "readme" |
| Summarizer.PickReadme | src/ragstar/summarizer.py:122-139 | the two loops and the inline search make the specified choice |
| Summarizer.ExtractReadme | src/ragstar/summarizer.py:119-139 | the method computes `extract_readme` |
| Summarizer.ReadmePrefersNamedFile | src/ragstar/summarizer.py:123-130 | a section named like a README wins over earlier sections that only mention it, and over the inline block |
| Summarizer.ReadmeSectionsFirst | src/ragstar/summarizer.py:122-139 | the inline block is not consulted once a section name mentions README |
| Summarizer.ReadmeMissing | src/ragstar/summarizer.py:132-138 | with no README-like section and no inline block the result is `""` |
| Summarizer.Candidate | src/ragstar/summarizer.py:157-163 | a kept section is a root-level `.toml` or `.txt` file with its body unchanged |
| Summarizer.Candidates | src/ragstar/summarizer.py:157-163 | one filtering decision per section |
| Summarizer.RootCandidates | src/ragstar/summarizer.py:156-163 | filtering keeps at most as many sections as it is given |
| Summarizer.Previews | src/ragstar/summarizer.py:177-182 | every preview is non-empty and at most `max_chars` characters |
| Summarizer.FallbackNeedsHeading | src/ragstar/summarizer.py:164-166 | wherever the fallback pattern of `extract_root_docs` matches, `_parse_file_sections` has found sections, so the fallback branch never finds anything |
| Summarizer.FilterRootFiles | src/ragstar/summarizer.py:155-163 | the filtering loop keeps exactly the root-level `.toml`/`.txt` candidates, in order |
| Summarizer.PreviewFiles | src/ragstar/summarizer.py:177-182 | the preview loop builds exactly the specified previews |
| Summarizer.ExtractRootDocs | src/ragstar/summarizer.py:142-182 | the method computes `extract_root_docs` |
| Summarizer.RootDocsFrom | src/ragstar/summarizer.py:155-182 | no more previews than sections, and none when `max_files` is 0 |
| Summarizer.RootDocs | src/ragstar/summarizer.py:142-182 | content without file sections gives no root documents |
| Summarizer.RootCandidatesAppend | src/ragstar/summarizer.py:156-163 | filtering keeps the original order |
| Summarizer.RootCandidatesAreRootDocs | src/ragstar/summarizer.py:148-163 | every kept name has no `/` or `\` and ends in `.toml` or `.txt` in any case |
| Summarizer.PreviewsAppend | src/ragstar/summarizer.py:177-182 | previews keep the original order |
| Summarizer.PreviewNames | src/ragstar/summarizer.py:177-182 | previews keep only names they were given |
| Summarizer.RootDocsShape | src/ragstar/summarizer.py:155-182 | at most `max_files` documents, each a root-level `.toml`/`.txt` file with a non-empty preview of at most `max_chars` characters |
| Summarizer.DocChunk | src/ragstar/summarizer.py:196 | every chunk starts with "FILE: " |
| Summarizer.DocChunks | src/ragstar/summarizer.py:196 | one chunk per document, in order |
| Summarizer.BlocksLabelled | src/ragstar/summarizer.py:194-201 | placeholders stand in for a missing README or missing documents; otherwise the README text, or the first chunk, leads its block |
| Summarizer.BlocksOf | src/ragstar/summarizer.py:194-201 | both blocks are always non-empty: a placeholder stands in for a missing README or missing root documents |
| Summarizer.ContextBlocks | src/ragstar/summarizer.py:185-203 | the README block is the extracted README when there is one, otherwise the placeholder; the docs placeholder appears exactly when no root document is found |
| Summarizer.PromptBlocks | src/ragstar/summarizer.py:279-287 | the prompt context begins with the repository line and the README block and ends with the ROOT_DOCS block and a newline |
| Summarizer.Truncate | src/ragstar/summarizer.py:289-294 | a context within the limit is kept; a longer one becomes its first `max_prompt_chars` characters followed by the truncation marker |
| Summarizer.FallbackSummary | src/ragstar/summarizer.py:331-332 | the fallback starts with "README: " and the README block, and keeps at most 800 characters of the documents block |
| Summarizer.SummaryFrom | src/ragstar/summarizer.py:326-332 | once content is fetched, the summary is never empty |
| Summarizer.GenerateSummary | src/ragstar/summarizer.py:268-274 | the summary is `""` exactly when the fetch failed or returned empty content |
| Summarizer.SummaryFromAnswer | src/ragstar/summarizer.py:326-332 | a non-empty model answer is returned as it is; otherwise the labelled preview is returned |
| Config.DigitsValueOfNatDigits | src/ragstar/config.py:113 | the decimal digits of n denote n |
| Config.ParseIntOfIntToString | src/ragstar/config.py:113 | `int(str(n)) == n` for every integer |
| Config.SettingsShadowTopLevel | src/ragstar/config.py:75-78 | a key in the `settings` section hides the top-level key and the default |
| Config.GetConfigValue | src/ragstar/config.py:75-78 | the value is the default, the `settings` entry for the key, or the top-level entry for the key |
| Config.DefaultWhenAbsent | src/ragstar/config.py:75-78 | the result equals the default exactly when a mapping holds that value or neither mapping has the key |
| Config.ReadStr | src/ragstar/config.py:81-84 | a set environment variable wins |
| Config.ReadStrOfValue | src/ragstar/config.py:85-90 | without the variable, the result is `str()` of the value found, and None exactly when that value is null |
| Config.PyStr | src/ragstar/config.py:88-90 | `str()` of a string is that string, and `str()` is empty only for the empty string |
| Config.ReadRequiredStr | src/ragstar/config.py:93-100 | raises exactly when the value is missing or whitespace only, and otherwise returns it unchanged |
| Config.ReadInt | src/ragstar/config.py:110-113 | a set environment variable is parsed with `int()` |
| Config.ReadIntFromEnv | src/ragstar/config.py:110-113 | an environment value `str(n)` reads as n |
| Config.ReadIntFromConfig | src/ragstar/config.py:114-115 | without the variable, a YAML integer n, or the string `str(n)`, reads as n |
| Config.ToInt | src/ragstar/config.py:115 | `int()` of an integer is itself, of a boolean 1 or 0, of null or a list a TypeError, and a failed string conversion is a ValueError naming the string |
| Config.ParseInt | src/ragstar/config.py:113 | `int()` of a blank string fails, and every failure is a ValueError naming the text |
| Config.ReadIntDefault | src/ragstar/config.py:110-115 | with no environment variable, a null or absent value gives the default |
| Config.ReadBool | src/ragstar/config.py:118-121 | an environment value is true exactly when its stripped, lowered form is 1, true, yes or on |
| Config.ReadBoolOfValue | src/ragstar/config.py:122-127 | a boolean passes through, null gives the default, and anything else is judged by its `str()` |
| Config.Truthy | src/ragstar/config.py:121 | a truthy string, once stripped, has one to four characters |
| Config.ReadIncludePatterns | src/ragstar/config.py:130-139 | a set environment variable wins; otherwise a null value or a missing key gives the default |
| Config.IncludePatternsOfList | src/ragstar/config.py:134-139 | without the variable, a two-item list of patterns is joined with a comma |
| Config.DerivePullUrl | src/ragstar/config.py:103-107 | the pull URL always ends with "/api/pull" |
| Config.PullUrlOfGenerateUrl | src/ragstar/config.py:105-106 | a trailing "/api/generate" is replaced by "/api/pull", keeping the server prefix |
| Config.PullUrlIgnoresTrailingSlash | src/ragstar/config.py:104 | trailing slashes make no difference |
| Config.PullUrlAppends | src/ragstar/config.py:107 | any other URL keeps all but its trailing slashes and gains "/api/pull" |
| LegacySummarizer.ReadmeEnd | summarizer.py:33 | the lazy README body stops at the first `\n#+\s` or at the end of the content |
| LegacySummarizer.HeadingAtMeaning | summarizer.py:33 | the lookahead heading test is exactly the regex `#+\s`: a run of hashes followed by a whitespace character |
| LegacySummarizer.TitleStart | summarizer.py:33 | `README` is looked for after the optional `#+\s*` group, never before the attempt's position |
| LegacySummarizer.BodyStart | summarizer.py:33 | the body starts after "readme" in any case, an optional ".md" and the whole run of line breaks |
| LegacySummarizer.ReadmeAt | summarizer.py:33 | a match at q needs "readme", in any case, where the title must start |
| LegacySummarizer.ReadmeMatchAt | summarizer.py:33 | a README match starts only at the start of the content or just after a line break |
| LegacySummarizer.ReadmeAttempts | summarizer.py:33 | the match is attempted at every position of the content, in order |
| LegacySummarizer.ReadmeBlock | summarizer.py:33 | `re.search` finds a README block exactly when the pattern matches somewhere, and returns the leftmost match |
| LegacySummarizer.ConfigEnd | summarizer.py:40 | a config body stops at the first newline followed by an upper-case ASCII letter, or at the end |
| LegacySummarizer.ConfigAt | summarizer.py:40 | a config match at p needs the file name at p |
| LegacySummarizer.ConfigAttempts | summarizer.py:40 | the config match is attempted at every position, in order |
| LegacySummarizer.ConfigBlock | summarizer.py:40-45 | `re.search` finds a config block exactly when the pattern matches somewhere, and returns the leftmost match |
| LegacySummarizer.AppendConfig | summarizer.py:39-47 | one config step appends the capped, labelled block when the name occurs and the pattern matches |
| LegacySummarizer.ReadmeEntry | summarizer.py:33-36 | at most one README block, present exactly when the pattern matches, and labelled "README:\n" |
| LegacySummarizer.ConfigEntry | summarizer.py:39-47 | a config step adds at most one block, only when the pattern matches: "Project Config:\n" and at most 2000 characters of body |
| LegacySummarizer.KeyBlocks | summarizer.py:30-47 | empty content gives no blocks; every block is a README block or a capped config block |
| LegacySummarizer.KeySections | summarizer.py:25-53 | the key sections are empty exactly when the content is |
| LegacySummarizer.ExtractKeySections | summarizer.py:25-53 | the conditional appends and the join compute the key sections |
| LegacySummarizer.ConfigBlockNeedsName | summarizer.py:39-47 | a config block is only found where its file name occurs, so the `in content` guard never hides a match |
| LegacySummarizer.ReadmeBlockNeedsWord | summarizer.py:33-36 | a README block is only found where "readme" occurs in some letter case |
| LegacySummarizer.KeyBlocksShape | summarizer.py:32-47 | at most three blocks; the README block comes first exactly when one is found; every other block is a capped config block |
| LegacySummarizer.KeyBlocksOrder | summarizer.py:38-47 | one block per pattern that matches; the package.json block sits right after the README block and the pyproject.toml block comes last, each labelled and holding the first 2000 characters of its own file's body |
| LegacySummarizer.KeySectionsReadmeThenConfig | summarizer.py:32-53 | with a README block and a config block, the key sections open with the README block, a blank line, then "Project Config:\n" |
| LegacySummarizer.ConfigNotReadme | summarizer.py:36-47 | a config block never looks like the README block |
| LegacySummarizer.KeySectionsFallback | summarizer.py:50-53 | with no block found, the result is exactly `content[:1500]` |
| LegacySummarizer.PlainContentFallback | summarizer.py:33-51 | content that mentions neither "readme" nor either file name gives exactly `content[:1500]` |
| LegacySummarizer.KeySectionsLeadWithReadme | summarizer.py:34-53 | a README block, when found, opens the joined sections |
| LegacySummarizer.Prompt | summarizer.py:111-117 | the prompt ends with the key sections followed by "\n\nSummary:" |
| LegacySummarizer.GenerateSummary | summarizer.py:87-127 | the summary is never empty; empty content gives "Could not fetch " and the name |
| LegacySummarizer.SummaryOutcomes | summarizer.py:103-127 | empty content gives "Could not fetch {repo_name}"; a non-empty answer is returned as is; otherwise the result is exactly the name, a blank line, then the key sections |

## Left out

- Network, store and file-system calls are not modelled. These are gitingest, the Ollama HTTP calls, chromadb, YAML loading and the module-level `settings` object. Their results are parameters.
- Printing and logging are not modelled.
- Search.Round3: scores are exact reals, so IEEE binary floating point is not modelled. `round(x, 3)` is round-half-even on the exact value. Ties in the sort are decided on the stored, rounded score, as in the source.
- Search.ScoreHitBounds: the bounds on the stored fused score allow for rounding. They say nothing about floating-point error.
- Headers.CleanFilename: requires a name without a newline. Every caller passes a `[^\n]+` capture, so only one-line names occur. On such names the `$` anchors match only at the end.
- Summarizer.RootDocs: the regex fallback of `extract_root_docs` (src/ragstar/summarizer.py:164-173) is left out of the definition, because Summarizer.FallbackNeedsHeading proves it can never find anything.
- Summarizer.SummaryFrom: the instruction template is not spelled out. The model call receives the repository name and the truncated context, which determine the template.
- Search.Tokenize: `\w` is modelled on ASCII letters, digits and `_`. Python's `\w` on `str` is Unicode-aware, so a word such as `café` or `日本` is one token in the source but is split or dropped here.
- Case-insensitive matching and `lower()` cover ASCII letters only. Python also folds other letters, for example `ı` to `i` under `re.IGNORECASE`.
- Config.ReadInt: `int()` is modelled on ASCII digits with an optional sign, surrounding whitespace and single underscores between digits. Other Unicode decimal digits are not accepted, and floats and other YAML types are not read.
- Config.PyStr: `str()` of a list writes string items in single quotes without escaping quotes or backslashes inside them. YAML floats, dates, mappings, tuples and sets are not values of the model.
- Config.IncludePatternsOfList: stated for a two-item list; the general join is the function's definition.
- Summarizer.GenerateSummary and LegacySummarizer.GenerateSummary: the fetch and the model answer are inputs.
- `get_repo_content` is not modelled, so its retry over the two attempts is not either.
- `call_ollama`'s `.strip()` of the answer belongs to the model call, which is an input.
- `get_summary_by_name` and `list_all_summaries` are store lookups and are not part of this model.
