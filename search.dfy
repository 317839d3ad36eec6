/** Hybrid retrieval (src/ragstar/search.py): tokenisation, the simplified
    BM25 score, fusion with the dense score, the stable descending sort and
    the truncation of displayed summaries. The vector store is replaced by
    what it answers: the documents of the whole corpus, and the
    nearest-neighbour hits (distance, metadata, document) in the store's
    order. */
module Search {
  import opened Text

  // ---------------------------------------------------------------------
  // Tokenisation

  /** A token: a non-empty run of word characters. */
  predicate IsToken(t: string) {
    t != [] && forall c <- t :: IsWordChar(c)
  }

  predicate NoUpper(t: string) {
    forall c <- t :: !IsAsciiUpper(c)
  }

  /** The maximal runs of word characters of `s`, left to right. */
  function WordRuns(s: string): (runs: seq<string>)
    ensures forall t <- runs :: IsToken(t)
    ensures NoUpper(s) ==> forall t <- runs :: NoUpper(t)
    decreases |s|
  {
    if s == [] then []
    else if !IsWordChar(s[0]) then WordRuns(s[1..])
    else
      var n := SpanFrom(s, 0, IsWordChar);
      [s[..n]] + WordRuns(s[n..])
  }

  /** `re.findall(r"\b\w+\b", text.lower())`. */
  function Tokenize(text: string): (tokens: seq<string>)
    ensures forall t <- tokens :: IsToken(t) && NoUpper(t)
  {
    WordRuns(Lower(text))
  }

  /** A non-word character separates tokens: what lies on either side of it is
      tokenised independently. */
  lemma {:induction false} WordRunsSplit(a: string, c: char, b: string)
    requires !IsWordChar(c)
    ensures WordRuns(a + [c] + b) == WordRuns(a) + WordRuns(b)
    decreases |a|
  {
    var s := a + [c] + b;
    if a == [] {
      assert s[1..] == b;
    } else if !IsWordChar(a[0]) {
      assert s[1..] == a[1..] + [c] + b;
      WordRunsSplit(a[1..], c, b);
    } else {
      var n := SpanFrom(a, 0, IsWordChar);
      assert SpanFrom(s, 0, IsWordChar) == n by {
        SpanFromIs(s, 0, IsWordChar, n);
      }
      assert s[..n] == a[..n];
      var rest := WordRuns(a[n..]) + WordRuns(b);
      assert WordRuns(s[n..]) == rest by {
        if n == |a| {
          assert s[n..] == [c] + b;
          assert ([c] + b)[1..] == b;
          assert a[n..] == [];
        } else {
          assert s[n..] == a[n..] + [c] + b;
          WordRunsSplit(a[n..], c, b);
        }
      }
      assert WordRuns(s) == [a[..n]] + rest;
      AppendAssoc([a[..n]], WordRuns(a[n..]), WordRuns(b));
    }
  }

  /** A run of word characters on its own is a single token. */
  lemma WordRunsOfToken(w: string)
    requires IsToken(w)
    ensures WordRuns(w) == [w]
  {
    assert w[0] in w;
    SpanFromIs(w, 0, IsWordChar, |w|);
    assert w[..|w|] == w && w[|w|..] == [];
  }

  /** Tokenize splits at every non-word character (whitespace, punctuation)... */
  lemma TokenizeSplit(a: string, c: char, b: string)
    requires !IsWordChar(c)
    ensures Tokenize(a + [c] + b) == Tokenize(a) + Tokenize(b)
  {
    LowerAppend(a + [c], b);
    LowerAppend(a, [c]);
    assert Lower([c]) == [LowerChar(c)];
    assert Lower(a + [c] + b) == Lower(a) + [LowerChar(c)] + Lower(b);
    WordRunsSplit(Lower(a), LowerChar(c), Lower(b));
  }

  /** ... and keeps every maximal run of word characters whole, lower-cased. */
  lemma TokenizeWord(w: string)
    requires IsToken(w)
    ensures Tokenize(w) == [Lower(w)]
  {
    WordRunsOfToken(Lower(w));
  }

  // ---------------------------------------------------------------------
  // Simplified BM25 (no inverse document frequency)

  /** Default BM25 parameters of compute_bm25_score. */
  const K1: real := 1.5
  const B: real := 0.75

  /** What one query token with frequency `tf` in the document adds.
      None stands for Python's ZeroDivisionError (an average length of 0, or
      a denominator of 0 for unusual k1 and b). */
  function TermWeight(tf: nat, docLength: nat, avgDocLength: real, k1: real, b: real): (r: Option<real>)
    ensures avgDocLength == 0.0 ==> r.None?
    ensures k1 >= 0.0 && 0.0 <= b <= 1.0 && avgDocLength > 0.0 && r.Some? ==> r.value <= k1 + 1.0
  {
    if avgDocLength == 0.0 then None
    else
      var numerator := tf as real * (k1 + 1.0);
      var denominator := Denominator(tf, docLength, avgDocLength, k1, b);
      if denominator == 0.0 then None
      else
        WeightSaturates(tf, docLength, avgDocLength, k1, b);
        Some(numerator / denominator)
  }

  /** The BM25 length normalisation `tf + k1 * (1 - b + b * len / avg)`. */
  function Denominator(tf: nat, docLength: nat, avgDocLength: real, k1: real, b: real): real
    requires avgDocLength != 0.0
  {
    tf as real + k1 * (1.0 - b + b * (docLength as real / avgDocLength))
  }

  /** However often a token occurs, its weight stays at most k1 + 1. */
  lemma WeightSaturates(tf: nat, docLength: nat, avgDocLength: real, k1: real, b: real)
    requires avgDocLength != 0.0 && Denominator(tf, docLength, avgDocLength, k1, b) != 0.0
    ensures k1 >= 0.0 && 0.0 <= b <= 1.0 && avgDocLength > 0.0 ==>
      tf as real * (k1 + 1.0) / Denominator(tf, docLength, avgDocLength, k1, b) <= k1 + 1.0
  {
    if k1 >= 0.0 && 0.0 <= b <= 1.0 && avgDocLength > 0.0 {
      var ratio := docLength as real / avgDocLength;
      assert ratio >= 0.0;
      assert b * ratio >= 0.0;
      var inner := 1.0 - b + b * ratio;
      assert k1 * inner >= 0.0;
      QuotientAtMost(tf as real * (k1 + 1.0), Denominator(tf, docLength, avgDocLength, k1, b),
                     tf as real, k1 * inner, k1 + 1.0);
    }
  }

  lemma QuotientAtMost(numerator: real, denominator: real, t: real, slack: real, c: real)
    requires numerator == t * c && denominator == t + slack
    requires t >= 0.0 && slack >= 0.0 && denominator != 0.0 && c > 0.0
    ensures numerator / denominator <= c
  {
    var d := denominator;
    var q := numerator / d;
    assert q * d == t * c;
    assert c * d - q * d == c * slack;
    assert (c - q) * d == c * slack;
    assert c * slack >= 0.0;
    assert d > 0.0;
  }

  lemma TermWeightUnfold(tf: nat, docLength: nat, avgDocLength: real, k1: real, b: real)
    requires avgDocLength != 0.0
    requires tf as real + k1 * (1.0 - b + b * (docLength as real / avgDocLength)) != 0.0
    ensures TermWeight(tf, docLength, avgDocLength, k1, b)
         == Some(tf as real * (k1 + 1.0) / (tf as real + k1 * (1.0 - b + b * (docLength as real / avgDocLength))))
  {
  }

  /** One step of the accumulation: the score of a longer prefix adds the
      contribution of the next token. */
  lemma Bm25Step(query: seq<string>, i: nat, doc: seq<string>, avgDocLength: real, k1: real, b: real)
    requires i < |query|
    ensures Bm25(query[..i + 1], doc, avgDocLength, k1, b)
         == AddScores(Bm25(query[..i], doc, avgDocLength, k1, b), Contribution(query[i], doc, avgDocLength, k1, b))
  {
    assert query[..i + 1][..i] == query[..i];
  }

  /** The contribution of one query token: nothing unless it occurs in the
      document (Counter(doc_tokens) lookup). */
  function Contribution(token: string, doc: seq<string>, avgDocLength: real, k1: real, b: real): (r: Option<real>)
    ensures token !in doc ==> r == Some(0.0)
    ensures avgDocLength == 0.0 ==> (r.None? <==> token in doc)
  {
    var tf := multiset(doc)[token];
    if tf == 0 then Some(0.0) else TermWeight(tf, |doc|, avgDocLength, k1, b)
  }

  /** Addition of scores where a raised exception (None) propagates. */
  function AddScores(x: Option<real>, y: Option<real>): Option<real> {
    if x.Some? && y.Some? then Some(x.value + y.value) else None
  }

  /** The score as compute_bm25_score accumulates it, token by token. */
  function Bm25(query: seq<string>, doc: seq<string>, avgDocLength: real, k1: real, b: real): (r: Option<real>)
    ensures r.None? <==> exists i :: 0 <= i < |query| && Contribution(query[i], doc, avgDocLength, k1, b).None?
    decreases |query|
  {
    if query == [] then Some(0.0)
    else
      var front := query[..|query| - 1];
      assert forall i :: 0 <= i < |front| ==> front[i] == query[i];
      AddScores(Bm25(front, doc, avgDocLength, k1, b),
                Contribution(query[|query| - 1], doc, avgDocLength, k1, b))
  }

  /** With an average length of 0 (a corpus without tokens) the score
      raises exactly when some query token occurs in the document. */
  lemma Bm25RaisesAtZeroAverage(query: seq<string>, doc: seq<string>, k1: real, b: real)
    ensures Bm25(query, doc, 0.0, k1, b).None? <==> exists i :: 0 <= i < |query| && query[i] in doc
  {
    if Bm25(query, doc, 0.0, k1, b).None? {
      var i :| 0 <= i < |query| && Contribution(query[i], doc, 0.0, k1, b).None?;
      assert query[i] in doc;
    } else {
      forall i | 0 <= i < |query| ensures query[i] !in doc {
        assert Contribution(query[i], doc, 0.0, k1, b).Some?;
      }
    }
  }

  /** Once a prefix of the query raises, the whole loop raises. */
  lemma {:induction false} Bm25FailurePersists(query: seq<string>, doc: seq<string>, avgDocLength: real, k1: real, b: real, i: nat)
    requires i <= |query|
    requires Bm25(query[..i], doc, avgDocLength, k1, b).None?
    ensures Bm25(query, doc, avgDocLength, k1, b).None?
    decreases |query| - i
  {
    if i < |query| {
      assert query[..i + 1][..i] == query[..i];
      Bm25FailurePersists(query, doc, avgDocLength, k1, b, i + 1);
    } else {
      assert query[..i] == query;
    }
  }

  /** compute_bm25_score. */
  method ComputeBm25Score(queryTokens: seq<string>, docTokens: seq<string>, avgDocLength: real, k1: real, b: real)
    returns (score: Option<real>)
    ensures score == Bm25(queryTokens, docTokens, avgDocLength, k1, b)
  {
    var docLength := |docTokens|;
    var docTermFreq := multiset(docTokens);
    var total := 0.0;
    for i := 0 to |queryTokens|
      invariant Bm25(queryTokens[..i], docTokens, avgDocLength, k1, b) == Some(total)
    {
      var token := queryTokens[i];
      Bm25Step(queryTokens, i, docTokens, avgDocLength, k1, b);
      ghost var step := Contribution(token, docTokens, avgDocLength, k1, b);
      if token in docTermFreq {
        var tf := docTermFreq[token];
        if avgDocLength == 0.0 {
          assert step.None?;
          Bm25FailurePersists(queryTokens, docTokens, avgDocLength, k1, b, i + 1);
          return None;
        }
        var numerator := tf as real * (k1 + 1.0);
        var denominator := tf as real + k1 * (1.0 - b + b * (docLength as real / avgDocLength));
        if denominator == 0.0 {
          assert step.None?;
          Bm25FailurePersists(queryTokens, docTokens, avgDocLength, k1, b, i + 1);
          return None;
        }
        var weight := numerator / denominator;
        assert step == Some(weight) by {
          TermWeightUnfold(tf, docLength, avgDocLength, k1, b);
        }
        total := total + weight;
      } else {
        assert step == Some(0.0);
      }
    }
    assert queryTokens[..|queryTokens|] == queryTokens;
    score := Some(total);
  }

  lemma TermWeightPositive(tf: nat, docLength: nat, avgDocLength: real, k1: real, b: real)
    requires tf > 0 && k1 >= 0.0 && 0.0 <= b <= 1.0 && avgDocLength > 0.0
    ensures TermWeight(tf, docLength, avgDocLength, k1, b).Some?
    ensures TermWeight(tf, docLength, avgDocLength, k1, b).value > 0.0
  {
    var ratio := docLength as real / avgDocLength;
    assert ratio >= 0.0;
    assert b * ratio >= 0.0;
    var inner := 1.0 - b + b * ratio;
    assert inner >= 0.0;
    assert k1 * inner >= 0.0;
    var denominator := tf as real + k1 * inner;
    assert denominator >= 1.0;
    var numerator := tf as real * (k1 + 1.0);
    assert numerator > 0.0;
    assert numerator / denominator > 0.0;
  }

  /** With k1 >= 0, 0 <= b <= 1 and a positive average length the score
      exists and is never negative. */
  lemma {:induction false} Bm25NonNegative(query: seq<string>, doc: seq<string>, avgDocLength: real, k1: real, b: real)
    requires k1 >= 0.0 && 0.0 <= b <= 1.0 && avgDocLength > 0.0
    ensures Bm25(query, doc, avgDocLength, k1, b).Some?
    ensures Bm25(query, doc, avgDocLength, k1, b).value >= 0.0
    decreases |query|
  {
    if query != [] {
      Bm25NonNegative(query[..|query| - 1], doc, avgDocLength, k1, b);
      var token := query[|query| - 1];
      if multiset(doc)[token] > 0 {
        TermWeightPositive(multiset(doc)[token], |doc|, avgDocLength, k1, b);
      }
    }
  }

  /** A document sharing no token with the query scores exactly 0, for any
      parameters (no division is reached). */
  lemma {:induction false} Bm25NoMatch(query: seq<string>, doc: seq<string>, avgDocLength: real, k1: real, b: real)
    requires forall t <- query :: t !in doc
    ensures Bm25(query, doc, avgDocLength, k1, b) == Some(0.0)
    decreases |query|
  {
    if query != [] {
      assert query[|query| - 1] in query;
      Bm25NoMatch(query[..|query| - 1], doc, avgDocLength, k1, b);
    }
  }

  /** The score of a concatenated query is the sum of the scores of its parts. */
  lemma {:induction false} Bm25Append(q1: seq<string>, q2: seq<string>, doc: seq<string>, avgDocLength: real, k1: real, b: real)
    ensures Bm25(q1 + q2, doc, avgDocLength, k1, b)
         == AddScores(Bm25(q1, doc, avgDocLength, k1, b), Bm25(q2, doc, avgDocLength, k1, b))
    decreases |q2|
  {
    if q2 == [] {
      assert q1 + q2 == q1;
    } else {
      var q2' := q2[..|q2| - 1];
      assert (q1 + q2)[..|q1 + q2| - 1] == q1 + q2';
      assert (q1 + q2)[|q1 + q2| - 1] == q2[|q2| - 1];
      Bm25Append(q1, q2', doc, avgDocLength, k1, b);
    }
  }

  /** `n` copies of `token`. */
  function Repeat(token: string, n: nat): (q: seq<string>)
    ensures |q| == n && forall i :: 0 <= i < n ==> q[i] == token
  {
    seq(n, _ => token)
  }

  /** Appending a token adds its contribution. */
  lemma Bm25Snoc(query: seq<string>, token: string, doc: seq<string>, avgDocLength: real, k1: real, b: real)
    ensures Bm25(query + [token], doc, avgDocLength, k1, b)
         == AddScores(Bm25(query, doc, avgDocLength, k1, b), Contribution(token, doc, avgDocLength, k1, b))
  {
    assert (query + [token])[..|query|] == query;
  }

  /** `count` copies of `w` added up. */
  function Times(count: nat, w: real): real {
    count as real * w
  }

  lemma TimesSucc(count: nat, w: real)
    ensures Times(count + 1, w) == Times(count, w) + w
  {
  }

  lemma {:induction false} Bm25RepeatedTimes(token: string, n: nat, doc: seq<string>, avgDocLength: real, k1: real, b: real)
    requires Contribution(token, doc, avgDocLength, k1, b).Some?
    ensures Bm25(Repeat(token, n), doc, avgDocLength, k1, b)
         == Some(Times(n, Contribution(token, doc, avgDocLength, k1, b).value))
    decreases n
  {
    var c := Contribution(token, doc, avgDocLength, k1, b);
    if n == 0 {
      assert Repeat(token, n) == [];
    } else {
      var m := n - 1;
      assert Repeat(token, n) == Repeat(token, m) + [token];
      Bm25RepeatedTimes(token, m, doc, avgDocLength, k1, b);
      Bm25Snoc(Repeat(token, m), token, doc, avgDocLength, k1, b);
      TimesSucc(m, c.value);
    }
  }

  /** A token repeated n times in the query adds its term n times. */
  lemma Bm25Repeated(token: string, n: nat, doc: seq<string>, avgDocLength: real, k1: real, b: real)
    requires Contribution(token, doc, avgDocLength, k1, b).Some?
    ensures Bm25(Repeat(token, n), doc, avgDocLength, k1, b)
         == Some(n as real * Contribution(token, doc, avgDocLength, k1, b).value)
  {
    Bm25RepeatedTimes(token, n, doc, avgDocLength, k1, b);
  }

  lemma AddScoresSwap(x: Option<real>, y: Option<real>, z: Option<real>)
    ensures AddScores(AddScores(x, y), z) == AddScores(AddScores(x, z), y)
  {
  }

  /** A token in the middle of the query adds the same as at its end. */
  lemma Bm25Middle(left: seq<string>, token: string, right: seq<string>, doc: seq<string>, avgDocLength: real, k1: real, b: real)
    ensures Bm25(left + [token] + right, doc, avgDocLength, k1, b)
         == AddScores(Bm25(left + right, doc, avgDocLength, k1, b), Contribution(token, doc, avgDocLength, k1, b))
  {
    var L := Bm25(left, doc, avgDocLength, k1, b);
    var R := Bm25(right, doc, avgDocLength, k1, b);
    var C := Contribution(token, doc, avgDocLength, k1, b);
    Bm25Append(left, right, doc, avgDocLength, k1, b);
    Bm25Append(left + [token], right, doc, avgDocLength, k1, b);
    Bm25Snoc(left, token, doc, avgDocLength, k1, b);
    AddScoresSwap(L, C, R);
  }

  /** Splits `q2` around an occurrence of the last element of `q1`; what is
      left on both sides has the same elements. */
  lemma RemoveMatch<T>(q1: seq<T>, q2: seq<T>) returns (left: seq<T>, right: seq<T>)
    requires q1 != [] && multiset(q1) == multiset(q2)
    ensures q2 == left + [q1[|q1| - 1]] + right
    ensures multiset(q1[..|q1| - 1]) == multiset(left + right)
  {
    var n := |q1| - 1;
    var t := q1[n];
    RemoveAt(q1, n);
    assert t in multiset(q2);
    var j :| 0 <= j < |q2| && q2[j] == t;
    RemoveAt(q2, j);
    left, right := q2[..j], q2[j + 1..];
  }

  /** Removing the element at `j` removes one occurrence from the multiset. */
  lemma RemoveAt<T>(q: seq<T>, j: nat)
    requires j < |q|
    ensures q == q[..j] + [q[j]] + q[j + 1..]
    ensures multiset(q[..j] + q[j + 1..]) == multiset(q) - multiset{q[j]}
  {
    assert q == q[..j] + [q[j]] + q[j + 1..];
    assert multiset(q) == multiset(q[..j]) + multiset{q[j]} + multiset(q[j + 1..]);
    assert multiset(q[..j] + q[j + 1..]) == multiset(q[..j]) + multiset(q[j + 1..]);
  }

  /** The order of the query tokens does not matter: only how often each occurs. */
  lemma {:induction false} Bm25Permutation(q1: seq<string>, q2: seq<string>, doc: seq<string>, avgDocLength: real, k1: real, b: real)
    requires multiset(q1) == multiset(q2)
    ensures Bm25(q1, doc, avgDocLength, k1, b) == Bm25(q2, doc, avgDocLength, k1, b)
    decreases |q1|
  {
    if q1 == [] {
      assert |q2| == |multiset(q2)| == 0;
    } else {
      var n := |q1| - 1;
      var t := q1[n];
      var left, right := RemoveMatch(q1, q2);
      Bm25Permutation(q1[..n], left + right, doc, avgDocLength, k1, b);
      Bm25Snoc(q1[..n], t, doc, avgDocLength, k1, b);
      Bm25Middle(left, t, right, doc, avgDocLength, k1, b);
    }
  }

  // ---------------------------------------------------------------------
  // Score normalisation and fusion

  /** The dense score `1 - distance/2`, unclamped: it lies in [0, 1] exactly
      when the distance is a cosine distance in [0, 2]. */
  function DenseScore(distance: real): (score: real)
    ensures 0.0 <= score <= 1.0 <==> 0.0 <= distance <= 2.0
    ensures distance == 0.0 ==> score == 1.0
    ensures distance == 1.0 ==> score == 0.5
    ensures distance == 2.0 ==> score == 0.0
  {
    1.0 - distance / 2.0
  }

  /** The BM25 score divided by 10 and capped at 1; 0 when not positive. */
  function NormalizeBm25(raw: real): (score: real)
    ensures 0.0 <= score <= 1.0
    ensures score == 0.0 <==> raw <= 0.0
    ensures raw >= 10.0 ==> score == 1.0
  {
    if raw > 0.0 then (if raw / 10.0 < 1.0 then raw / 10.0 else 1.0) else 0.0
  }

  lemma NormalizeBm25Monotone(x: real, y: real)
    requires x <= y
    ensures NormalizeBm25(x) <= NormalizeBm25(y)
  {
  }

  /** Python's round(x, 3) on an exact real: the nearest multiple of 1/1000,
      halves going to the even neighbour. */
  function Round3(x: real): (r: real)
    ensures x - 1.0 / 2000.0 <= r <= x + 1.0 / 2000.0
  {
    var y := x * 1000.0;
    var f := y.Floor;
    var frac := y - f as real;
    var n := if frac < 0.5 then f else if frac > 0.5 then f + 1 else if f % 2 == 0 then f else f + 1;
    n as real / 1000.0
  }

  /** Rounding never reverses the order of two scores. */
  lemma Round3Monotone(x: real, y: real)
    requires x <= y
    ensures Round3(x) <= Round3(y)
  {
    var fx, fy := (x * 1000.0).Floor, (y * 1000.0).Floor;
    assert x * 1000.0 <= y * 1000.0;
    assert fx <= fy;
  }

  /** A multiple of 1/1000 is left unchanged. */
  lemma Round3Exact(k: int)
    ensures Round3(k as real / 1000.0) == k as real / 1000.0
  {
    assert (k as real / 1000.0) * 1000.0 == k as real;
  }

  /** Rounding keeps a score that lies in [0, 1] in [0, 1]. */
  lemma Round3UnitInterval(x: real)
    requires 0.0 <= x <= 1.0
    ensures 0.0 <= Round3(x) <= 1.0
  {
    Round3Monotone(0.0, x);
    Round3Monotone(x, 1.0);
    Round3Exact(0);
    Round3Exact(1000);
  }

  // ---------------------------------------------------------------------
  // Candidates

  datatype Metadata = Metadata(repoName: string, repoUrl: string)

  /** One answer of the nearest-neighbour query. */
  datatype Hit = Hit(distance: real, metadata: Metadata, document: string)

  /** The record search_repositories returns for a candidate. */
  datatype SearchResult = SearchResult(
    repoName: string,
    repoUrl: string,
    hybridScore: real,
    denseScore: real,
    bm25Score: real,
    summary: string)

  /** The weighted sum of the dense and the normalised BM25 score. */
  function Fuse(denseWeight: real, dense: real, bm25Weight: real, normalized: real): real {
    denseWeight * dense + bm25Weight * normalized
  }

  /** With the default parameters, the score raises only for an average
      length of 0, and then exactly when a query token is in the document. */
  lemma Bm25RaisesWithDefaults(queryTokens: seq<string>, doc: seq<string>, avgDocLength: real)
    ensures avgDocLength > 0.0 ==> Bm25(queryTokens, doc, avgDocLength, K1, B).Some?
    ensures avgDocLength == 0.0 ==>
      (Bm25(queryTokens, doc, avgDocLength, K1, B).None? <==> exists i :: 0 <= i < |queryTokens| && queryTokens[i] in doc)
  {
    if avgDocLength > 0.0 {
      Bm25NonNegative(queryTokens, doc, avgDocLength, K1, B);
    } else if avgDocLength == 0.0 {
      Bm25RaisesAtZeroAverage(queryTokens, doc, K1, B);
    }
  }

  /** The record built for one hit, before sorting; None when BM25 raises. */
  function ScoreHit(hit: Hit, queryTokens: seq<string>, avgDocLength: real, denseWeight: real, bm25Weight: real)
    : (r: Option<SearchResult>)
    ensures avgDocLength > 0.0 ==> r.Some?
    ensures avgDocLength == 0.0 ==>
      (r.None? <==> exists i :: 0 <= i < |queryTokens| && queryTokens[i] in Tokenize(hit.document))
  {
    Bm25RaisesWithDefaults(queryTokens, Tokenize(hit.document), avgDocLength);
    var dense := DenseScore(hit.distance);
    match Bm25(queryTokens, Tokenize(hit.document), avgDocLength, K1, B)
    case None => None
    case Some(raw) =>
      var normalized := NormalizeBm25(raw);
      Some(SearchResult(hit.metadata.repoName, hit.metadata.repoUrl,
                        Round3(Fuse(denseWeight, dense, bm25Weight, normalized)),
                        Round3(dense), Round3(normalized), hit.document))
  }

  lemma ScaledUnitBound(weight: real, x: real)
    requires weight >= 0.0 && 0.0 <= x <= 1.0
    ensures 0.0 <= weight * x <= weight
  {
    assert weight * (1.0 - x) >= 0.0;
  }

  lemma FusedBound(denseWeight: real, dense: real, bm25Weight: real, normalized: real)
    requires denseWeight >= 0.0 && 0.0 <= dense <= 1.0
    requires bm25Weight >= 0.0 && 0.0 <= normalized <= 1.0
    ensures 0.0 <= Fuse(denseWeight, dense, bm25Weight, normalized) <= denseWeight + bm25Weight
  {
    ScaledUnitBound(denseWeight, dense);
    ScaledUnitBound(bm25Weight, normalized);
    var x, y := denseWeight * dense, bm25Weight * normalized;
    assert 0.0 <= x <= denseWeight && 0.0 <= y <= bm25Weight;
    assert Fuse(denseWeight, dense, bm25Weight, normalized) == x + y;
  }

  /** The record built for a hit whose BM25 score is `raw`. */
  lemma ScoreHitUnfold(hit: Hit, queryTokens: seq<string>, avgDocLength: real, denseWeight: real, bm25Weight: real, raw: real)
    requires Bm25(queryTokens, Tokenize(hit.document), avgDocLength, K1, B) == Some(raw)
    ensures ScoreHit(hit, queryTokens, avgDocLength, denseWeight, bm25Weight)
         == Some(SearchResult(hit.metadata.repoName, hit.metadata.repoUrl,
                   Round3(Fuse(denseWeight, DenseScore(hit.distance), bm25Weight, NormalizeBm25(raw))),
                   Round3(DenseScore(hit.distance)), Round3(NormalizeBm25(raw)), hit.document))
  {
  }

  /** The stored scores are the rounded dense score, the rounded normalised
      BM25 score in [0, 1], and the rounded weighted sum of the two; for a
      distance in [0, 2] and non-negative weights the fused score before
      rounding lies between 0 and the sum of the weights. */
  lemma ScoreHitBounds(hit: Hit, queryTokens: seq<string>, avgDocLength: real, denseWeight: real, bm25Weight: real)
    requires ScoreHit(hit, queryTokens, avgDocLength, denseWeight, bm25Weight).Some?
    ensures var r := ScoreHit(hit, queryTokens, avgDocLength, denseWeight, bm25Weight).value;
      && 0.0 <= r.bm25Score <= 1.0
      && (0.0 <= hit.distance <= 2.0 ==> 0.0 <= r.denseScore <= 1.0)
      && (0.0 <= hit.distance <= 2.0 && denseWeight >= 0.0 && bm25Weight >= 0.0 ==>
            -1.0 / 2000.0 <= r.hybridScore <= denseWeight + bm25Weight + 1.0 / 2000.0)
      && r.summary == hit.document
      && r.repoName == hit.metadata.repoName && r.repoUrl == hit.metadata.repoUrl
  {
    var dense := DenseScore(hit.distance);
    var raw := Bm25(queryTokens, Tokenize(hit.document), avgDocLength, K1, B).value;
    var normalized := NormalizeBm25(raw);
    ScoreHitUnfold(hit, queryTokens, avgDocLength, denseWeight, bm25Weight, raw);
    Round3UnitInterval(normalized);
    if 0.0 <= hit.distance <= 2.0 {
      Round3UnitInterval(dense);
      if denseWeight >= 0.0 && bm25Weight >= 0.0 {
        FusedBound(denseWeight, dense, bm25Weight, normalized);
      }
    }
  }

  /** All the values when none is missing; None as soon as one is. */
  function Collect<T>(opts: seq<Option<T>>): Option<seq<T>>
    decreases |opts|
  {
    if opts == [] then Some([])
    else
      var prefix := Collect(opts[..|opts| - 1]);
      var x := opts[|opts| - 1];
      if prefix.Some? && x.Some? then Some(prefix.value + [x.value]) else None
  }

  /** Collect succeeds exactly when every entry is present, and then lists
      the entries in order. */
  lemma {:induction false} CollectSpec<T>(opts: seq<Option<T>>)
    ensures var r := Collect(opts);
      && (r.Some? <==> forall i :: 0 <= i < |opts| ==> opts[i].Some?)
      && (r.Some? ==> |r.value| == |opts| && forall i :: 0 <= i < |opts| ==> opts[i] == Some(r.value[i]))
    decreases |opts|
  {
    if opts != [] {
      var last := |opts| - 1;
      var front := opts[..last];
      CollectSpec(front);
      assert forall i :: 0 <= i < last ==> front[i] == opts[i];
      if Collect(front).None? {
        var i :| 0 <= i < last && front[i].None?;
        assert opts[i].None?;
      }
    }
  }

  lemma CollectSnoc<T>(opts: seq<Option<T>>, acc: seq<T>, x: T)
    requires Collect(opts) == Some(acc)
    ensures Collect(opts + [Some(x)]) == Some(acc + [x])
  {
    assert (opts + [Some(x)])[..|opts|] == opts;
  }

  /** The record or the failure of every hit, in hit order. */
  function ScoreEach(hits: seq<Hit>, queryTokens: seq<string>, avgDocLength: real, denseWeight: real, bm25Weight: real)
    : (r: seq<Option<SearchResult>>)
    ensures |r| == |hits|
    ensures forall i :: 0 <= i < |hits| ==> r[i] == ScoreHit(hits[i], queryTokens, avgDocLength, denseWeight, bm25Weight)
  {
    seq(|hits|, i requires 0 <= i < |hits| => ScoreHit(hits[i], queryTokens, avgDocLength, denseWeight, bm25Weight))
  }

  /** The hybrid_results list, built in dense-query order; None when some
      hit's BM25 raises. */
  function ScoreHits(hits: seq<Hit>, queryTokens: seq<string>, avgDocLength: real, denseWeight: real, bm25Weight: real)
    : Option<seq<SearchResult>>
  {
    Collect(ScoreEach(hits, queryTokens, avgDocLength, denseWeight, bm25Weight))
  }

  /** The list exists exactly when no hit raises, and then holds one record
      per hit, in hit order. */
  lemma ScoreHitsSpec(hits: seq<Hit>, queryTokens: seq<string>, avgDocLength: real, denseWeight: real, bm25Weight: real)
    ensures var r := ScoreHits(hits, queryTokens, avgDocLength, denseWeight, bm25Weight);
      && (r.Some? <==> forall i :: 0 <= i < |hits| ==> ScoreHit(hits[i], queryTokens, avgDocLength, denseWeight, bm25Weight).Some?)
      && (r.Some? ==> |r.value| == |hits|)
      && (r.Some? ==> forall i :: 0 <= i < |hits| ==>
            ScoreHit(hits[i], queryTokens, avgDocLength, denseWeight, bm25Weight) == Some(r.value[i]))
  {
    CollectSpec(ScoreEach(hits, queryTokens, avgDocLength, denseWeight, bm25Weight));
  }

  // ---------------------------------------------------------------------
  // Stable sort by descending hybrid score (list.sort(key=..., reverse=True))

  predicate SortedByScore(rs: seq<SearchResult>) {
    forall i, j :: 0 <= i < j < |rs| ==> rs[i].hybridScore >= rs[j].hybridScore
  }

  /** The results whose hybrid score is `v`, in their order in `rs`. */
  function WithScore(rs: seq<SearchResult>, v: real): seq<SearchResult>
    decreases |rs|
  {
    if rs == [] then []
    else WithScore(rs[..|rs| - 1], v) + (if rs[|rs| - 1].hybridScore == v then [rs[|rs| - 1]] else [])
  }

  lemma {:induction false} WithScoreAppend(a: seq<SearchResult>, b: seq<SearchResult>, v: real)
    ensures WithScore(a + b, v) == WithScore(a, v) + WithScore(b, v)
    decreases |b|
  {
    if b == [] {
      assert a + b == a;
    } else {
      assert (a + b)[..|a + b| - 1] == a + b[..|b| - 1];
      WithScoreAppend(a, b[..|b| - 1], v);
    }
  }

  /** Places `x` after every element whose score is at least its own. */
  function Insert(sorted: seq<SearchResult>, x: SearchResult): (r: seq<SearchResult>)
    ensures multiset(r) == multiset(sorted) + multiset{x}
    decreases |sorted|
  {
    if sorted == [] then [x]
    else
      var n := |sorted| - 1;
      assert sorted == sorted[..n] + [sorted[n]];
      if sorted[n].hybridScore < x.hybridScore then
        Insert(sorted[..n], x) + [sorted[n]]
      else sorted + [x]
  }

  /** Every result scores at least `v`. */
  predicate AllAtLeast(rs: seq<SearchResult>, v: real) {
    forall i :: 0 <= i < |rs| ==> rs[i].hybridScore >= v
  }

  lemma {:induction false} InsertAtLeast(sorted: seq<SearchResult>, x: SearchResult, v: real)
    requires AllAtLeast(sorted, v) && x.hybridScore >= v
    ensures AllAtLeast(Insert(sorted, x), v)
    decreases |sorted|
  {
    if sorted != [] {
      var n := |sorted| - 1;
      if sorted[n].hybridScore < x.hybridScore {
        InsertAtLeast(sorted[..n], x, v);
      }
    }
  }

  lemma SortedSnoc(rs: seq<SearchResult>, y: SearchResult)
    requires SortedByScore(rs) && AllAtLeast(rs, y.hybridScore)
    ensures SortedByScore(rs + [y])
  {
  }

  lemma {:induction false} InsertSorted(sorted: seq<SearchResult>, x: SearchResult)
    requires SortedByScore(sorted)
    ensures SortedByScore(Insert(sorted, x))
    decreases |sorted|
  {
    if sorted != [] {
      var n := |sorted| - 1;
      var last := sorted[n];
      if last.hybridScore < x.hybridScore {
        InsertSorted(sorted[..n], x);
        InsertAtLeast(sorted[..n], x, last.hybridScore);
        SortedSnoc(Insert(sorted[..n], x), last);
      } else {
        SortedSnoc(sorted, x);
      }
    }
  }

  lemma WithScoreSingle(y: SearchResult, v: real)
    ensures WithScore([y], v) == if y.hybridScore == v then [y] else []
  {
    assert [y][..0] == [];
  }

  /** Inserting `x` past a lower-scored last result `last`: given the
      insertion into the front is stable, so is the whole. */
  lemma InsertBeforeLast(front: seq<SearchResult>, last: SearchResult, x: SearchResult, v: real)
    requires last.hybridScore < x.hybridScore
    requires WithScore(Insert(front, x), v) == WithScore(front, v) + WithScore([x], v)
    ensures WithScore(Insert(front, x) + [last], v) == WithScore(front + [last], v) + WithScore([x], v)
  {
    var rest, mine, theirs := WithScore(front, v), WithScore([x], v), WithScore([last], v);
    WithScoreSingle(x, v);
    WithScoreSingle(last, v);
    // x and last have different scores, so at most one of them has score v
    assert mine == [] || theirs == [];
    calc {
      WithScore(Insert(front, x) + [last], v);
      { WithScoreAppend(Insert(front, x), [last], v); }
      rest + mine + theirs;
      rest + theirs + mine;
      { WithScoreAppend(front, [last], v); }
      WithScore(front + [last], v) + mine;
    }
  }

  /** Inserting keeps the order among equal scores: the results scoring `v`
      are those of `sorted`, then `x` if it scores `v`. */
  lemma {:induction false} InsertStable(sorted: seq<SearchResult>, x: SearchResult, v: real)
    ensures WithScore(Insert(sorted, x), v) == WithScore(sorted, v) + WithScore([x], v)
    decreases |sorted|
  {
    if sorted == [] {
      WithScoreSingle(x, v);
    } else {
      var n := |sorted| - 1;
      var last := sorted[n];
      assert sorted == sorted[..n] + [last];
      if last.hybridScore < x.hybridScore {
        assert Insert(sorted, x) == Insert(sorted[..n], x) + [last];
        InsertStable(sorted[..n], x, v);
        InsertBeforeLast(sorted[..n], last, x, v);
      } else {
        assert Insert(sorted, x) == sorted + [x];
        WithScoreAppend(sorted, [x], v);
      }
    }
  }

  /** Inserting the last result into the sorted rest sorts the whole list. */
  lemma InsertStep(rs: seq<SearchResult>, front: seq<SearchResult>)
    requires rs != [] && SortedByScore(front)
    requires multiset(front) == multiset(rs[..|rs| - 1])
    requires forall v :: WithScore(front, v) == WithScore(rs[..|rs| - 1], v)
    ensures var sorted := Insert(front, rs[|rs| - 1]);
      && SortedByScore(sorted)
      && multiset(sorted) == multiset(rs) && |sorted| == |rs|
      && forall v :: WithScore(sorted, v) == WithScore(rs, v)
  {
    var n := |rs| - 1;
    var sorted := Insert(front, rs[n]);
    InsertSorted(front, rs[n]);
    assert rs == rs[..n] + [rs[n]];
    assert multiset(rs) == multiset(rs[..n]) + multiset{rs[n]};
    assert |sorted| == |multiset(sorted)| == |multiset(rs)| == |rs|;
    forall v ensures WithScore(sorted, v) == WithScore(rs, v) {
      InsertStable(front, rs[n], v);
      WithScoreAppend(rs[..n], [rs[n]], v);
    }
  }

  /** The stable descending sort: ordered by hybrid score, a permutation of
      its input, and results with equal scores keep their input order. */
  function SortByScore(rs: seq<SearchResult>): (sorted: seq<SearchResult>)
    ensures SortedByScore(sorted)
    ensures multiset(sorted) == multiset(rs) && |sorted| == |rs|
    ensures forall v :: WithScore(sorted, v) == WithScore(rs, v)
    decreases |rs|
  {
    if rs == [] then []
    else
      var front := SortByScore(rs[..|rs| - 1]);
      InsertStep(rs, front);
      Insert(front, rs[|rs| - 1])
  }

  // ---------------------------------------------------------------------
  // The search pipeline

  /** A displayed summary: the first 200 characters and "..." when longer. */
  function DisplaySummary(summary: string): (shown: string)
    ensures |summary| <= 200 ==> shown == summary
    ensures |summary| > 200 ==> |shown| == 203 && shown[..200] == summary[..200] && shown[200..] == "..."
  {
    if |summary| > 200 then summary[..200] + "..." else summary
  }

  function WithDisplaySummary(r: SearchResult): SearchResult {
    r.(summary := DisplaySummary(r.summary))
  }

  /** The list after the loop that shortens the summaries of the kept results. */
  function ShowSummaries(top: seq<SearchResult>): (shown: seq<SearchResult>)
    ensures |shown| == |top|
    ensures forall i :: 0 <= i < |top| ==> shown[i] == WithDisplaySummary(top[i])
  {
    seq(|top|, i requires 0 <= i < |top| => WithDisplaySummary(top[i]))
  }

  /** Shortening the summary at position i, in a list whose first i
      summaries are already shortened, extends the shortened prefix by one. */
  lemma ShowSummariesStep(ranked: seq<SearchResult>, i: nat)
    requires i < |ranked|
    ensures var before := ShowSummaries(ranked[..i]) + ranked[i..];
      before[i] == ranked[i] &&
      before[i := before[i].(summary := DisplaySummary(before[i].summary))]
        == ShowSummaries(ranked[..i + 1]) + ranked[i + 1..]
  {
    var before := ShowSummaries(ranked[..i]) + ranked[i..];
    var after := before[i := before[i].(summary := DisplaySummary(before[i].summary))];
    var want := ShowSummaries(ranked[..i + 1]) + ranked[i + 1..];
    assert |after| == |want|;
    forall k | 0 <= k < |after| ensures after[k] == want[k] {
      if k < i {
        assert ranked[..i][k] == ranked[..i + 1][k];
      }
    }
  }

  /** Total token count of the corpus documents. */
  function TotalTokens(corpus: seq<string>): (total: nat)
    ensures total == 0 <==> forall i :: 0 <= i < |corpus| ==> Tokenize(corpus[i]) == []
    decreases |corpus|
  {
    if corpus == [] then 0
    else
      var front := corpus[..|corpus| - 1];
      assert forall i :: 0 <= i < |front| ==> front[i] == corpus[i];
      TotalTokens(front) + |Tokenize(corpus[|corpus| - 1])|
  }

  /** Mean token count over the whole corpus. */
  function AvgDocLength(corpus: seq<string>): (avg: real)
    requires corpus != []
    ensures avg >= 0.0
    ensures avg == 0.0 <==> TotalTokens(corpus) == 0
  {
    TotalTokens(corpus) as real / |corpus| as real
  }

  /** What search_repositories returns; None when BM25 raises. */
  function Search(query: string, corpus: seq<string>, hits: seq<Hit>, numResults: int, denseWeight: real, bm25Weight: real)
    : (r: Option<seq<SearchResult>>)
    ensures corpus == [] ==> r == Some([])
    ensures r.None? <==>
      && corpus != [] && TotalTokens(corpus) == 0
      && exists j, i :: 0 <= j < |hits| && 0 <= i < |Tokenize(query)| && Tokenize(query)[i] in Tokenize(hits[j].document)
  {
    if corpus == [] then Some([])
    else
      ScoreHitsSpec(hits, Tokenize(query), AvgDocLength(corpus), denseWeight, bm25Weight);
      match ScoreHits(hits, Tokenize(query), AvgDocLength(corpus), denseWeight, bm25Weight)
      case None => None
      case Some(scored) =>
        Some(ShowSummaries(Prefix(SortByScore(scored), numResults)))
  }

  lemma ScoreHitsSnoc(hits: seq<Hit>, i: nat, queryTokens: seq<string>, avgDocLength: real,
                      denseWeight: real, bm25Weight: real, acc: seq<SearchResult>, x: SearchResult)
    requires i < |hits|
    requires ScoreHits(hits[..i], queryTokens, avgDocLength, denseWeight, bm25Weight) == Some(acc)
    requires ScoreHit(hits[i], queryTokens, avgDocLength, denseWeight, bm25Weight) == Some(x)
    ensures ScoreHits(hits[..i + 1], queryTokens, avgDocLength, denseWeight, bm25Weight) == Some(acc + [x])
  {
    var before := ScoreEach(hits[..i], queryTokens, avgDocLength, denseWeight, bm25Weight);
    assert ScoreEach(hits[..i + 1], queryTokens, avgDocLength, denseWeight, bm25Weight) == before + [Some(x)];
    CollectSnoc(before, acc, x);
  }

  lemma SearchUnfold(query: string, corpus: seq<string>, hits: seq<Hit>, numResults: int,
                     denseWeight: real, bm25Weight: real, scored: seq<SearchResult>)
    requires corpus != []
    requires ScoreHits(hits, Tokenize(query), AvgDocLength(corpus), denseWeight, bm25Weight) == Some(scored)
    ensures Search(query, corpus, hits, numResults, denseWeight, bm25Weight)
         == Some(ShowSummaries(Prefix(SortByScore(scored), numResults)))
  {
  }

  /** The scoring loop of search_repositories: one record per hit, in hit
      order; None when BM25 raises. */
  method ScoreCandidates(hits: seq<Hit>, queryTokens: seq<string>, avgDocLength: real,
                         denseWeight: real, bm25Weight: real)
    returns (results: Option<seq<SearchResult>>)
    ensures results == ScoreHits(hits, queryTokens, avgDocLength, denseWeight, bm25Weight)
  {
    var hybridResults: seq<SearchResult> := [];
    for i := 0 to |hits|
      invariant ScoreHits(hits[..i], queryTokens, avgDocLength, denseWeight, bm25Weight) == Some(hybridResults)
    {
      var hit := hits[i];
      var denseScore := DenseScore(hit.distance);
      var docTokens := Tokenize(hit.document);
      var bm25Score := ComputeBm25Score(queryTokens, docTokens, avgDocLength, K1, B);
      if bm25Score.None? {
        assert ScoreHit(hits[i], queryTokens, avgDocLength, denseWeight, bm25Weight).None?;
        ScoreHitsSpec(hits, queryTokens, avgDocLength, denseWeight, bm25Weight);
        return None;
      }
      var bm25Normalized := NormalizeBm25(bm25Score.value);
      var hybridScore := Fuse(denseWeight, denseScore, bm25Weight, bm25Normalized);
      var result := SearchResult(hit.metadata.repoName, hit.metadata.repoUrl,
        Round3(hybridScore), Round3(denseScore), Round3(bm25Normalized), hit.document);
      ScoreHitUnfold(hit, queryTokens, avgDocLength, denseWeight, bm25Weight, bm25Score.value);
      ScoreHitsSnoc(hits, i, queryTokens, avgDocLength, denseWeight, bm25Weight, hybridResults, result);
      hybridResults := hybridResults + [result];
    }
    assert hits[..|hits|] == hits;
    return Some(hybridResults);
  }

  /** The last step of search_repositories: shortens the summaries of the
      first numResults ranked records in place and returns that slice. */
  method ShortenTop(ranked: seq<SearchResult>, numResults: int) returns (top: seq<SearchResult>)
    ensures top == ShowSummaries(Prefix(ranked, numResults))
  {
    var hybridResults := ranked;
    var count := SliceStop(numResults, |hybridResults|);
    for i := 0 to count
      invariant hybridResults == ShowSummaries(ranked[..i]) + ranked[i..]
    {
      var summary := hybridResults[i].summary;
      ShowSummariesStep(ranked, i);
      var shown := if |summary| > 200 then summary[..200] + "..." else summary;
      hybridResults := hybridResults[i := hybridResults[i].(summary := shown)];
    }
    assert hybridResults[..count] == ShowSummaries(ranked[..count]);
    top := hybridResults[..count];
  }

  /** search_repositories, with the store's answers as inputs. */
  method SearchRepositories(query: string, corpus: seq<string>, hits: seq<Hit>, numResults: int,
                            denseWeight: real, bm25Weight: real)
    returns (results: Option<seq<SearchResult>>)
    ensures results == Search(query, corpus, hits, numResults, denseWeight, bm25Weight)
  {
    if corpus == [] {
      return Some([]);
    }
    var queryTokens := Tokenize(query);
    var avgDocLength := AvgDocLength(corpus);
    var scored := ScoreCandidates(hits, queryTokens, avgDocLength, denseWeight, bm25Weight);
    if scored.None? {
      return None;
    }
    var hybridResults := scored.value;
    SearchUnfold(query, corpus, hits, numResults, denseWeight, bm25Weight, hybridResults);
    hybridResults := SortByScore(hybridResults);
    var top := ShortenTop(hybridResults, numResults);
    results := Some(top);
  }

  // ---------------------------------------------------------------------
  // Properties of the search

  /** An empty corpus gives no results; otherwise there are min(numResults,
      hits) of them (Python slice semantics for a negative numResults), in
      non-increasing order of stored hybrid score. */
  lemma SearchShape(query: string, corpus: seq<string>, hits: seq<Hit>, numResults: int,
                    denseWeight: real, bm25Weight: real, rs: seq<SearchResult>)
    requires Search(query, corpus, hits, numResults, denseWeight, bm25Weight) == Some(rs)
    ensures corpus == [] ==> rs == []
    ensures corpus != [] ==> |rs| == SliceStop(numResults, |hits|)
    ensures corpus != [] && numResults >= 0 ==> |rs| == if numResults < |hits| then numResults else |hits|
    ensures forall i, j :: 0 <= i < j < |rs| ==> rs[i].hybridScore >= rs[j].hybridScore
  {
    if corpus != [] {
      var scored := ScoreHits(hits, Tokenize(query), AvgDocLength(corpus), denseWeight, bm25Weight).value;
      ScoreHitsSpec(hits, Tokenize(query), AvgDocLength(corpus), denseWeight, bm25Weight);
      SearchUnfold(query, corpus, hits, numResults, denseWeight, bm25Weight, scored);
      var ranking := SortByScore(scored);
      var top := Prefix(ranking, numResults);
      assert |top| == SliceStop(numResults, |hits|);
      forall i, j | 0 <= i < j < |rs| ensures rs[i].hybridScore >= rs[j].hybridScore {
        assert rs[i].hybridScore == top[i].hybridScore == ranking[i].hybridScore;
        assert rs[j].hybridScore == top[j].hybridScore == ranking[j].hybridScore;
      }
    }
  }

  /** The results are the first entries of the stable ranking of all scored
      hits, with only their summaries shortened for display. */
  lemma SearchIsRankedPrefix(query: string, corpus: seq<string>, hits: seq<Hit>, numResults: int,
                             denseWeight: real, bm25Weight: real, rs: seq<SearchResult>)
    requires corpus != []
    requires Search(query, corpus, hits, numResults, denseWeight, bm25Weight) == Some(rs)
    ensures var scored := ScoreHits(hits, Tokenize(query), AvgDocLength(corpus), denseWeight, bm25Weight);
      && scored.Some?
      && var ranking := SortByScore(scored.value);
      && |rs| <= |ranking|
      && (forall i :: 0 <= i < |rs| ==>
            rs[i] == ranking[i].(summary := DisplaySummary(ranking[i].summary)))
      && multiset(ranking) == multiset(scored.value)
      && (forall v :: WithScore(ranking, v) == WithScore(scored.value, v))
  {
    var scored := ScoreHits(hits, Tokenize(query), AvgDocLength(corpus), denseWeight, bm25Weight);
    assert scored.Some?;
    SearchUnfold(query, corpus, hits, numResults, denseWeight, bm25Weight, scored.value);
    var ranking := SortByScore(scored.value);
    var top := Prefix(ranking, numResults);
    assert rs == ShowSummaries(top);
    forall i | 0 <= i < |rs| ensures rs[i] == ranking[i].(summary := DisplaySummary(ranking[i].summary)) {
      assert top[i] == ranking[i];
    }
  }

  /** When every hit is a document of the corpus (as the store guarantees)
      the search never raises: either the average length is positive, or no
      document has a token and no division is reached. */
  lemma SearchConsistentStoreSucceeds(query: string, corpus: seq<string>, hits: seq<Hit>, numResults: int,
                                      denseWeight: real, bm25Weight: real)
    requires forall h <- hits :: h.document in corpus
    ensures Search(query, corpus, hits, numResults, denseWeight, bm25Weight).Some?
  {
    if corpus != [] {
      var queryTokens := Tokenize(query);
      var avg := AvgDocLength(corpus);
      forall i | 0 <= i < |hits|
        ensures ScoreHit(hits[i], queryTokens, avg, denseWeight, bm25Weight).Some?
      {
        var doc := Tokenize(hits[i].document);
        assert hits[i] in hits;
        if TotalTokens(corpus) == 0 {
          var k :| 0 <= k < |corpus| && corpus[k] == hits[i].document;
          Bm25NoMatch(queryTokens, doc, avg, K1, B);
        } else {
          Bm25NonNegative(queryTokens, doc, avg, K1, B);
        }
      }
      ScoreHitsSpec(hits, queryTokens, avg, denseWeight, bm25Weight);
    }
  }
}
