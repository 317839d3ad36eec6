/** Character classes, Python string methods and slicing, as the repository
    uses them. Every other module imports this one. */
module Text {

  datatype Option<+T> = None | Some(value: T)

  datatype Result<+T, +E> = Ok(value: T) | Err(error: E)

  // ---------------------------------------------------------------------
  // Character classes

  /** The characters for which Python's str.isspace() holds: those that
      str.strip(), str.split() and the regex class \s treat as whitespace. */
  predicate IsSpace(c: char) {
    var n := c as int;
    (9 <= n <= 13) || (28 <= n <= 32) || n == 0x85 || n == 0xA0 || n == 0x1680
    || (0x2000 <= n <= 0x200A) || n == 0x2028 || n == 0x2029 || n == 0x202F
    || n == 0x205F || n == 0x3000
  }

  predicate IsNewline(c: char) { c == '\n' }

  predicate NotNewline(c: char) { c != '\n' }

  predicate IsBacktick(c: char) { c == '`' }

  predicate IsSlash(c: char) { c == '/' }

  predicate IsAsciiUpper(c: char) { 'A' <= c <= 'Z' }

  /** The regex class \w restricted to ASCII: letters, digits and underscore. */
  predicate IsWordChar(c: char) {
    'a' <= c <= 'z' || 'A' <= c <= 'Z' || '0' <= c <= '9' || c == '_'
  }

  /** str.lower() on one character, restricted to ASCII. */
  function LowerChar(c: char): (d: char)
    ensures !IsAsciiUpper(d)
    ensures IsWordChar(d) <==> IsWordChar(c)
    ensures !IsAsciiUpper(c) ==> d == c
  {
    if IsAsciiUpper(c) then (c as int + 32) as char else c
  }

  function Lower(s: string): (r: string)
    ensures |r| == |s|
    ensures forall i :: 0 <= i < |s| ==> r[i] == LowerChar(s[i])
  {
    seq(|s|, i requires 0 <= i < |s| => LowerChar(s[i]))
  }

  lemma LowerAppend(a: string, b: string)
    ensures Lower(a + b) == Lower(a) + Lower(b)
  {
  }

  // ---------------------------------------------------------------------
  // Scanning

  /** End of the longest run of characters satisfying `keep` that starts at `i`. */
  function SpanFrom(s: string, i: nat, keep: char -> bool): (j: nat)
    requires i <= |s|
    ensures i <= j <= |s|
    ensures forall k :: i <= k < j ==> keep(s[k])
    ensures j < |s| ==> !keep(s[j])
    decreases |s| - i
  {
    if i < |s| && keep(s[i]) then SpanFrom(s, i + 1, keep) else i
  }

  /** SpanFrom is determined by its two properties. */
  lemma SpanFromIs(s: string, i: nat, keep: char -> bool, j: nat)
    requires i <= j <= |s|
    requires forall k :: i <= k < j ==> keep(s[k])
    requires j < |s| ==> !keep(s[j])
    ensures SpanFrom(s, i, keep) == j
  {
  }

  /** Whether `word` (given in lower case) occurs at position `i` of `s`,
      ignoring ASCII case. */
  predicate LooksAtIgnoreCase(s: string, i: nat, word: string) {
    i + |word| <= |s| && Lower(s[i..i + |word|]) == word
  }

  /** Whether `word` occurs at position `i` of `s`, case-sensitively. */
  predicate LooksAt(s: string, i: nat, word: string) {
    i + |word| <= |s| && s[i..i + |word|] == word
  }

  predicate StartsWith(s: string, prefix: string) {
    |prefix| <= |s| && s[..|prefix|] == prefix
  }

  predicate EndsWith(s: string, suffix: string) {
    |suffix| <= |s| && s[|s| - |suffix|..] == suffix
  }

  /** Python's `sub in s` for strings: `sub` occurs at i or later. */
  predicate ContainsFrom(s: string, sub: string, i: nat)
    decreases |s| - i
  {
    i + |sub| <= |s| && (LooksAt(s, i, sub) || ContainsFrom(s, sub, i + 1))
  }

  predicate Contains(s: string, sub: string) { ContainsFrom(s, sub, 0) }

  /** An occurrence at or after i is found by the search from i. */
  lemma {:induction false} ContainsFromFinds(s: string, sub: string, i: nat, k: nat)
    requires i <= k && LooksAt(s, k, sub)
    ensures ContainsFrom(s, sub, i)
    decreases k - i
  {
    if i < k {
      ContainsFromFinds(s, sub, i + 1, k);
    }
  }

  /** The search succeeds only at an actual occurrence. */
  lemma {:induction false} ContainsFromWitness(s: string, sub: string, i: nat) returns (k: nat)
    requires ContainsFrom(s, sub, i)
    ensures i <= k && LooksAt(s, k, sub)
    decreases |s| - i
  {
    if LooksAt(s, i, sub) {
      k := i;
    } else {
      k := ContainsFromWitness(s, sub, i + 1);
    }
  }

  /** The least position q with lo <= q <= hi and ok(q): where re.search and
      re.sub settle when they try positions left to right. */
  function FirstAt(lo: nat, hi: nat, ok: nat -> bool): (r: Option<nat>)
    ensures r.Some? ==> lo <= r.value <= hi && ok(r.value)
    ensures r.Some? ==> forall q :: lo <= q < r.value ==> !ok(q)
    ensures r.None? ==> forall q :: lo <= q <= hi ==> !ok(q)
    decreases if lo <= hi then hi - lo + 1 else 0
  {
    if lo > hi then None
    else if ok(lo) then Some(lo)
    else FirstAt(lo + 1, hi, ok)
  }

  /** The index of the first element satisfying `ok`: a for loop with an
      early return. */
  function FirstIndex<T>(xs: seq<T>, ok: T -> bool): (r: Option<nat>)
    ensures r.Some? ==> r.value < |xs| && ok(xs[r.value])
    ensures r.Some? ==> forall i :: 0 <= i < r.value ==> !ok(xs[i])
    ensures r.None? ==> forall i :: 0 <= i < |xs| ==> !ok(xs[i])
    decreases |xs|
  {
    if xs == [] then None
    else if ok(xs[0]) then Some(0)
    else match FirstIndex(xs[1..], ok)
      case None => None
      case Some(i) => Some(i + 1)
  }

  /** FirstIndex is determined by its properties. */
  lemma FirstIndexIs<T>(xs: seq<T>, ok: T -> bool, i: nat)
    requires i < |xs| && ok(xs[i])
    requires forall j :: 0 <= j < i ==> !ok(xs[j])
    ensures FirstIndex(xs, ok) == Some(i)
  {
    var r := FirstIndex(xs, ok);
    assert r.Some? && r.value <= i;
  }

  lemma FirstIndexNone<T>(xs: seq<T>, ok: T -> bool)
    requires forall j :: 0 <= j < |xs| ==> !ok(xs[j])
    ensures FirstIndex(xs, ok) == None
  {
  }

  /** The first alternative that succeeds, as a regex alternation tries them. */
  function OrElse<T>(first: Option<T>, second: Option<T>): (r: Option<T>)
    ensures first.Some? ==> r == first
    ensures first.None? ==> r == second
  {
    if first.Some? then first else second
  }

  /** `s.split(sep)[-1]`: what follows the last `sep`, or all of `s`. */
  function AfterLast(s: string, sep: char): (r: string)
    ensures |r| <= |s|
    decreases |s|
  {
    if s == [] then []
    else if s[|s| - 1] == sep then []
    else AfterLast(s[..|s| - 1], sep) + [s[|s| - 1]]
  }

  /** What AfterLast returns is a suffix free of the separator, preceded by
      the separator unless it is the whole string. */
  lemma {:induction false} AfterLastSuffix(s: string, sep: char)
    ensures sep !in AfterLast(s, sep)
    ensures AfterLast(s, sep) == s[|s| - |AfterLast(s, sep)|..]
    ensures |AfterLast(s, sep)| < |s| ==> s[|s| - |AfterLast(s, sep)| - 1] == sep
    decreases |s|
  {
    if s != [] && s[|s| - 1] != sep {
      var front := s[..|s| - 1];
      var last := s[|s| - 1];
      AfterLastSuffix(front, sep);
      var rf := AfterLast(front, sep);
      var r := AfterLast(s, sep);
      assert r == rf + [last];
      assert front[|front| - |rf|..] + [last] == s[|s| - |r|..];
      if |r| < |s| {
        assert s[|s| - |r| - 1] == front[|front| - |rf| - 1];
      }
    }
  }

  /** Whatever precedes a separator has no bearing on what follows the
      last one. */
  lemma {:induction false} AfterLastAfterSep(a: string, sep: char, b: string)
    ensures AfterLast(a + [sep] + b, sep) == AfterLast(b, sep)
    decreases |b|
  {
    if b == [] {
      assert (a + [sep] + b)[|a + [sep] + b| - 1] == sep;
    } else {
      var s := a + [sep] + b;
      assert s[..|s| - 1] == a + [sep] + b[..|b| - 1];
      AfterLastAfterSep(a, sep, b[..|b| - 1]);
    }
  }

  /** Without the separator the whole string is kept. */
  lemma AfterLastWhole(s: string, sep: char)
    requires sep !in s
    ensures AfterLast(s, sep) == s
  {
    AfterLastSuffix(s, sep);
  }

  /** Lowering never produces a character that is not a lower-case letter
      unless it was there already. */
  lemma LowerExcludes(s: string, c: char)
    requires c !in s && !('a' <= c <= 'z')
    ensures c !in Lower(s)
  {
    forall i | 0 <= i < |s|
      ensures Lower(s)[i] != c
    {
      assert s[i] != c;
    }
  }

  // ---------------------------------------------------------------------
  // Stripping

  /** Where the run of `keep` characters ending just before j begins. */
  function SpanBack(s: string, j: nat, keep: char -> bool): (i: nat)
    requires j <= |s|
    ensures i <= j
    ensures forall k :: i <= k < j ==> keep(s[k])
    ensures 0 < i ==> !keep(s[i - 1])
    decreases j
  {
    if 0 < j && keep(s[j - 1]) then SpanBack(s, j - 1, keep) else j
  }

  /** SpanBack is determined by its two properties. */
  lemma SpanBackIs(s: string, j: nat, keep: char -> bool, i: nat)
    requires i <= j <= |s|
    requires forall k :: i <= k < j ==> keep(s[k])
    requires 0 < i ==> !keep(s[i - 1])
    ensures SpanBack(s, j, keep) == i
  {
  }

  /** str.lstrip(chars), where `drop` says which characters are in chars. */
  function TrimStart(s: string, drop: char -> bool): (r: string)
    ensures |r| <= |s| && r == s[|s| - |r|..]
    ensures forall i :: 0 <= i < |s| - |r| ==> drop(s[i])
    ensures r != [] ==> !drop(r[0])
  {
    s[SpanFrom(s, 0, drop)..]
  }

  /** str.rstrip(chars), where `drop` says which characters are in chars. */
  function TrimEnd(s: string, drop: char -> bool): (r: string)
    ensures |r| <= |s| && r == s[..|r|]
    ensures forall i :: |r| <= i < |s| ==> drop(s[i])
    ensures r != [] ==> !drop(r[|r| - 1])
  {
    s[..SpanBack(s, |s|, drop)]
  }

  /** A dropped character at the end makes no difference to rstrip. */
  lemma TrimEndDropped(s: string, c: char, drop: char -> bool)
    requires drop(c)
    ensures TrimEnd(s + [c], drop) == TrimEnd(s, drop)
  {
    var n := |TrimEnd(s, drop)|;
    SpanBackIs(s + [c], |s| + 1, drop, n);
    assert (s + [c])[..n] == s[..n];
  }

  /** A value absent from a sequence is absent from every slice of it. */
  lemma SliceExcludes<T>(s: seq<T>, i: nat, j: nat, x: T)
    requires i <= j <= |s| && x !in s
    ensures x !in s[i..j]
  {
  }

  /** str.strip(chars): removes the longest prefix and suffix made of dropped
      characters. */
  function Strip(s: string, drop: char -> bool): (r: string)
    ensures |r| <= |s|
    ensures r != [] ==> !drop(r[0]) && !drop(r[|r| - 1])
  {
    TrimEnd(TrimStart(s, drop), drop)
  }

  /** Stripping never introduces a character. */
  lemma StripExcludes(s: string, drop: char -> bool, c: char)
    requires c !in s
    ensures c !in Strip(s, drop)
  {
    var t := TrimStart(s, drop);
    SliceExcludes(s, |s| - |t|, |s|, c);
    SliceExcludes(t, 0, |TrimEnd(t, drop)|, c);
  }

  /** Nothing is stripped from a string whose ends are kept. */
  lemma StripKeeps(s: string, drop: char -> bool)
    requires s != [] ==> !drop(s[0]) && !drop(s[|s| - 1])
    ensures Strip(s, drop) == s
  {
  }

  /** Python's str.strip() with no argument. */
  function StripSpace(s: string): (r: string)
    ensures r != [] ==> !IsSpace(r[0]) && !IsSpace(r[|r| - 1])
    ensures |r| <= |s|
  {
    Strip(s, IsSpace)
  }

  // ---------------------------------------------------------------------
  // Slicing and joining

  /** Where the Python slice `s[:n]` stops in a sequence of length `len`:
      a negative `n` counts from the end. */
  function SliceStop(n: int, len: nat): (k: nat)
    ensures k <= len
    ensures n >= 0 ==> k == if n < len then n else len
    ensures n < 0 ==> k == if len + n > 0 then len + n else 0
  {
    if n >= 0 then (if n < len then n else len)
    else (if len + n > 0 then len + n else 0)
  }

  /** Python's `s[:n]`. */
  function Prefix<T>(s: seq<T>, n: int): (r: seq<T>)
    ensures r == s[..SliceStop(n, |s|)]
  {
    s[..SliceStop(n, |s|)]
  }

  /** f applied to every element. */
  function Map<T, U>(xs: seq<T>, f: T --> U): (ys: seq<U>)
    requires forall i :: 0 <= i < |xs| ==> f.requires(xs[i])
    ensures |ys| == |xs|
  {
    seq(|xs|, i requires 0 <= i < |xs| => f(xs[i]))
  }

  lemma MapAppend<T, U>(a: seq<T>, b: seq<T>, f: T --> U)
    requires forall i :: 0 <= i < |a| ==> f.requires(a[i])
    requires forall i :: 0 <= i < |b| ==> f.requires(b[i])
    ensures forall i :: 0 <= i < |a + b| ==> f.requires((a + b)[i])
    ensures Map(a + b, f) == Map(a, f) + Map(b, f)
  {
    assert forall i :: 0 <= i < |a + b| ==> (a + b)[i] == if i < |a| then a[i] else b[i - |a|];
  }

  /** The values of the options that are present, in order. */
  function Somes<T>(xs: seq<Option<T>>): (ys: seq<T>)
    ensures |ys| <= |xs|
    decreases |xs|
  {
    if xs == [] then []
    else
      var front := Somes(xs[..|xs| - 1]);
      match xs[|xs| - 1]
      case Some(y) => front + [y]
      case None => front
  }

  /** One more option adds its value, if present. */
  lemma SomesSnoc<T>(xs: seq<Option<T>>, x: Option<T>)
    ensures x.Some? ==> Somes(xs + [x]) == Somes(xs) + [x.value]
    ensures x.None? ==> Somes(xs + [x]) == Somes(xs)
  {
    assert (xs + [x])[..|xs|] == xs;
  }

  /** A prefix one longer is the prefix and the next element. */
  lemma TakeSnoc<T>(xs: seq<T>, i: nat)
    requires i < |xs|
    ensures xs[..i + 1] == xs[..i] + [xs[i]]
  {
  }

  /** Somes keeps the order: of two pieces, the values of the first come
      before those of the second. */
  lemma {:induction false} SomesAppend<T>(a: seq<Option<T>>, b: seq<Option<T>>)
    ensures Somes(a + b) == Somes(a) + Somes(b)
    decreases |b|
  {
    if b == [] {
      assert a + b == a;
    } else {
      var front := b[..|b| - 1];
      assert (a + b)[..|a + b| - 1] == a + front;
      assert (a + b)[|a + b| - 1] == b[|b| - 1];
      SomesAppend(a, front);
      match b[|b| - 1]
      case Some(y) =>
        AppendAssoc(Somes(a), Somes(front), [y]);
      case None =>
    }
  }

  /** What holds of every present value holds of every element of Somes. */
  lemma {:induction false} SomesAll<T>(xs: seq<Option<T>>, ok: T -> bool)
    requires forall i :: 0 <= i < |xs| && xs[i].Some? ==> ok(xs[i].value)
    ensures forall j :: 0 <= j < |Somes(xs)| ==> ok(Somes(xs)[j])
    decreases |xs|
  {
    if xs != [] {
      var front := xs[..|xs| - 1];
      SomesAll(front, ok);
      var ys := Somes(front);
      match xs[|xs| - 1]
      case Some(y) =>
        forall j | 0 <= j < |ys| + 1
          ensures ok((ys + [y])[j])
        {
          if j < |ys| {
            assert (ys + [y])[j] == ys[j];
          }
        }
      case None =>
    }
  }

  lemma AppendAssoc<T>(x: seq<T>, y: seq<T>, z: seq<T>)
    ensures x + y + z == x + (y + z)
  {
  }

  /** Python's `sep.join(parts)`. */
  function Join(parts: seq<string>, sep: string): (r: string)
  {
    if |parts| == 0 then ""
    else if |parts| == 1 then parts[0]
    else parts[0] + sep + Join(parts[1..], sep)
  }

  lemma {:induction false} JoinStartsWithFirst(parts: seq<string>, sep: string)
    requires |parts| > 0
    ensures StartsWith(Join(parts, sep), parts[0])
  {
  }

  /** With two parts or more, the join opens with the first part, the
      separator and the second part. */
  lemma JoinStartsWithTwo(parts: seq<string>, sep: string)
    requires |parts| >= 2
    ensures StartsWith(Join(parts, sep), parts[0] + sep + parts[1])
  {
    var head := parts[0] + sep;
    var rest := Join(parts[1..], sep);
    JoinStartsWithFirst(parts[1..], sep);
    assert Join(parts, sep) == head + rest;
    assert (head + rest)[..|head| + |parts[1]|] == head + rest[..|parts[1]|];
  }

  /** A prefix of a prefix is a prefix. */
  lemma StartsWithTrans(s: string, t: string, u: string, v: string)
    requires StartsWith(s, t + u) && StartsWith(u, v)
    ensures StartsWith(s, t + v)
  {
    assert s[..|t| + |v|] == (t + u)[..|t| + |v|];
    assert (t + u)[..|t| + |v|] == t + u[..|v|];
  }
}
