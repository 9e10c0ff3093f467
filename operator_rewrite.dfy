/**
 * The operator rewrite of the catalog query (productController.js, lines 30-36):
 * the filter object is serialised with JSON.stringify, every whole word `gt`,
 * `gte`, `lt`, `lte` or `in` in the text gets a `$` in front of it by the global
 * regular expression /\b(gt|gte|lt|lte|in)\b/g, and the text is parsed back.
 *
 * The regular expression is modelled by its ECMAScript meaning (a left-to-right
 * scan that tests `\b`, then the alternatives in order, then `\b`), and proved
 * equal to "put `$` before every maximal run of word characters that is an
 * operator word". The text passes through JSON string escaping, so the effect
 * on one key or value is RewriteField, which differs from the plain rule in one
 * place: a run right after a control character is not rewritten, because the
 * escape (`\n`, `\u001f`, ...) ends in a word character and glues onto the run.
 */
module OperatorRewrite {
  import opened Wrappers
  import opened JsObject
  import opened Json

  /** `\w` of a regular expression without the `u` flag. */
  predicate IsWordChar(c: char) {
    ('a' <= c <= 'z') || ('A' <= c <= 'Z') || ('0' <= c <= '9') || c == '_'
  }

  predicate IsOperator(w: string) {
    w == "gt" || w == "gte" || w == "lt" || w == "lte" || w == "in"
  }

  /** The alternatives of the pattern, in the order the matcher tries them. */
  const Alternatives: seq<string> := ["gt", "gte", "lt", "lte", "in"]

  predicate AllWordChars(w: string) {
    forall k :: 0 <= k < |w| ==> IsWordChar(w[k])
  }

  // ---------------------------------------------------------------------------
  // The regular expression, as ECMAScript defines it

  predicate WordAt(s: string, p: int) {
    0 <= p < |s| && IsWordChar(s[p])
  }

  /** `\b` at position p: exactly one of s[p-1], s[p] is a word character. */
  predicate BoundaryAt(s: string, p: int) {
    WordAt(s, p - 1) != WordAt(s, p)
  }

  /** `\b` w `\b` matches at position i. */
  predicate MatchesAt(s: string, i: nat, w: string) {
    i + |w| <= |s| && s[i..i + |w|] == w && BoundaryAt(s, i) && BoundaryAt(s, i + |w|)
  }

  /** The first alternative (in pattern order) with which the whole pattern matches at i. */
  function FirstAlternative(s: string, i: nat, alts: seq<string>): (r: Option<string>)
    ensures r.Some? ==> r.value in alts && MatchesAt(s, i, r.value)
    ensures r.None? ==> forall w :: w in alts ==> !MatchesAt(s, i, w)
  {
    if alts == [] then None
    else if MatchesAt(s, i, alts[0]) then Some(alts[0])
    else FirstAlternative(s, i, alts[1..])
  }

  /** What the pattern matches at i: its first alternative that matches there, two or three characters long. */
  function Match(s: string, i: nat): (r: Option<string>)
    ensures r.Some? ==> r.value in Alternatives && MatchesAt(s, i, r.value) && (|r.value| == 2 || |r.value| == 3)
    ensures r.None? ==> forall w :: w in Alternatives ==> !MatchesAt(s, i, w)
  {
    FirstAlternative(s, i, Alternatives)
  }

  /**
   * One step of the scan at i < |s|: what it emits there and where it resumes.
   * Where the pattern matches, `$` and the match, resuming after the match;
   * elsewhere the character itself, resuming one position later.
   */
  function Step(s: string, i: nat): (r: (string, nat))
    requires i < |s|
    ensures i < r.1 <= |s|
  {
    match Match(s, i)
    case Some(w) => ("$" + w, i + |w|)
    case None => ([s[i]], i + 1)
  }

  /** The global replacement from position i on. */
  function ReplaceFrom(s: string, i: nat): string
    requires i <= |s|
    decreases |s| - i
  {
    if i == |s| then []
    else
      var (out, j) := Step(s, i);
      out + ReplaceFrom(s, j)
  }

  /** `s.replace(/\b(gt|gte|lt|lte|in)\b/g, match => `$${match}`)`. */
  function ReplaceOperators(s: string): string {
    ReplaceFrom(s, 0)
  }

  /** How many replacements the scan from i makes. */
  function MatchCount(s: string, i: nat): nat
    requires i <= |s|
    decreases |s| - i
  {
    if i == |s| then 0
    else (if Match(s, i).Some? then 1 else 0) + MatchCount(s, Step(s, i).1)
  }

  /** The replacement only inserts one `$` per match. */
  lemma {:induction false} ReplaceLength(s: string, i: nat)
    requires i <= |s|
    ensures |ReplaceFrom(s, i)| == |s| - i + MatchCount(s, i)
    decreases |s| - i
  {
    if i < |s| {
      ReplaceLength(s, Step(s, i).1);
    }
  }

  // ---------------------------------------------------------------------------
  // The same replacement, stated over maximal runs of word characters

  /** Length of the leading run of word characters. */
  function RunLength(t: string): (n: nat)
    ensures n <= |t|
    ensures forall k :: 0 <= k < n ==> IsWordChar(t[k])
    ensures n == |t| || !IsWordChar(t[n])
  {
    if t != [] && IsWordChar(t[0]) then 1 + RunLength(t[1..]) else 0
  }

  /**
   * Put `$` before every maximal run of word characters that is an operator word;
   * `afterWord` says that t continues a run begun before it (so its first run is
   * not maximal).
   */
  function MarkRuns(t: string, afterWord: bool): string
    decreases |t|
  {
    if t == [] then []
    else if !IsWordChar(t[0]) then [t[0]] + MarkRuns(t[1..], false)
    else
      var n := RunLength(t);
      (if !afterWord && IsOperator(t[..n]) then "$" else "") + t[..n] + MarkRuns(t[n..], true)
  }

  lemma {:induction false} RunLengthAfterWords(a: string, b: string)
    requires AllWordChars(a)
    ensures RunLength(a + b) == |a| + RunLength(b)
  {
    if a != [] {
      assert (a + b)[0] == a[0];
      assert (a + b)[1..] == a[1..] + b;
      assert AllWordChars(a[1..]) by {
        forall k | 0 <= k < |a| - 1 ensures IsWordChar(a[1..][k]) { assert a[1..][k] == a[k + 1]; }
      }
      RunLengthAfterWords(a[1..], b);
    } else {
      assert a + b == b;
    }
  }

  lemma OperatorsAreAlternatives(w: string)
    ensures IsOperator(w) <==> w in Alternatives
    ensures IsOperator(w) ==> |w| >= 2 && AllWordChars(w) && (w[0] == 'g' || w[0] == 'l' || w[0] == 'i')
  {
  }

  /** No alternative can match where the text does not start a word. */
  lemma NoMatchAtNonWord(s: string, i: nat)
    requires i < |s| && !IsWordChar(s[i])
    ensures Match(s, i).None?
  {
    forall w | w in Alternatives ensures !MatchesAt(s, i, w) {
      OperatorsAreAlternatives(w);
      if i + |w| <= |s| {
        assert s[i..i + |w|][0] == s[i];
      }
    }
  }

  lemma NoMatchWithoutBoundary(s: string, i: nat)
    requires !BoundaryAt(s, i)
    ensures Match(s, i).None?
  {
  }

  /** A matching alternative is exactly the maximal run that starts at i. */
  lemma MatchIsRun(s: string, i: nat, w: string)
    requires i < |s|
    requires w in Alternatives && MatchesAt(s, i, w)
    ensures w == s[i..i + RunLength(s[i..])]
  {
    OperatorsAreAlternatives(w);
    var rest := s[i + |w|..];
    assert s[i..] == w + rest;
    assert s[i + |w| - 1] == w[|w| - 1];
    assert rest != [] ==> rest[0] == s[i + |w|];
    RunLengthAfterWords(w, rest);
  }

  lemma NoMatchOnOtherRun(s: string, i: nat)
    requires i < |s| && !IsOperator(s[i..i + RunLength(s[i..])])
    ensures Match(s, i).None?
  {
    forall w | w in Alternatives ensures !MatchesAt(s, i, w) {
      OperatorsAreAlternatives(w);
      if MatchesAt(s, i, w) {
        MatchIsRun(s, i, w);
      }
    }
  }

  lemma ReplaceStepCopy(s: string, i: nat)
    requires i < |s| && Match(s, i).None?
    ensures ReplaceFrom(s, i) == [s[i]] + ReplaceFrom(s, i + 1)
  {
  }

  lemma ReplaceStepMatch(s: string, i: nat, w: string)
    requires i < |s| && Match(s, i) == Some(w)
    ensures i + |w| <= |s|
    ensures ReplaceFrom(s, i) == "$" + w + ReplaceFrom(s, i + |w|)
  {
  }

  /** Inside a run, the scan copies characters until the run ends. */
  lemma {:induction false} ScanInsideRun(s: string, j: nat, e: nat)
    requires 0 < j <= e <= |s|
    requires forall k :: j - 1 <= k < e ==> IsWordChar(s[k])
    ensures ReplaceFrom(s, j) == s[j..e] + ReplaceFrom(s, e)
    decreases e - j
  {
    if j < e {
      NoMatchWithoutBoundary(s, j);
      ReplaceStepCopy(s, j);
      ScanInsideRun(s, j + 1, e);
      SliceCons(s, j, e);
      Chain([s[j]], s[j + 1..e], s[j..e], ReplaceFrom(s, e), ReplaceFrom(s, j + 1), ReplaceFrom(s, j));
    }
  }

  lemma MarkRunsOnOther(t: string, afterWord: bool)
    requires t != [] && !IsWordChar(t[0])
    ensures MarkRuns(t, afterWord) == [t[0]] + MarkRuns(t[1..], false)
  {
  }

  /** The scan from i is MarkRuns on the rest of the text. */
  lemma {:induction false} ReplaceFromIsMarkRuns(s: string, i: nat)
    requires i <= |s|
    ensures ReplaceFrom(s, i) == MarkRuns(s[i..], WordAt(s, i - 1))
    decreases |s| - i
  {
    if i == |s| {
      assert s[i..] == [];
    } else if !IsWordChar(s[i]) {
      NoMatchAtNonWord(s, i);
      ReplaceStepCopy(s, i);
      ReplaceFromIsMarkRuns(s, i + 1);
      MarkRunsOnOther(s[i..], WordAt(s, i - 1));
      assert s[i..][1..] == s[i + 1..];
    } else {
      ReplaceFromWord(s, i);
    }
  }

  lemma {:induction false} ReplaceFromWord(s: string, i: nat)
    requires i < |s| && IsWordChar(s[i])
    ensures ReplaceFrom(s, i) == MarkRuns(s[i..], WordAt(s, i - 1))
    decreases |s| - i, 0
  {
    var t := s[i..];
    var n := RunLength(t);
    var e := i + n;
    var mark: string := if !WordAt(s, i - 1) && IsOperator(s[i..e]) then "$" else "";
    RunFacts(s, i, e);
    ReplaceOverRun(s, i, e, mark);
    ReplaceFromIsMarkRuns(s, e);
    MarkRunsOverRun(s, i, e, mark);
    SameTail(mark + s[i..e], ReplaceFrom(s, e), MarkRuns(s[e..], true), ReplaceFrom(s, i), MarkRuns(t, WordAt(s, i - 1)));
  }

  /** The maximal run s[i..e] that starts at i: not empty, all word characters, not followed by one. */
  lemma RunFacts(s: string, i: nat, e: nat)
    requires i < |s| && IsWordChar(s[i])
    requires e == i + RunLength(s[i..])
    ensures i < e <= |s| && WordAt(s, e - 1) && !WordAt(s, e)
    ensures forall k :: i <= k < e ==> IsWordChar(s[k])
    ensures s[i..] != [] && s[i..][0] == s[i]
    ensures s[i..][..e - i] == s[i..e] && s[i..][e - i..] == s[e..]
  {
    var t := s[i..];
    var n := RunLength(t);
    assert s[e - 1] == t[n - 1];
    if e < |s| {
      assert s[e] == t[n];
    }
    forall k | i <= k < e ensures IsWordChar(s[k]) {
      assert s[k] == t[k - i];
    }
  }

  /** x = p + u and y = p + v with u = v give x = y. */
  lemma SameTail(p: string, u: string, v: string, x: string, y: string)
    requires x == p + u && y == p + v && u == v
    ensures x == y
  {
  }

  /** MarkRuns over one whole run starting at i. */
  lemma MarkRunsOverRun(s: string, i: nat, e: nat, mark: string)
    requires i < |s| && IsWordChar(s[i])
    requires e == i + RunLength(s[i..])
    requires mark == if !WordAt(s, i - 1) && IsOperator(s[i..e]) then "$" else ""
    ensures MarkRuns(s[i..], WordAt(s, i - 1)) == mark + s[i..e] + MarkRuns(s[e..], true)
  {
    RunFacts(s, i, e);
    MarkRunsWordStep(s[i..], WordAt(s, i - 1), e - i, s[i..e], s[e..]);
  }

  /** The scan over one whole run starting at i. */
  lemma ReplaceOverRun(s: string, i: nat, e: nat, mark: string)
    requires i < |s| && IsWordChar(s[i])
    requires e == i + RunLength(s[i..])
    requires mark == if !WordAt(s, i - 1) && IsOperator(s[i..e]) then "$" else ""
    ensures e <= |s|
    ensures ReplaceFrom(s, i) == mark + s[i..e] + ReplaceFrom(s, e)
  {
    if !WordAt(s, i - 1) && IsOperator(s[i..e]) {
      ReplaceOnOperatorRun(s, i, e);
    } else {
      ReplaceOnPlainRun(s, i, e);
      EmptyMark(mark, s[i..e], ReplaceFrom(s, e));
    }
  }

  lemma EmptyMark(mark: string, x: string, y: string)
    requires mark == ""
    ensures mark + x + y == x + y
  {
    assert mark + x == x;
  }

  lemma ReplaceOnOperatorRun(s: string, i: nat, e: nat)
    requires i < |s| && IsWordChar(s[i]) && !WordAt(s, i - 1)
    requires e == i + RunLength(s[i..]) && IsOperator(s[i..e])
    ensures ReplaceFrom(s, i) == "$" + s[i..e] + ReplaceFrom(s, e)
  {
    OperatorRunMatches(s, i, e);
    ReplaceStepMatch(s, i, s[i..e]);
  }

  /** At the start of a maximal run that is an operator word, the pattern matches the whole run. */
  lemma OperatorRunMatches(s: string, i: nat, e: nat)
    requires i < |s| && IsWordChar(s[i]) && !WordAt(s, i - 1)
    requires e == i + RunLength(s[i..]) && IsOperator(s[i..e])
    ensures Match(s, i) == Some(s[i..e])
  {
    RunFacts(s, i, e);
    var w := s[i..e];
    OperatorsAreAlternatives(w);
    assert MatchesAt(s, i, w);
    MatchIsRun(s, i, Match(s, i).value);
  }

  lemma ReplaceOnPlainRun(s: string, i: nat, e: nat)
    requires i < |s| && IsWordChar(s[i])
    requires e == i + RunLength(s[i..])
    requires WordAt(s, i - 1) || !IsOperator(s[i..e])
    ensures ReplaceFrom(s, i) == s[i..e] + ReplaceFrom(s, e)
  {
    RunFacts(s, i, e);
    if WordAt(s, i - 1) {
      NoMatchWithoutBoundary(s, i);
    } else {
      NoMatchOnOtherRun(s, i);
    }
    CopyRun(s, i, e);
  }

  /** Where nothing matches at the start of a run, the scan copies the whole run. */
  lemma CopyRun(s: string, i: nat, e: nat)
    requires i < e <= |s|
    requires forall k :: i <= k < e ==> IsWordChar(s[k])
    requires Match(s, i).None?
    ensures ReplaceFrom(s, i) == s[i..e] + ReplaceFrom(s, e)
  {
    ReplaceStepCopy(s, i);
    ScanInsideRun(s, i + 1, e);
    SliceCons(s, i, e);
    Chain([s[i]], s[i + 1..e], s[i..e], ReplaceFrom(s, e), ReplaceFrom(s, i + 1), ReplaceFrom(s, i));
  }

  lemma SliceCons(s: string, i: nat, e: nat)
    requires i < e <= |s|
    ensures s[i..e] == [s[i]] + s[i + 1..e]
  {
  }

  /** x = p + y and y = q + z give x = (p + q) + z. */
  lemma Chain(p: string, q: string, pq: string, z: string, y: string, x: string)
    requires pq == p + q && y == q + z && x == p + y
    ensures x == pq + z
  {
    AppendAssoc(p, q, z);
  }

  /** The regular-expression replacement is "put `$` before every operator run". */
  lemma ReplaceOperatorsIsMarkRuns(s: string)
    ensures ReplaceOperators(s) == MarkRuns(s, false)
  {
    ReplaceFromIsMarkRuns(s, 0);
    assert s[0..] == s;
  }

  // ---------------------------------------------------------------------------
  // What the replacement does to one field of the serialised object

  /**
   * The rewrite of one property name or value: `$` before every maximal run of
   * word characters that is an operator word, except a run that directly
   * follows a control character (`glued`), whose JSON escape ends in a word
   * character and so extends the run in the serialised text.
   */
  function RewriteField(s: string, glued: bool): string
    decreases |s|
  {
    if s == [] then []
    else if !IsWordChar(s[0]) then [s[0]] + RewriteField(s[1..], IsControl(s[0]))
    else
      var n := RunLength(s);
      (if !glued && IsOperator(s[..n]) then "$" else "") + s[..n] + RewriteField(s[n..], false)
  }

  /** Every name and value of the object rewritten. */
  function RewriteFields(o: seq<(string, string)>): (r: seq<(string, string)>)
    ensures |r| == |o|
    ensures forall i :: 0 <= i < |o| ==> r[i] == (RewriteField(o[i].0, false), RewriteField(o[i].1, false))
  {
    if o == [] then [] else [(RewriteField(o[0].0, false), RewriteField(o[0].1, false))] + RewriteFields(o[1..])
  }

  lemma {:induction false} RunLengthBeforeNonWord(a: string, b: string)
    requires b == [] || !IsWordChar(b[0])
    ensures RunLength(a + b) == RunLength(a)
  {
    if a != [] {
      assert (a + b)[0] == a[0];
      if IsWordChar(a[0]) {
        assert (a + b)[1..] == a[1..] + b;
        RunLengthBeforeNonWord(a[1..], b);
      }
    } else {
      assert a + b == b;
    }
  }

  /** A character that ends every run splits MarkRuns in two. */
  lemma {:induction false} MarkRunsSplit(a: string, b: string, g: bool)
    requires b == [] || !IsWordChar(b[0])
    ensures MarkRuns(a + b, g) == MarkRuns(a, g) + MarkRuns(b, false)
    decreases |a|
  {
    if a == [] {
      assert a + b == b;
      if b != [] {
        MarkRunsOnOther(b, g);
        MarkRunsOnOther(b, false);
      }
    } else if !IsWordChar(a[0]) {
      MarkRunsSplit(a[1..], b, false);
      SplitAfterOther(a, b, g);
    } else {
      MarkRunsSplit(a[RunLength(a)..], b, true);
      SplitAfterRun(a, b, g);
    }
  }

  lemma SplitAfterOther(a: string, b: string, g: bool)
    requires a != [] && !IsWordChar(a[0])
    requires MarkRuns(a[1..] + b, false) == MarkRuns(a[1..], false) + MarkRuns(b, false)
    ensures MarkRuns(a + b, g) == MarkRuns(a, g) + MarkRuns(b, false)
  {
    HeadTailAppend(a, b);
    MarkRunsOnOther(a + b, g);
    MarkRunsOnOther(a, g);
    Chain([a[0]], MarkRuns(a[1..], false), MarkRuns(a, g), MarkRuns(b, false), MarkRuns(a[1..] + b, false), MarkRuns(a + b, g));
  }

  lemma HeadTailAppend(a: string, b: string)
    requires a != []
    ensures (a + b)[0] == a[0] && (a + b)[1..] == a[1..] + b
  {
  }

  lemma SplitAfterRun(a: string, b: string, g: bool)
    requires a != [] && IsWordChar(a[0])
    requires b == [] || !IsWordChar(b[0])
    requires MarkRuns(a[RunLength(a)..] + b, true) == MarkRuns(a[RunLength(a)..], true) + MarkRuns(b, false)
    ensures MarkRuns(a + b, g) == MarkRuns(a, g) + MarkRuns(b, false)
  {
    var n := RunLength(a);
    RunLengthBeforeNonWord(a, b);
    var w := a[..n];
    PrefixAppend(a, b, n);
    MarkRunsWordStep(a + b, g, n, w, a[n..] + b);
    MarkRunsWordStep(a, g, n, w, a[n..]);
    var mark: string := if !g && IsOperator(w) then "$" else "";
    Chain(mark + w, MarkRuns(a[n..], true), MarkRuns(a, g), MarkRuns(b, false), MarkRuns(a[n..] + b, true), MarkRuns(a + b, g));
  }

  lemma PrefixAppend(a: string, b: string, n: nat)
    requires 0 < n <= |a|
    ensures (a + b)[0] == a[0] && (a + b)[..n] == a[..n] && (a + b)[n..] == a[n..] + b
  {
  }

  lemma AppendAssoc(p: string, x: string, y: string)
    ensures p + (x + y) == (p + x) + y
  {
  }

  lemma MarkRunsWordStep(t: string, g: bool, n: nat, w: string, rest: string)
    requires t != [] && IsWordChar(t[0]) && RunLength(t) == n
    requires t[..n] == w && t[n..] == rest
    ensures MarkRuns(t, g) == (if !g && IsOperator(w) then "$" else "") + w + MarkRuns(rest, true)
    ensures !(!g && IsOperator(w)) ==> MarkRuns(t, g) == w + MarkRuns(rest, true)
  {
    assert "" + w == w;
  }

  /** Text without word characters passes unchanged and ends any run. */
  lemma {:induction false} MarkRunsAfterNonWords(p: string, x: string, g: bool)
    requires p != [] && forall k :: 0 <= k < |p| ==> !IsWordChar(p[k])
    ensures MarkRuns(p + x, g) == p + MarkRuns(x, false)
    decreases |p|
  {
    assert (p + x)[1..] == p[1..] + x;
    MarkRunsOnOther(p + x, g);
    if |p| > 1 {
      MarkRunsAfterNonWords(p[1..], x, false);
    } else {
      assert p[1..] + x == x;
    }
    assert p == [p[0]] + p[1..];
  }

  /** A run that starts with a letter other than g, l, i is never an operator word, whatever follows it. */
  lemma GlueAfterWordPrefix(l: string, x: string)
    requires l != [] && AllWordChars(l) && l[0] != 'g' && l[0] != 'l' && l[0] != 'i'
    ensures MarkRuns(l + x, false) == l + MarkRuns(x, true)
  {
    var m := RunLength(x);
    GlueRun(l, x);
    MarkRunsContinued(x);
    AppendAssoc(l, x[..m], MarkRuns(x[m..], true));
  }

  lemma GlueRun(l: string, x: string)
    requires l != [] && AllWordChars(l) && l[0] != 'g' && l[0] != 'l' && l[0] != 'i'
    ensures var m := RunLength(x); MarkRuns(l + x, false) == (l + x[..m]) + MarkRuns(x[m..], true)
  {
    var m := RunLength(x);
    GlueFacts(l, x);
    MarkRunsWordStep(l + x, false, |l| + m, l + x[..m], x[m..]);
  }

  /** l + x starts with the run l + x[..m], which is not an operator word. */
  lemma GlueFacts(l: string, x: string)
    requires l != [] && AllWordChars(l) && l[0] != 'g' && l[0] != 'l' && l[0] != 'i'
    ensures var m := RunLength(x); var t := l + x;
      t != [] && IsWordChar(t[0]) && RunLength(t) == |l| + m
      && t[..|l| + m] == l + x[..m] && t[|l| + m..] == x[m..] && !IsOperator(l + x[..m])
  {
    var m := RunLength(x);
    RunLengthAfterWords(l, x);
    AppendSlices(l, x, m);
    NotOperator(l + x[..m]);
  }

  lemma AppendSlices(l: string, x: string, m: nat)
    requires l != [] && m <= |x|
    ensures (l + x)[0] == l[0] && (l + x[..m])[0] == l[0]
    ensures (l + x)[..|l| + m] == l + x[..m] && (l + x)[|l| + m..] == x[m..]
  {
  }

  lemma NotOperator(w: string)
    requires w != [] && w[0] != 'g' && w[0] != 'l' && w[0] != 'i'
    ensures !IsOperator(w)
  {
    OperatorsAreAlternatives(w);
  }

  /** Continuing a run: its first run is copied without `$`. */
  lemma MarkRunsContinued(x: string)
    ensures var m := RunLength(x); MarkRuns(x, true) == x[..m] + MarkRuns(x[m..], true)
  {
    var m := RunLength(x);
    if x != [] && IsWordChar(x[0]) {
      MarkRunsWordStep(x, true, m, x[..m], x[m..]);
    } else {
      assert x[..m] == [] && x[m..] == x;
    }
  }

  /** The shape of each escape, as far as word characters go. */
  lemma EscapeCharWords(c: char)
    ensures IsWordChar(c) || c == '$' ==> EscapeChar(c) == [c]
    ensures !IsWordChar(c) && !IsControl(c) ==>
      forall k :: 0 <= k < |EscapeChar(c)| ==> !IsWordChar(EscapeChar(c)[k])
    ensures IsControl(c) ==>
      var e := EscapeChar(c);
      |e| >= 2 && e[0] == '\\' && AllWordChars(e[1..]) && e[1] != 'g' && e[1] != 'l' && e[1] != 'i'
  {
    if IsControl(c) {
      var e := EscapeChar(c);
      if c != '\U{8}' && c != '\t' && c != '\n' && c != '\U{C}' && c != '\r' {
        assert e[1..] == "u00" + [HexDigit(c as int / 16), HexDigit(c as int % 16)];
      }
    }
  }

  lemma {:induction false} EscapeWords(w: string)
    requires forall k :: 0 <= k < |w| ==> IsWordChar(w[k]) || w[k] == '$'
    ensures Escape(w) == w
  {
    if w != [] {
      EscapeCharWords(w[0]);
      EscapeWords(w[1..]);
      assert w == [w[0]] + w[1..];
    }
  }

  lemma EscapeCons(c: char, r: string)
    ensures Escape([c] + r) == EscapeChar(c) + Escape(r)
  {
    assert ([c] + r)[0] == c;
    assert ([c] + r)[1..] == r;
  }

  /** The serialised field, after the replacement, is the serialised rewritten field. */
  lemma {:induction false} EscapeRewrite(s: string, g: bool)
    ensures MarkRuns(Escape(s), g) == Escape(RewriteField(s, g))
    decreases |s|
  {
    if s == [] {
    } else if IsControl(s[0]) {
      EscapeRewrite(s[1..], true);
      EscapeRewriteControl(s, g);
    } else if !IsWordChar(s[0]) {
      EscapeRewrite(s[1..], false);
      EscapeRewriteOther(s, g);
    } else {
      EscapeRewrite(s[RunLength(s)..], false);
      EscapeRewriteRun(s, g);
    }
  }

  lemma EscapeRewriteOther(s: string, g: bool)
    requires s != [] && !IsWordChar(s[0]) && !IsControl(s[0])
    requires MarkRuns(Escape(s[1..]), false) == Escape(RewriteField(s[1..], false))
    ensures MarkRuns(Escape(s), g) == Escape(RewriteField(s, g))
  {
    var e := EscapeChar(s[0]);
    EscapeCharWords(s[0]);
    MarkRunsAfterNonWords(e, Escape(s[1..]), g);
    EscapeCons(s[0], RewriteField(s[1..], false));
  }

  lemma EscapeRewriteControl(s: string, g: bool)
    requires s != [] && IsControl(s[0])
    requires MarkRuns(Escape(s[1..]), true) == Escape(RewriteField(s[1..], true))
    ensures MarkRuns(Escape(s), g) == Escape(RewriteField(s, g))
  {
    var e := EscapeChar(s[0]);
    var x := Escape(s[1..]);
    EscapeCharWords(s[0]);
    var l := e[1..];
    assert e == "\\" + l;
    AppendAssoc("\\", l, x);
    MarkRunsAfterNonWords("\\", l + x, g);
    GlueAfterWordPrefix(l, x);
    AppendAssoc("\\", l, MarkRuns(x, true));
    EscapeCons(s[0], RewriteField(s[1..], true));
  }

  lemma EscapeRewriteRun(s: string, g: bool)
    requires s != [] && IsWordChar(s[0])
    requires MarkRuns(Escape(s[RunLength(s)..]), false) == Escape(RewriteField(s[RunLength(s)..], false))
    ensures MarkRuns(Escape(s), g) == Escape(RewriteField(s, g))
  {
    var n := RunLength(s);
    var w := s[..n];
    EscapeOfRun(s);
    MarkRunsSplit(w, Escape(s[n..]), g);
    MarkRunsOfRun(w, g);
    EscapeMarkedRun(s, g);
  }

  /** Escaping leaves a run of word characters alone and ends with it. */
  lemma EscapeOfRun(s: string)
    requires s != [] && IsWordChar(s[0])
    ensures var n := RunLength(s); var y := Escape(s[n..]);
      Escape(s) == s[..n] + y && (y == [] || !IsWordChar(y[0]))
  {
    var n := RunLength(s);
    assert s == s[..n] + s[n..];
    EscapeAppend(s[..n], s[n..]);
    EscapeWords(s[..n]);
    if n < |s| {
      EscapeCharWords(s[n]);
      assert Escape(s[n..]) == EscapeChar(s[n]) + Escape(s[n + 1..]);
    }
  }

  /** A whole run on its own is marked exactly when it is an operator word that starts a run. */
  lemma MarkRunsOfRun(w: string, g: bool)
    requires w != [] && AllWordChars(w)
    ensures MarkRuns(w, g) == (if !g && IsOperator(w) then "$" else "") + w
  {
    RunLengthAfterWords(w, []);
    assert w + [] == w;
    MarkRunsWordStep(w, g, |w|, w, []);
  }

  lemma EscapeMarkedRun(s: string, g: bool)
    requires s != [] && IsWordChar(s[0])
    ensures var n := RunLength(s);
      Escape(RewriteField(s, g))
      == (if !g && IsOperator(s[..n]) then "$" else "") + s[..n] + Escape(RewriteField(s[n..], false))
  {
    var n := RunLength(s);
    var mark: string := if !g && IsOperator(s[..n]) then "$" else "";
    var rest := RewriteField(s[n..], false);
    assert RewriteField(s, g) == (mark + s[..n]) + rest;
    EscapeAppend(mark + s[..n], rest);
    EscapeWords(mark + s[..n]);
  }

  lemma QuoteRewrite(s: string)
    ensures MarkRuns(Quote(s), false) == Quote(RewriteField(s, false))
  {
    var e := Escape(s);
    assert Quote(s) == "\"" + (e + "\"");
    MarkRunsAfterNonWords("\"", e + "\"", false);
    MarkRunsSplit(e, "\"", false);
    MarkRunsAfterNonWords("\"", [], false);
    assert "\"" + [] == "\"";
    EscapeRewrite(s, false);
  }

  lemma MemberRewrite(k: string, v: string)
    ensures MarkRuns(MemberText(k, v), false) == MemberText(RewriteField(k, false), RewriteField(v, false))
  {
    var qk, qv := Quote(k), Quote(v);
    AppendAssoc(qk, ":", qv);
    assert (":" + qv)[0] == ':';
    MarkRunsSplit(qk, ":" + qv, false);
    MarkRunsAfterNonWords(":", qv, false);
    QuoteRewrite(k);
    QuoteRewrite(v);
    AppendAssoc(Quote(RewriteField(k, false)), ":", Quote(RewriteField(v, false)));
  }

  lemma {:induction false} MembersRewrite(o: seq<(string, string)>)
    ensures MarkRuns(MembersText(o), false) == MembersText(RewriteFields(o))
    decreases |o|
  {
    if |o| == 1 {
      MemberRewrite(o[0].0, o[0].1);
    } else if |o| > 1 {
      var r := RewriteFields(o);
      var m := MemberText(o[0].0, o[0].1);
      var tail := MembersText(o[1..]);
      MembersCons(o);
      MembersCons(r);
      assert r[1..] == RewriteFields(o[1..]);
      MarkRunsSplit(m, "," + tail, false);
      MarkRunsAfterNonWords(",", tail, false);
      MemberRewrite(o[0].0, o[0].1);
      MembersRewrite(o[1..]);
    }
  }

  /** Two or more members: the first, a comma, the rest. */
  lemma MembersCons(o: seq<(string, string)>)
    requires |o| >= 2
    ensures MembersText(o) == MemberText(o[0].0, o[0].1) + ("," + MembersText(o[1..]))
    ensures ("," + MembersText(o[1..]))[0] == ','
  {
    AppendAssoc(MemberText(o[0].0, o[0].1), ",", MembersText(o[1..]));
  }

  /** The replacement on the serialised object is the serialisation of the rewritten object. */
  lemma StringifyRewrite(o: seq<(string, string)>)
    ensures ReplaceOperators(Stringify(o)) == Stringify(RewriteFields(o))
  {
    var m := MembersText(o);
    ReplaceOperatorsIsMarkRuns(Stringify(o));
    assert Stringify(o) == "{" + (m + "}");
    MarkRunsAfterNonWords("{", m + "}", false);
    MarkRunsSplit(m, "}", false);
    MarkRunsAfterNonWords("}", [], false);
    assert "}" + [] == "}";
    MembersRewrite(o);
  }

  // ---------------------------------------------------------------------------
  // Nothing is lost: the inserted `$` can be taken out again

  /** t starts with a whole run that is an operator word. */
  predicate StartsWithOperator(t: string) {
    t != [] && IsWordChar(t[0]) && IsOperator(t[..RunLength(t)])
  }

  /** Takes out every `$` that RewriteField inserted, and only those. */
  function Unmark(t: string, glued: bool): string
    decreases |t|
  {
    if t == [] then []
    else if t[0] == '$' && !glued && StartsWithOperator(t[1..]) then Unmark(t[1..], false)
    else if !IsWordChar(t[0]) then [t[0]] + Unmark(t[1..], IsControl(t[0]))
    else
      var n := RunLength(t);
      t[..n] + Unmark(t[n..], false)
  }

  /** The rewrite of text that starts with a non-word character starts with that character. */
  lemma RewriteFieldHead(s: string, g: bool)
    ensures s == [] ==> RewriteField(s, g) == []
    ensures s != [] && !IsWordChar(s[0]) ==> RewriteField(s, g) != [] && RewriteField(s, g)[0] == s[0]
  {
  }

  /** After a run the rewrite continues with a character that is not a word character. */
  lemma RewriteAfterRun(s: string)
    requires s != [] && IsWordChar(s[0])
    ensures var r := RewriteField(s[RunLength(s)..], false); r == [] || !IsWordChar(r[0])
  {
    RewriteFieldHead(s[RunLength(s)..], false);
  }

  /** A run with a non-word character (or nothing) after it keeps its length. */
  lemma RunOfRunThenOther(w: string, r: string)
    requires w != [] && AllWordChars(w)
    requires r == [] || !IsWordChar(r[0])
    ensures RunLength(w + r) == |w| && (w + r)[..|w|] == w
  {
    RunLengthBeforeNonWord(w, r);
    RunLengthAfterWords(w, []);
    assert w + [] == w;
  }

  /** The rewrite of a field never starts with a bare operator word. */
  lemma NoBareOperator(s: string)
    ensures !StartsWithOperator(RewriteField(s, false))
  {
    if s == [] || !IsWordChar(s[0]) {
      RewriteFieldHead(s, false);
    } else {
      var n := RunLength(s);
      var r := RewriteField(s[n..], false);
      RewriteFieldOfRun(s, false);
      if IsOperator(s[..n]) {
        assert ("$" + (s[..n] + r))[0] == '$';
      } else {
        RewriteAfterRun(s);
        RunOfRunThenOther(s[..n], r);
      }
    }
  }

  lemma {:induction false} UnmarkRewrite(s: string, g: bool)
    ensures Unmark(RewriteField(s, g), g) == s
    decreases |s|
  {
    if s == [] {
    } else if !IsWordChar(s[0]) {
      UnmarkRewrite(s[1..], IsControl(s[0]));
      UnmarkOther(s, g);
    } else {
      UnmarkRewrite(s[RunLength(s)..], false);
      UnmarkRun(s, g);
    }
  }

  lemma UnmarkOther(s: string, g: bool)
    requires s != [] && !IsWordChar(s[0])
    requires Unmark(RewriteField(s[1..], IsControl(s[0])), IsControl(s[0])) == s[1..]
    ensures Unmark(RewriteField(s, g), g) == s
  {
    var x := RewriteField(s[1..], IsControl(s[0]));
    NoBareOperator(s[1..]);
    assert ([s[0]] + x)[1..] == x;
    assert [s[0]] + s[1..] == s;
  }

  lemma UnmarkRun(s: string, g: bool)
    requires s != [] && IsWordChar(s[0])
    requires Unmark(RewriteField(s[RunLength(s)..], false), false) == s[RunLength(s)..]
    ensures Unmark(RewriteField(s, g), g) == s
  {
    var n := RunLength(s);
    var w := s[..n];
    var r := RewriteField(s[n..], false);
    RewriteAfterRun(s);
    RunOfRunThenOther(w, r);
    UnmarkRunStep(w, r);
    RewriteFieldOfRun(s, g);
    if !g && IsOperator(w) {
      UnmarkMarkedRun(w, r);
    }
    SliceSplit(s, n);
  }

  lemma SliceSplit(s: string, n: nat)
    requires n <= |s|
    ensures s[..n] + s[n..] == s
  {
  }

  lemma RewriteFieldOfRun(s: string, g: bool)
    requires s != [] && IsWordChar(s[0])
    ensures var n := RunLength(s); var w := s[..n]; var r := RewriteField(s[n..], false);
      RewriteField(s, g) == if !g && IsOperator(w) then "$" + (w + r) else w + r
  {
    var n := RunLength(s);
    AppendAssoc("$", s[..n], RewriteField(s[n..], false));
  }

  lemma UnmarkMarkedRun(w: string, r: string)
    requires w != [] && IsOperator(w) && RunLength(w + r) == |w| && (w + r)[..|w|] == w
    ensures Unmark("$" + (w + r), false) == Unmark(w + r, false)
  {
    assert ("$" + (w + r))[1..] == w + r;
    assert (w + r)[0] == w[0];
  }

  lemma UnmarkRunStep(w: string, r: string)
    requires w != [] && AllWordChars(w) && RunLength(w + r) == |w| && (w + r)[..|w|] == w
    ensures Unmark(w + r, false) == w + Unmark(r, false)
  {
    assert (w + r)[0] == w[0];
    assert (w + r)[|w|..] == r;
  }

  /** Two different names or values never become the same text. */
  lemma RewriteFieldInjective(a: string, b: string)
    requires RewriteField(a, false) == RewriteField(b, false)
    ensures a == b
  {
    UnmarkRewrite(a, false);
    UnmarkRewrite(b, false);
  }

  lemma {:induction false} RewriteFieldsDistinct(o: seq<(string, string)>)
    requires DistinctKeys(o)
    ensures DistinctKeys(RewriteFields(o))
    decreases |o|
  {
    if o != [] {
      var r := RewriteFields(o);
      assert r[1..] == RewriteFields(o[1..]);
      forall i | 0 <= i < |r| - 1 ensures r[1..][i].0 != r[0].0 {
        assert o[1..][i].0 != o[0].0;
        if r[1..][i].0 == r[0].0 {
          RewriteFieldInjective(o[1..][i].0, o[0].0);
        }
      }
      RewriteFieldsDistinct(o[1..]);
    }
  }

  /** A single word that is not an operator is left as it is. */
  lemma RewritePlainWord(w: string)
    requires w != [] && AllWordChars(w) && !IsOperator(w)
    ensures RewriteField(w, false) == w
  {
    RunLengthAfterWords(w, []);
    assert w + [] == w;
    assert w[..|w|] == w && w[|w|..] == [];
  }

  /** The rewrite of a non-empty text is not empty. */
  lemma RewriteFieldNonEmpty(s: string, g: bool)
    ensures RewriteField(s, g) == [] <==> s == []
  {
    if s != [] && IsWordChar(s[0]) {
      RewriteFieldOfRun(s, g);
    }
  }

  /** Looking a rewritten name up in the rewritten object finds the rewritten value. */
  lemma {:induction false} RewriteFieldsLookup(o: seq<(string, string)>, k: string)
    ensures Lookup(RewriteFields(o), RewriteField(k, false))
      == match Lookup(o, k) case None => None case Some(v) => Some(RewriteField(v, false))
    decreases |o|
  {
    if o != [] {
      var r := RewriteFields(o);
      assert r[1..] == RewriteFields(o[1..]);
      if o[0].0 != k && r[0].0 == RewriteField(k, false) {
        RewriteFieldInjective(o[0].0, k);
      }
      RewriteFieldsLookup(o[1..], k);
    }
  }

  /**
   * The filter object after the rewrite: stringify, replace and parse give the
   * query object with every name and value rewritten.
   */
  lemma RewriteQuery(o: seq<(string, string)>)
    requires DistinctKeys(o)
    ensures ParseObject(ReplaceOperators(Stringify(o))) == Some(RewriteFields(o))
  {
    StringifyRewrite(o);
    RewriteFieldsDistinct(o);
    ParseStringify(RewriteFields(o));
  }
}
