/**
 * Turning the operator's raw line into identifiers and colour tags. Two input forms exist:
 * the colour-tagged form `COLOR 'QR' COLOR 'QR' ...`, read by a leftmost, non-overlapping
 * scan for `TAG\s*'([^']+)'`, and the legacy form `'QR1''QR2''QR3'`, split on `''`.
 */
module InputParser {
  import opened Wrappers
  import opened Text
  import opened Jobs

  // ---------------------------------------------------------------------------
  // The colour-tagged pattern

  /** How the tag in front of a quoted identifier is recognised. */
  datatype TagRule =
    | Keywords(words: seq<string>)   // `(W1|W2|...)` under IGNORECASE, alternatives in order
    | LetterRun                      // `[A-Za-z]+`

  /** One match: the tag as written, and the text between the quotes. */
  datatype Pair = Pair(tag: string, qr: string)

  predicate NotQuote(c: char)
  {
    c != '\''
  }

  /** What a tag matched under `rule` looks like. */
  predicate TagFits(rule: TagRule, tag: string)
  {
    match rule
    case Keywords(words) => Upper(tag) in words
    case LetterRun => tag != [] && forall k | 0 <= k < |tag| :: IsAsciiLetter(tag[k])
  }

  /**
   * `\s*'([^']+)'` at the start of `s`: the identifier and the length of the match.
   * Backtracking cannot help here: giving back a space leaves a space where `'` is needed,
   * and giving back an identifier character leaves a non-quote where `'` is needed.
   */
  function QuotedTail(s: string): (r: Option<(string, nat)>)
    ensures r.Some? ==> r.value.0 != [] && '\'' !in r.value.0 && 0 < r.value.1 <= |s|
  {
    var w := LeadCount(s, IsSpace);
    if w < |s| && s[w] == '\'' then
      var q := LeadCount(s[w + 1..], NotQuote);
      if q >= 1 && w + 1 + q < |s| then
        var qr := s[w + 1..w + 1 + q];
        assert forall k | 0 <= k < q :: qr[k] == s[w + 1..][k];
        Some((qr, w + q + 2))
      else None
    else None
  }

  /** `W\s*'([^']+)'` at the start of `s` for one alternative `W`, ignoring ASCII case. */
  function MatchKeyword(w: string, s: string): Option<(Pair, nat)>
  {
    if |w| <= |s| && Upper(s[..|w|]) == w then
      match QuotedTail(s[|w|..])
      case Some((qr, n)) => Some((Pair(s[..|w|], qr), |w| + n))
      case None => None
    else None
  }

  /** The alternation: the first alternative with which the whole pattern matches. */
  function MatchKeywords(words: seq<string>, s: string): (m: Option<(Pair, nat)>)
    ensures m.Some? ==> Upper(m.value.0.tag) in words && 0 < m.value.1 <= |s|
    ensures m.Some? ==> m.value.0.qr != [] && '\'' !in m.value.0.qr
  {
    if words == [] then None
    else
      var m := MatchKeyword(words[0], s);
      if m.Some? then m else MatchKeywords(words[1..], s)
  }

  /**
   * `[A-Za-z]+\s*'([^']+)'` at the start of `s`. The letter class is greedy, and a shorter
   * run would leave a letter where `\s` or `'` is needed, so only the longest run matters.
   */
  function MatchLetterRun(s: string): Option<(Pair, nat)>
  {
    var n := LeadCount(s, IsAsciiLetter);
    if n == 0 then None
    else
      match QuotedTail(s[n..])
      case Some((qr, k)) => Some((Pair(s[..n], qr), n + k))
      case None => None
  }

  /** The pattern anchored at the start of `s`. */
  function MatchAt(rule: TagRule, s: string): (m: Option<(Pair, nat)>)
    ensures m.Some? ==> 0 < m.value.1 <= |s|
    ensures m.Some? ==> m.value.0.qr != [] && '\'' !in m.value.0.qr && TagFits(rule, m.value.0.tag)
  {
    match rule
    case Keywords(words) => MatchKeywords(words, s)
    case LetterRun =>
      var m := MatchLetterRun(s);
      if m.Some? then
        var n := LeadCount(s, IsAsciiLetter);
        assert m.value.0.tag == s[..n];
        m
      else m
  }

  /**
   * `re.findall`: try the pattern at each position from the left; after a match, resume
   * where it ended. The patterns have no anchors or look-behind, so matching at a position
   * of the whole string is matching at the start of the suffix from there.
   */
  function FindAll(rule: TagRule, s: string): (ps: seq<Pair>)
    ensures forall i | 0 <= i < |ps| ::
      ps[i].qr != [] && '\'' !in ps[i].qr && TagFits(rule, ps[i].tag)
    decreases |s|
  {
    if s == [] then []
    else
      match MatchAt(rule, s)
      case Some((p, n)) => [p] + FindAll(rule, s[n..])
      case None => FindAll(rule, s[1..])
  }

  /** The scan finds nothing exactly when the pattern matches at no position. */
  lemma {:induction false} FindAllEmpty(rule: TagRule, s: string)
    ensures FindAll(rule, s) == [] <==> forall i | 0 <= i <= |s| :: MatchAt(rule, s[i..]).None?
    decreases |s|
  {
    if s != [] {
      FindAllEmpty(rule, s[1..]);
      if MatchAt(rule, s).None? {
        forall i | 1 <= i <= |s|
          ensures s[i..] == s[1..][i - 1..]
        {
        }
        assert s[0..] == s;
      } else {
        assert s[0..] == s;
      }
    }
  }

  // ---------------------------------------------------------------------------
  // Rendering pairs back into the colour-tagged form

  /** A run of whitespace, which `\s*` accepts between a tag and its quoted identifier. */
  ghost predicate IsGap(g: string)
  {
    forall k | 0 <= k < |g| :: IsSpace(g[k])
  }

  /** `TAG<gap>'<qr>'`, the unit the operator types; the gap may be empty. */
  function RenderPair(p: Pair, gap: string): string
  {
    p.tag + gap + "'" + p.qr + "'"
  }

  /** A line of typed pairs, pair `i` typed with gap `gaps[i]`. */
  function RenderPairs(ps: seq<Pair>, gaps: seq<string>): string
    requires |gaps| == |ps|
  {
    if ps == [] then [] else RenderPair(ps[0], gaps[0]) + RenderPairs(ps[1..], gaps[1..])
  }

  /** A rendered pair followed by more text: the tag, then the gap, the quoted part and the rest. */
  lemma RenderPairSplit(tag: string, gap: string, qr: string, rest: string)
    ensures |RenderPair(Pair(tag, qr), gap)| == |tag| + |gap| + |qr| + 2
    ensures var s := RenderPair(Pair(tag, qr), gap) + rest;
      var tail := gap + "'" + qr + "'" + rest;
      s == tag + tail && s[..|tag|] == tag && s[|tag|..] == tail
  {
    var s := RenderPair(Pair(tag, qr), gap) + rest;
    var tail := gap + "'" + qr + "'" + rest;
    assert s == tag + tail;
  }

  /** Whitespace is never a letter, so a gap ends any letter run in front of it. */
  lemma SpaceNotLetter(c: char)
    requires IsSpace(c)
    ensures !IsAsciiLetter(c)
  {
  }

  lemma QuotedTailOf(gap: string, qr: string, rest: string)
    requires IsGap(gap)
    requires qr != [] && '\'' !in qr
    ensures QuotedTail(gap + "'" + qr + "'" + rest) == Some((qr, |gap| + |qr| + 2))
  {
    var s := gap + "'" + qr + "'" + rest;
    forall k | 0 <= k < |gap|
      ensures IsSpace(s[k])
    {
      assert s[k] == gap[k];
    }
    assert s[|gap|] == '\'';
    LeadCountExact(s, IsSpace, |gap|);
    var t := s[|gap| + 1..];
    assert t == qr + "'" + rest;
    forall k | 0 <= k < |qr|
      ensures NotQuote(t[k])
    {
      assert t[k] == qr[k];
    }
    LeadCountExact(t, NotQuote, |qr|);
    assert s[|gap| + 1..|gap| + 1 + |qr|] == qr;
  }

  /** The text after a tag, when it is a gap and a quoted identifier, starts with no letter. */
  lemma TailStartsWithoutLetter(gap: string, qr: string, rest: string)
    requires IsGap(gap)
    ensures var tail := gap + "'" + qr + "'" + rest;
      tail != [] && !IsAsciiLetter(tail[0])
  {
    var tail := gap + "'" + qr + "'" + rest;
    if gap != [] {
      assert tail[0] == gap[0];
      SpaceNotLetter(gap[0]);
    } else {
      assert tail[0] == '\'';
    }
  }

  ghost predicate AllLetters(w: string)
  {
    forall k | 0 <= k < |w| :: IsAsciiLetter(w[k])
  }

  ghost predicate IsUpperWord(w: string)
  {
    w != [] && AllLetters(w) && Upper(w) == w
  }

  ghost predicate IsPrefix(a: string, b: string)
  {
    |a| <= |b| && b[..|a|] == a
  }

  /** No alternative is a prefix of another, so at most one can start a match. */
  ghost predicate PrefixFree(words: seq<string>)
  {
    forall i, j | 0 <= i < |words| && 0 <= j < |words| && i != j :: !IsPrefix(words[i], words[j])
  }

  /** Upper-casing a prefix is the prefix of the upper-cased text. */
  lemma UpperPrefix(s: string, n: nat)
    requires n <= |s|
    ensures Upper(s[..n]) == Upper(s)[..n]
  {
  }

  /**
   * An alternative `w` that is not a prefix of the upper-cased tag fails on a tag followed by
   * a non-letter: either it differs from the tag, ignoring case, or it runs into the non-letter.
   */
  lemma MatchKeywordOther(s: string, w: string, tag: string, rest: string)
    requires s == tag + rest
    requires IsUpperWord(w)
    requires !IsPrefix(w, Upper(tag))
    requires |rest| > 0 && !IsAsciiLetter(rest[0])
    ensures MatchKeyword(w, s).None?
  {
    if |w| <= |tag| {
      assert s[..|w|] == tag[..|w|];
      UpperPrefix(tag, |w|);
    } else if |w| <= |s| {
      assert s[|tag|] == rest[0];
      assert Upper(s[..|w|])[|tag|] == rest[0];
      assert IsAsciiLetter(w[|tag|]);
    }
  }

  lemma PrefixFreeTail(words: seq<string>)
    requires words != [] && PrefixFree(words)
    ensures PrefixFree(words[1..])
  {
    forall a, b | 0 <= a < |words[1..]| && 0 <= b < |words[1..]| && a != b
      ensures !IsPrefix(words[1..][a], words[1..][b])
    {
      assert words[1..][a] == words[a + 1] && words[1..][b] == words[b + 1];
      assert !IsPrefix(words[a + 1], words[b + 1]);
    }
  }

  /**
   * With the text split into a tag that is a keyword in any letter case and a tail that
   * starts with no letter and is a quoted identifier, the alternation finds the tag as
   * typed: the alternatives before it are not prefixes of it, so they fail.
   */
  lemma {:induction false} MatchKeywordsFinds(words: seq<string>, j: nat, s: string, tag: string, tail: string, qr: string, k: nat, n: nat)
    requires j < |words| && words[j] == Upper(tag)
    requires forall i | 0 <= i < |words| :: IsUpperWord(words[i])
    requires PrefixFree(words)
    requires s == tag + tail && s[..|tag|] == tag && s[|tag|..] == tail
    requires tail != [] && !IsAsciiLetter(tail[0])
    requires QuotedTail(tail) == Some((qr, k))
    requires n == |tag| + k
    ensures MatchKeywords(words, s) == Some((Pair(tag, qr), n))
    decreases |words|
  {
    if j == 0 {
      MatchKeywordOn(s, words[0], tag, tail, qr, k, n);
    } else {
      assert !IsPrefix(words[0], words[j]);
      MatchKeywordOther(s, words[0], tag, tail);
      PrefixFreeTail(words);
      assert words[1..][j - 1] == Upper(tag);
      MatchKeywordsFinds(words[1..], j - 1, s, tag, tail, qr, k, n);
    }
  }

  lemma MatchKeywordOn(s: string, w: string, tag: string, tail: string, qr: string, k: nat, n: nat)
    requires s == tag + tail && s[..|tag|] == tag && s[|tag|..] == tail
    requires Upper(tag) == w
    requires QuotedTail(tail) == Some((qr, k))
    requires n == |tag| + k
    ensures MatchKeyword(w, s) == Some((Pair(tag, qr), n))
  {
  }

  /** With the text split into a letter run `tag` and a quoted tail, the greedy run stops at `tag`. */
  lemma MatchLetterRunOn(s: string, tag: string, tail: string, qr: string, k: nat, n: nat)
    requires s == tag + tail && s[..|tag|] == tag && s[|tag|..] == tail
    requires tag != [] && AllLetters(tag)
    requires tail != [] && !IsAsciiLetter(tail[0])
    requires QuotedTail(tail) == Some((qr, k))
    requires n == |tag| + k
    ensures MatchLetterRun(s) == Some((Pair(tag, qr), n))
  {
    LetterRunOf(tag, tail);
  }

  lemma LetterRunOf(tag: string, tail: string)
    requires AllLetters(tag)
    requires tail != [] && !IsAsciiLetter(tail[0])
    ensures LeadCount(tag + tail, IsAsciiLetter) == |tag|
  {
    var s := tag + tail;
    forall k | 0 <= k < |tag|
      ensures IsAsciiLetter(s[k])
    {
      assert s[k] == tag[k];
    }
    assert s[|tag|] == tail[0];
    LeadCountExact(s, IsAsciiLetter, |tag|);
  }

  /**
   * What the operator may type as a tag under `rule`: under the keyword rule, any spelling
   * whose upper-case form is a keyword; under the letter rule, any letter run.
   */
  ghost predicate Renderable(rule: TagRule, p: Pair)
  {
    && p.qr != [] && '\'' !in p.qr
    && match rule
       case Keywords(words) => Upper(p.tag) in words
       case LetterRun => p.tag != [] && AllLetters(p.tag)
  }

  ghost predicate GoodKeywords(rule: TagRule)
  {
    rule.Keywords? ==>
      (forall i | 0 <= i < |rule.words| :: IsUpperWord(rule.words[i])) && PrefixFree(rule.words)
  }

  /** A typed pair matches as that very pair, for its whole length, whatever follows it. */
  lemma MatchAtRendered(rule: TagRule, p: Pair, gap: string, rest: string)
    requires GoodKeywords(rule)
    requires Renderable(rule, p)
    requires IsGap(gap)
    ensures MatchAt(rule, RenderPair(p, gap) + rest) == Some((p, |RenderPair(p, gap)|))
  {
    var s := RenderPair(p, gap) + rest;
    var tail := gap + "'" + p.qr + "'" + rest;
    RenderPairSplit(p.tag, gap, p.qr, rest);
    QuotedTailOf(gap, p.qr, rest);
    TailStartsWithoutLetter(gap, p.qr, rest);
    var k := |gap| + |p.qr| + 2;
    if rule.Keywords? {
      var j :| 0 <= j < |rule.words| && rule.words[j] == Upper(p.tag);
      MatchKeywordsFinds(rule.words, j, s, p.tag, tail, p.qr, k, |RenderPair(p, gap)|);
    } else {
      MatchLetterRunOn(s, p.tag, tail, p.qr, k, |RenderPair(p, gap)|);
    }
    assert Pair(p.tag, p.qr) == p;
  }

  /** Scanning a typed line of pairs gives back exactly those pairs, tags as typed. */
  lemma {:induction false} FindAllRenderPairs(rule: TagRule, ps: seq<Pair>, gaps: seq<string>)
    requires GoodKeywords(rule)
    requires |gaps| == |ps|
    requires forall i | 0 <= i < |ps| :: Renderable(rule, ps[i]) && IsGap(gaps[i])
    ensures FindAll(rule, RenderPairs(ps, gaps)) == ps
    decreases |ps|
  {
    if ps != [] {
      var p := ps[0];
      var rest := RenderPairs(ps[1..], gaps[1..]);
      var s := RenderPair(p, gaps[0]) + rest;
      var n := |RenderPair(p, gaps[0])|;
      calc {
        FindAll(rule, RenderPairs(ps, gaps));
        { assert RenderPairs(ps, gaps) == s; }
        FindAll(rule, s);
        { MatchAtRendered(rule, p, gaps[0], rest);
          assert s != [];
          assert FindAll(rule, s) == [p] + FindAll(rule, s[n..]); }
        [p] + FindAll(rule, s[n..]);
        { assert s[n..] == rest; }
        [p] + FindAll(rule, rest);
        { FindAllRenderPairs(rule, ps[1..], gaps[1..]); }
        [p] + ps[1..];
        { HeadTail(ps); }
        ps;
      }
    }
  }

  // ---------------------------------------------------------------------------
  // The legacy form

  /** `raw.split("''")`: cut at each leftmost, non-overlapping `''`. */
  function SplitPairsOfQuotes(s: string): (r: seq<string>)
    ensures |r| >= 1
    decreases |s|
  {
    if |s| < 2 then [s]
    else if s[0] == '\'' && s[1] == '\'' then [[]] + SplitPairsOfQuotes(s[2..])
    else
      var r := SplitPairsOfQuotes(s[1..]);
      [[s[0]] + r[0]] + r[1..]
  }

  /** `"''".join(fs)`. */
  function JoinQuotes(fs: seq<string>): string
    requires |fs| >= 1
  {
    if |fs| == 1 then fs[0] else fs[0] + "''" + JoinQuotes(fs[1..])
  }

  /** Splitting loses nothing: joining the pieces back gives the input. */
  lemma {:induction false} SplitJoinQuotes(s: string)
    ensures JoinQuotes(SplitPairsOfQuotes(s)) == s
    decreases |s|
  {
    if |s| >= 2 {
      if s[0] == '\'' && s[1] == '\'' {
        SplitJoinQuotes(s[2..]);
        assert s == [] + "''" + s[2..];
      } else {
        var r := SplitPairsOfQuotes(s[1..]);
        SplitJoinQuotes(s[1..]);
        if |r| == 1 {
          assert s == [s[0]] + r[0];
        } else {
          assert JoinQuotes(r) == r[0] + "''" + JoinQuotes(r[1..]);
          assert ([[s[0]] + r[0]] + r[1..])[1..] == r[1..];
          assert s == [s[0]] + s[1..];
        }
      }
    }
  }

  /** One fragment's contribution: nothing if it is blank, else the fragment without end quotes. */
  function KeepOne(f: string): seq<string>
  {
    if StripSpace(f) != [] then [StripQuotes(f)] else []
  }

  /**
   * A fragment made of quotes only is not blank, so it is kept, and stripping its quotes
   * leaves the empty identifier.
   */
  lemma QuoteOnlyFragment(f: string)
    requires f != [] && forall k | 0 <= k < |f| :: IsQuote(f[k])
    ensures KeepOne(f) == [[]]
  {
    assert !IsSpace(f[0]);
  }

  /** `[f.strip("\"'") for f in fragments if f.strip()]`. */
  function KeepFragments(fs: seq<string>): (qrs: seq<string>)
    ensures |qrs| <= |fs|
  {
    if fs == [] then []
    else KeepOne(fs[0]) + KeepFragments(fs[1..])
  }

  /** The legacy parse of a raw line. */
  function LegacyQrs(raw: string): seq<string>
  {
    KeepFragments(SplitPairsOfQuotes(raw))
  }

  /** A fragment that is not blank keeps its place, stripped of quotes at either end. */
  lemma {:induction false} KeepFragmentsAppend(a: seq<string>, b: seq<string>)
    ensures KeepFragments(a + b) == KeepFragments(a) + KeepFragments(b)
    decreases |a|
  {
    if a == [] {
      assert a + b == b;
    } else {
      calc {
        KeepFragments(a + b);
        { assert (a + b)[0] == a[0] && (a + b)[1..] == a[1..] + b; }
        KeepOne(a[0]) + KeepFragments(a[1..] + b);
        { KeepFragmentsAppend(a[1..], b); }
        KeepOne(a[0]) + (KeepFragments(a[1..]) + KeepFragments(b));
        { AppendAssoc(KeepOne(a[0]), KeepFragments(a[1..]), KeepFragments(b)); }
        (KeepOne(a[0]) + KeepFragments(a[1..])) + KeepFragments(b);
      }
    }
  }

  /** `'q1''q2''…''qn'`, the legacy form the usage line shows. */
  function RenderLegacy(qrs: seq<string>): string
  {
    if qrs == [] then [] else "'" + JoinQuotes(qrs) + "'"
  }

  /** A fragment without `''` inside and not ending in `'` is one piece before a delimiter. */
  lemma {:induction false} SplitAtDelimiter(f: string, rest: string)
    requires forall k | 0 <= k < |f| :: f[k] == '\'' ==> k + 1 < |f| && f[k + 1] != '\''
    ensures SplitPairsOfQuotes(f + "''" + rest) == [f] + SplitPairsOfQuotes(rest)
    decreases |f|
  {
    var s := f + "''" + rest;
    if f == [] {
      assert s == "''" + rest;
      assert s[2..] == rest;
    } else {
      assert s[0] == f[0];
      assert !(s[0] == '\'' && s[1] == '\'') by {
        if f[0] == '\'' {
          assert s[1] == f[1];
        }
      }
      assert s[1..] == f[1..] + "''" + rest;
      SplitAtDelimiter(f[1..], rest);
      var r := SplitPairsOfQuotes(s[1..]);
      assert r == [f[1..]] + SplitPairsOfQuotes(rest);
      assert [s[0]] + r[0] == f;
      assert SplitPairsOfQuotes(s) == [[s[0]] + r[0]] + r[1..];
    }
  }

  /** A piece with no `''` inside stays whole. */
  lemma {:induction false} SplitNoDelimiter(f: string)
    requires forall k | 0 <= k < |f| - 1 :: !(f[k] == '\'' && f[k + 1] == '\'')
    ensures SplitPairsOfQuotes(f) == [f]
    decreases |f|
  {
    if |f| >= 2 {
      SplitNoDelimiter(f[1..]);
      assert f == [f[0]] + f[1..];
    }
  }

  /** What a scanned identifier looks like for the legacy round trip. */
  ghost predicate LegacySafe(q: string)
  {
    q != [] && '\'' !in q && !IsQuote(q[0]) && !IsQuote(q[|q| - 1]) && !IsSpace(q[0])
  }

  lemma StripLegacy(pre: string, q: string, post: string)
    requires LegacySafe(q)
    requires forall k | 0 <= k < |pre| :: pre[k] == '\''
    requires forall k | 0 <= k < |post| :: post[k] == '\''
    ensures StripSpace(pre + q + post) != []
    ensures StripQuotes(pre + q + post) == q
  {
    StripPadded(pre, q, post, IsQuote);
    var s := pre + q + post;
    assert s[|pre|] == q[0];
    assert !IsSpace(s[|pre|]);
  }

  /** The legacy parse of `'q1''q2''…''qn'` gives back `q1, …, qn`. */
  lemma LegacyRoundTrip(qrs: seq<string>)
    requires forall i | 0 <= i < |qrs| :: LegacySafe(qrs[i])
    ensures LegacyQrs(RenderLegacy(qrs)) == qrs
  {
    if qrs != [] {
      LegacyPieces(qrs, "'", "'" + JoinQuotes(qrs) + "'");
    } else {
      assert SplitPairsOfQuotes([]) == [[]];
      assert StripSpace([]) == [];
    }
  }

  /** The closing piece `pre + q + "'"` contains no delimiter and parses to `q`. */
  lemma LegacyLastPiece(pre: string, q: string)
    requires LegacySafe(q)
    requires pre == [] || pre == "'"
    ensures KeepFragments(SplitPairsOfQuotes(pre + q + "'")) == [q]
  {
    var f := pre + q + "'";
    forall k | 0 <= k < |f| - 1
      ensures !(f[k] == '\'' && f[k + 1] == '\'')
    {
      if k < |pre| {
        assert f[k + 1] == q[0];
      } else if k < |pre| + |q| {
        assert f[k] == q[k - |pre|];
      }
    }
    SplitNoDelimiter(f);
    StripLegacy(pre, q, "'");
  }

  /** Every `'` in `pre + q` is followed, inside it, by something other than `'`. */
  lemma QuotesIsolated(pre: string, q: string)
    requires LegacySafe(q)
    requires pre == [] || pre == "'"
    ensures var f := pre + q;
      forall k | 0 <= k < |f| :: f[k] == '\'' ==> k + 1 < |f| && f[k + 1] != '\''
  {
    var f := pre + q;
    forall k | 0 <= k < |f| && f[k] == '\''
      ensures k + 1 < |f| && f[k + 1] != '\''
    {
      if k < |pre| {
        assert f[k + 1] == q[0];
      }
    }
  }

  lemma KeepOnePiece(pre: string, q: string)
    requires LegacySafe(q)
    requires pre == [] || pre == "'"
    ensures KeepFragments([pre + q]) == [q]
  {
    StripLegacy(pre, q, []);
    assert pre + q + [] == pre + q;
    assert KeepFragments([pre + q]) == [q] + KeepFragments([]);
  }

  /** An inner piece `pre + q` followed by `''` parses to `q` and leaves the rest to parse. */
  lemma LegacyInnerPiece(pre: string, q: string, rest: string)
    requires LegacySafe(q)
    requires pre == [] || pre == "'"
    ensures KeepFragments(SplitPairsOfQuotes(pre + q + "''" + rest))
         == [q] + KeepFragments(SplitPairsOfQuotes(rest))
  {
    var f := pre + q;
    QuotesIsolated(pre, q);
    SplitAtDelimiter(f, rest);
    KeepOnePiece(pre, q);
    KeepFragmentsAppend([f], SplitPairsOfQuotes(rest));
  }

  /** Pieces of `pre + q1 + "''" + … + qn + "'"`, where `pre` is `'` for the first piece only. */
  lemma {:induction false} LegacyPieces(qrs: seq<string>, pre: string, s: string)
    requires qrs != []
    requires forall i | 0 <= i < |qrs| :: LegacySafe(qrs[i])
    requires pre == [] || pre == "'"
    requires s == pre + JoinQuotes(qrs) + "'"
    ensures KeepFragments(SplitPairsOfQuotes(s)) == qrs
    decreases |qrs|
  {
    var q := qrs[0];
    RenderedCons(pre, qrs);
    if |qrs| == 1 {
      LegacyLastPiece(pre, q);
    } else {
      var rest := JoinQuotes(qrs[1..]) + "'";
      LegacyInnerPiece(pre, q, rest);
      LegacyPieces(qrs[1..], [], rest);
      HeadTail(qrs);
    }
  }

  /** The rendered line, cut after its first identifier. */
  lemma RenderedCons(pre: string, qrs: seq<string>)
    requires |qrs| >= 1
    ensures |qrs| == 1 ==> pre + JoinQuotes(qrs) + "'" == pre + qrs[0] + "'"
    ensures |qrs| > 1 ==>
      && pre + JoinQuotes(qrs) + "'" == pre + qrs[0] + "''" + (JoinQuotes(qrs[1..]) + "'")
      && [] + JoinQuotes(qrs[1..]) + "'" == JoinQuotes(qrs[1..]) + "'"
  {
    if |qrs| > 1 {
      var tail := JoinQuotes(qrs[1..]);
      assert JoinQuotes(qrs) == qrs[0] + "''" + tail;
      RegroupFive(pre, qrs[0], "''", tail, "'");
      assert [] + tail == tail;
    }
  }

  lemma AppendAssoc<T>(a: seq<T>, b: seq<T>, c: seq<T>)
    ensures a + (b + c) == (a + b) + c
  {
  }

  lemma HeadTail<T>(s: seq<T>)
    requires s != []
    ensures [s[0]] + s[1..] == s
  {
  }

  lemma RegroupFive(a: string, b: string, c: string, d: string, e: string)
    ensures a + (b + c + d) + e == a + b + c + (d + e)
  {
  }

  // ---------------------------------------------------------------------------
  // The parsers of the consoles

  /** What `parse_scanned_input` returns: identifiers, and their colours in the tagged form. */
  datatype Parsed = Parsed(qrs: seq<string>, colors: seq<string>)

  /** The identifiers of the scanned pairs (`Pair` records), in order. */
  function PairQrs(ps: seq<Pair>): (qrs: seq<string>)
    ensures |qrs| == |ps|
    ensures forall i | 0 <= i < |ps| :: qrs[i] == ps[i].qr
  {
    seq(|ps|, i requires 0 <= i < |ps| => ps[i].qr)
  }

  /** `[COLOR_CANON[c.upper()] for c, _ in pairs]`. */
  function CanonColors(canon: map<string, string>, ps: seq<Pair>): (cs: seq<string>)
    requires forall i | 0 <= i < |ps| :: Upper(ps[i].tag) in canon
    ensures |cs| == |ps|
    ensures forall i | 0 <= i < |ps| :: cs[i] == canon[Upper(ps[i].tag)]
  {
    seq(|ps|, i requires 0 <= i < |ps| => canon[Upper(ps[i].tag)])
  }

  /**
   * `parse_scanned_input` of the two batch consoles: the colour-tagged pairs if there are any;
   * otherwise the legacy form when `legacy` holds, and a refusal when it does not.
   */
  function ParseScannedInput(words: seq<string>, canon: map<string, string>, legacy: bool, raw: string)
    : (r: Result<Parsed, BatchError>)
    requires forall w | w in words :: w in canon
    ensures r.Err? <==> !legacy && FindAll(Keywords(words), raw) == []
    ensures r.Err? ==> r.error == LegacyModeDisabled
    ensures r.Ok? && r.value.colors != [] ==>
      && |r.value.colors| == |r.value.qrs|
      && (forall i | 0 <= i < |r.value.colors| :: r.value.colors[i] in canon.Values)
      && (forall i | 0 <= i < |r.value.qrs| :: r.value.qrs[i] != [] && '\'' !in r.value.qrs[i])
    ensures r.Ok? ==> (r.value.colors == [] <==> FindAll(Keywords(words), raw) == [])
    ensures r.Ok? && r.value.colors == [] ==> legacy && r.value.qrs == LegacyQrs(raw)
    ensures r.Ok? && r.value.colors != [] ==>
      var ps := FindAll(Keywords(words), raw);
      && r.value.qrs == PairQrs(ps) && |r.value.colors| == |ps|
      && forall i | 0 <= i < |ps| :: Upper(ps[i].tag) in canon && r.value.colors[i] == canon[Upper(ps[i].tag)]
  {
    var ps := FindAll(Keywords(words), raw);
    if ps != [] then Ok(Parsed(PairQrs(ps), CanonColors(canon, ps)))
    else if legacy then Ok(Parsed(LegacyQrs(raw), []))
    else Err(LegacyModeDisabled)
  }

  /**
   * `parse_scanned_input` reads back a line typed in the colour-tagged form, whatever the
   * letter case of the tags and the whitespace after them: the identifiers in order, and each
   * colour the canonical label of the upper-cased tag.
   */
  lemma ParseScannedInputRoundTrip(words: seq<string>, canon: map<string, string>, legacy: bool, ps: seq<Pair>, gaps: seq<string>)
    requires forall w | w in words :: w in canon
    requires GoodKeywords(Keywords(words))
    requires ps != [] && |gaps| == |ps|
    requires forall i | 0 <= i < |ps| :: Renderable(Keywords(words), ps[i]) && IsGap(gaps[i])
    ensures var r := ParseScannedInput(words, canon, legacy, RenderPairs(ps, gaps));
      && r.Ok? && r.value.qrs == PairQrs(ps) && |r.value.colors| == |ps|
      && forall i | 0 <= i < |ps| :: Upper(ps[i].tag) in canon && r.value.colors[i] == canon[Upper(ps[i].tag)]
  {
    FindAllRenderPairs(Keywords(words), ps, gaps);
  }

  /**
   * The pairs of `parse_color_qr_pairs`, numbered through `COLOR_TO_NUM`: the first tag that
   * is not a colour, upper-cased, aborts; each identifier is whitespace-stripped.
   */
  function NumberPairs(table: map<string, int>, ps: seq<Pair>): (r: Result<(seq<int>, seq<string>), BatchError>)
    ensures r.Ok? ==> |r.value.0| == |ps| && |r.value.1| == |ps|
    ensures r.Err? ==> r.error.UnknownColor?
  {
    if ps == [] then Ok(([], []))
    else
      var color := Upper(ps[0].tag);
      if color !in table then Err(UnknownColor(ps[0].tag))
      else
        match NumberPairs(table, ps[1..])
        case Err(e) => Err(e)
        case Ok((ns, qs)) => Ok(([table[color]] + ns, [StripSpace(ps[0].qr)] + qs))
  }

  /** Every tag is a colour, `ns` numbers them and `qs` holds the stripped identifiers. */
  ghost predicate Numbered(table: map<string, int>, ps: seq<Pair>, ns: seq<int>, qs: seq<string>)
  {
    && |ns| == |ps| && |qs| == |ps|
    && (forall i | 0 <= i < |ps| :: Upper(ps[i].tag) in table && ns[i] == table[Upper(ps[i].tag)])
    && (forall i | 0 <= i < |ps| :: qs[i] == StripSpace(ps[i].qr))
  }

  /** `i` is the first pair whose tag is not a colour. */
  ghost predicate FirstUnknownAt(table: map<string, int>, ps: seq<Pair>, i: int)
  {
    && 0 <= i < |ps|
    && Upper(ps[i].tag) !in table
    && forall j | 0 <= j < i :: Upper(ps[j].tag) in table
  }

  /**
   * Numbering succeeds exactly when every tag is a colour, and then gives each pair's scanner
   * and identifier in order; otherwise the error names the first tag that is not a colour.
   */
  lemma NumberPairsMeaning(table: map<string, int>, ps: seq<Pair>)
    ensures NumberPairs(table, ps).Ok? <==> forall i | 0 <= i < |ps| :: Upper(ps[i].tag) in table
    ensures NumberPairs(table, ps).Ok? ==>
      Numbered(table, ps, NumberPairs(table, ps).value.0, NumberPairs(table, ps).value.1)
    ensures NumberPairs(table, ps).Err? ==> exists i ::
      FirstUnknownAt(table, ps, i) && NumberPairs(table, ps).error == UnknownColor(ps[i].tag)
  {
    NumberPairsOk(table, ps);
    NumberPairsErr(table, ps);
  }

  lemma {:induction false} NumberPairsOk(table: map<string, int>, ps: seq<Pair>)
    ensures NumberPairs(table, ps).Ok? ==>
      Numbered(table, ps, NumberPairs(table, ps).value.0, NumberPairs(table, ps).value.1)
    ensures (forall i | 0 <= i < |ps| :: Upper(ps[i].tag) in table) ==> NumberPairs(table, ps).Ok?
  {
    if ps != [] {
      var tail := ps[1..];
      NumberPairsOk(table, tail);
      if Upper(ps[0].tag) in table {
        if forall i | 0 <= i < |ps| :: Upper(ps[i].tag) in table {
          forall i | 0 <= i < |tail|
            ensures Upper(tail[i].tag) in table
          {
            assert tail[i] == ps[i + 1];
          }
        }
        var r := NumberPairs(table, tail);
        if r.Ok? {
          NumberedCons(table, ps[0], tail, r.value.0, r.value.1);
          HeadTail(ps);
        }
      }
    }
  }

  /** Numbering a pair in front extends a numbering of the rest. */
  lemma NumberedCons(table: map<string, int>, p: Pair, tail: seq<Pair>, ns: seq<int>, qs: seq<string>)
    requires Numbered(table, tail, ns, qs)
    requires Upper(p.tag) in table
    ensures Numbered(table, [p] + tail, [table[Upper(p.tag)]] + ns, [StripSpace(p.qr)] + qs)
  {
    var ps, ns', qs' := [p] + tail, [table[Upper(p.tag)]] + ns, [StripSpace(p.qr)] + qs;
    forall i | 0 <= i < |ps|
      ensures Upper(ps[i].tag) in table && ns'[i] == table[Upper(ps[i].tag)]
    {
      if i > 0 {
        assert ps[i] == tail[i - 1] && ns'[i] == ns[i - 1];
      }
    }
    forall i | 0 <= i < |ps|
      ensures qs'[i] == StripSpace(ps[i].qr)
    {
      if i > 0 {
        assert ps[i] == tail[i - 1] && qs'[i] == qs[i - 1];
      }
    }
  }

  lemma {:induction false} NumberPairsErr(table: map<string, int>, ps: seq<Pair>)
    ensures NumberPairs(table, ps).Err? ==> exists i ::
      FirstUnknownAt(table, ps, i) && NumberPairs(table, ps).error == UnknownColor(ps[i].tag)
  {
    if ps != [] {
      var tail := ps[1..];
      NumberPairsErr(table, tail);
      if Upper(ps[0].tag) !in table {
        assert FirstUnknownAt(table, ps, 0);
      } else {
        var r := NumberPairs(table, tail);
        if r.Err? {
          var i :| FirstUnknownAt(table, tail, i) && r.error == UnknownColor(tail[i].tag);
          assert forall k | 1 <= k < |ps| :: ps[k] == tail[k - 1];
          assert FirstUnknownAt(table, ps, i + 1);
        }
      }
    }
  }

  /** `parse_color_qr_pairs`: scanner numbers and identifiers, `([], [])` when no pair is found. */
  function ParseColorQrPairs(table: map<string, int>, text: string): (r: Result<(seq<int>, seq<string>), BatchError>)
    ensures r == Ok(([], [])) <==> FindAll(LetterRun, text) == []
    ensures r.Err? <==> exists i | 0 <= i < |FindAll(LetterRun, text)| :: Upper(FindAll(LetterRun, text)[i].tag) !in table
    ensures r.Err? ==> exists i ::
      FirstUnknownAt(table, FindAll(LetterRun, text), i) && r.error == UnknownColor(FindAll(LetterRun, text)[i].tag)
    ensures r.Ok? ==> |r.value.0| == |r.value.1| && forall i | 0 <= i < |r.value.0| :: r.value.0[i] in table.Values
  {
    var ps := FindAll(LetterRun, text);
    if ps == [] then Ok(([], []))
    else
      NumberPairsMeaning(table, ps);
      NumberPairs(table, ps)
  }

  /**
   * A line of tagged pairs whose tags are all colours reads back as their scanner numbers and
   * their whitespace-stripped identifiers, in order.
   */
  lemma ParseColorQrPairsRoundTrip(table: map<string, int>, ps: seq<Pair>, gaps: seq<string>)
    requires |gaps| == |ps|
    requires forall i | 0 <= i < |ps| :: Renderable(LetterRun, ps[i]) && Upper(ps[i].tag) in table && IsGap(gaps[i])
    ensures var r := ParseColorQrPairs(table, RenderPairs(ps, gaps));
      && r.Ok? && |r.value.0| == |ps| && |r.value.1| == |ps|
      && (forall i | 0 <= i < |ps| :: r.value.0[i] == table[Upper(ps[i].tag)])
      && (forall i | 0 <= i < |ps| :: r.value.1[i] == StripSpace(ps[i].qr))
  {
    FindAllRenderPairs(LetterRun, ps, gaps);
    NumberPairsMeaning(table, ps);
  }
}
