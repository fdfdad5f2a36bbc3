/** Character classes and string helpers shared by every variant of the orchestrator. */
module Text {

  /** Python's `str.isspace()`; `\s` in a `str` pattern and argument-less `strip()` use the same set. */
  predicate IsSpace(c: char)
  {
    var n := c as int;
    (9 <= n <= 13) || (28 <= n <= 32) || n == 0x85 || n == 0xA0 || n == 0x1680
    || (0x2000 <= n <= 0x200A) || n == 0x2028 || n == 0x2029 || n == 0x202F
    || n == 0x205F || n == 0x3000
  }

  /** The characters `strip("\"'")` removes. */
  predicate IsQuote(c: char)
  {
    c == '"' || c == '\''
  }

  predicate IsAsciiLetter(c: char)
  {
    ('A' <= c <= 'Z') || ('a' <= c <= 'z')
  }

  /** `str.upper()` restricted to ASCII: only `a`..`z` change. */
  function UpperChar(c: char): (u: char)
    ensures IsAsciiLetter(c) <==> IsAsciiLetter(u)
    ensures !('a' <= u <= 'z')
    ensures !IsAsciiLetter(c) ==> u == c
  {
    if 'a' <= c <= 'z' then (c as int - 32) as char else c
  }

  function Upper(s: string): (r: string)
    ensures |r| == |s|
    ensures forall i | 0 <= i < |s| :: r[i] == UpperChar(s[i])
  {
    seq(|s|, i requires 0 <= i < |s| => UpperChar(s[i]))
  }

  /** Length of the longest prefix of `s` whose characters all satisfy `p`. */
  function LeadCount(s: string, p: char -> bool): (n: nat)
    ensures n <= |s|
    ensures forall k | 0 <= k < n :: p(s[k])
    ensures n < |s| ==> !p(s[n])
  {
    if s == [] || !p(s[0]) then 0 else 1 + LeadCount(s[1..], p)
  }

  /** Length of the longest suffix of `s` whose characters all satisfy `p`. */
  function TrailCount(s: string, p: char -> bool): (n: nat)
    ensures n <= |s|
    ensures forall k | |s| - n <= k < |s| :: p(s[k])
    ensures n < |s| ==> !p(s[|s| - n - 1])
  {
    if s == [] || !p(s[|s| - 1]) then 0 else 1 + TrailCount(s[..|s| - 1], p)
  }

  /** `str.strip(chars)`: drop the leading, then the trailing, characters satisfying `p`. */
  function Strip(s: string, p: char -> bool): (r: string)
    ensures |r| <= |s|
    ensures r == [] <==> forall k | 0 <= k < |s| :: p(s[k])
    ensures r != [] ==> !p(r[0]) && !p(r[|r| - 1])
    ensures (forall k | 0 <= k < |s| :: !p(s[k])) ==> r == s
  {
    var a := LeadCount(s, p);
    var t := s[a..];
    var b := TrailCount(t, p);
    assert a < |s| ==> t[0] == s[a];
    t[..|t| - b]
  }

  /** `str.strip()` with no argument. */
  function StripSpace(s: string): string
  {
    Strip(s, IsSpace)
  }

  /** `str.strip("\"'")`. */
  function StripQuotes(s: string): string
  {
    Strip(s, IsQuote)
  }

  /** `LeadCount` is pinned down by where the run of `p` characters stops. */
  lemma LeadCountExact(s: string, p: char -> bool, n: nat)
    requires n <= |s|
    requires forall k | 0 <= k < n :: p(s[k])
    requires n < |s| ==> !p(s[n])
    ensures LeadCount(s, p) == n
  {
  }

  lemma TrailCountExact(s: string, p: char -> bool, n: nat)
    requires n <= |s|
    requires forall k | |s| - n <= k < |s| :: p(s[k])
    requires n < |s| ==> !p(s[|s| - n - 1])
    ensures TrailCount(s, p) == n
  {
  }

  /** Stripping removes exactly the padding around a core that starts and ends outside `p`. */
  lemma StripPadded(pre: string, core: string, post: string, p: char -> bool)
    requires forall k | 0 <= k < |pre| :: p(pre[k])
    requires forall k | 0 <= k < |post| :: p(post[k])
    requires core != [] && !p(core[0]) && !p(core[|core| - 1])
    ensures Strip(pre + core + post, p) == core
  {
    var s := pre + core + post;
    LeadCountExact(s, p, |pre|);
    var t := s[|pre|..];
    assert t == core + post;
    TrailCountExact(t, p, |post|);
    assert t[..|t| - |post|] == core;
  }
}
