/**
 The two regular-expression shapes that the format sniffer uses, each with a
 declarative meaning (`Denotes`: "the pattern occurs somewhere in the text",
 as an unanchored Ruby regex match answers it) and a scanning matcher
 (`Matches`) proved to agree with it.

 `\w` is the ASCII word class `[A-Za-z0-9_]` and the `/i` flag is ASCII case
 folding.
 */
module Patterns {

  /** `\w`: an ASCII letter, digit or underscore. */
  predicate IsWordChar(c: char) {
    ('a' <= c <= 'z') || ('A' <= c <= 'Z') || ('0' <= c <= '9') || c == '_'
  }

  /** ASCII case folding, as the `/i` flag applies it: `A`..`Z` become `a`..`z`. */
  function FoldCase(c: char): char {
    if 'A' <= c <= 'Z' then (c as int + 32) as char else c
  }

  /** One character of the text against one character of a literal pattern. */
  predicate CharMatches(c: char, p: char, ignoreCase: bool) {
    if ignoreCase then FoldCase(c) == FoldCase(p) else c == p
  }

  /** The regex shapes of the sniffer. */
  datatype Pattern =
    | /** `/text/`, or `/text/i` when `ignoreCase` holds */
      Literal(text: seq<char>, ignoreCase: bool)
    | /** `/<\w+:local/`: a start tag whose name has a prefix and the given local part */
      PrefixedTag(local: seq<char>)

  // ---------------------------------------------------------------------------
  // Declarative meaning

  /** The literal occupies `s[i..i + |text|]`. */
  ghost predicate LiteralAt(s: seq<char>, text: seq<char>, ignoreCase: bool, i: int) {
    0 <= i && i + |text| <= |s| &&
    forall j :: 0 <= j < |text| ==> CharMatches(s[i + j], text[j], ignoreCase)
  }

  /** `<` at `i`, one or more word characters up to `k`, then `:` and `local`. */
  ghost predicate PrefixedTagAt(s: seq<char>, local: seq<char>, i: int, k: int) {
    0 <= i && i + 1 < k && k + 1 + |local| <= |s| &&
    s[i] == '<' &&
    (forall j :: i < j < k ==> IsWordChar(s[j])) &&
    s[k] == ':' && s[k + 1..k + 1 + |local|] == local
  }

  /** A match of `p` starts at index `i` of `s`. */
  ghost predicate DenotesAt(p: Pattern, s: seq<char>, i: int) {
    match p
    case Literal(text, ignoreCase) => LiteralAt(s, text, ignoreCase, i)
    case PrefixedTag(local) => exists k :: PrefixedTagAt(s, local, i, k)
  }

  /** The unanchored regex `p` matches somewhere in `s`. */
  ghost predicate Denotes(p: Pattern, s: seq<char>) {
    exists i :: DenotesAt(p, s, i)
  }

  // ---------------------------------------------------------------------------
  // Scanning matcher

  /** Length of the longest run of word characters at the front of `s` (greedy `\w*`). */
  function WordRun(s: seq<char>): (n: nat)
    ensures n <= |s|
    ensures forall j :: 0 <= j < n ==> IsWordChar(s[j])
    ensures n < |s| ==> !IsWordChar(s[n])
  {
    if |s| > 0 && IsWordChar(s[0]) then 1 + WordRun(s[1..]) else 0
  }

  /** `p` matches at the very front of `s`. */
  predicate MatchesHere(p: Pattern, s: seq<char>) {
    match p
    case Literal(text, ignoreCase) =>
      |text| <= |s| && forall j :: 0 <= j < |text| ==> CharMatches(s[j], text[j], ignoreCase)
    case PrefixedTag(local) =>
      |s| > 0 && s[0] == '<' &&
      var n := WordRun(s[1..]);
      0 < n && n + 1 < |s| && s[n + 1] == ':' && local <= s[n + 2..]
  }

  /** Tries `p` at every start position of `s`, from the left. */
  function Matches(p: Pattern, s: seq<char>): (b: bool)
    ensures b <==> Denotes(p, s)
    decreases |s|
  {
    MatchesHereAgrees(p, s);
    if MatchesHere(p, s) then true
    else if |s| == 0 then false
    else
      DenotesShift(p, s);
      Matches(p, s[1..])
  }

  /** The greedy front match agrees with the regex meaning at index 0. */
  lemma MatchesHereAgrees(p: Pattern, s: seq<char>)
    ensures MatchesHere(p, s) <==> DenotesAt(p, s, 0)
  {
    match p
    case Literal(_, _) =>
    case PrefixedTag(local) =>
      if MatchesHere(p, s) {
        var n := WordRun(s[1..]);
        assert s[n + 2..][..|local|] == s[n + 2..n + 2 + |local|];
        assert PrefixedTagAt(s, local, 0, n + 1);
      }
      if k :| PrefixedTagAt(s, local, 0, k) {
        var n := WordRun(s[1..]);
        // The word run stops exactly at the `:`, which is not a word character.
        assert forall j :: 0 <= j < k - 1 ==> s[1..][j] == s[j + 1];
        assert s[1..][k - 1] == ':';
        assert n == k - 1;
        assert s[n + 2..][..|local|] == s[k + 1..k + 1 + |local|];
      }
  }

  /** Dropping the first character shifts every match position down by one. */
  lemma DenotesAtShift(p: Pattern, s: seq<char>, i: int)
    requires |s| > 0 && 1 <= i
    ensures DenotesAt(p, s, i) <==> DenotesAt(p, s[1..], i - 1)
  {
    var t := s[1..];
    if DenotesAt(p, t, i - 1) {
      assert forall m :: 0 <= m < |t| ==> s[1 + m] == t[m];
      DenotesAtOffset(p, t, s, 1, i - 1);
    }
    match p
    case Literal(text, ignoreCase) =>
    case PrefixedTag(local) =>
      if k :| PrefixedTagAt(s, local, i, k) {
        assert t[k..k + |local|] == s[k + 1..k + 1 + |local|];
        assert PrefixedTagAt(t, local, i - 1, k - 1);
      }
  }

  /** A match in `s` is a match at the front or a match in `s[1..]`. */
  lemma DenotesShift(p: Pattern, s: seq<char>)
    requires |s| > 0
    ensures Denotes(p, s) <==> DenotesAt(p, s, 0) || Denotes(p, s[1..])
  {
    if i :| DenotesAt(p, s, i) {
      if i >= 1 {
        DenotesAtShift(p, s, i);
      }
    }
    if i :| DenotesAt(p, s[1..], i) {
      if i >= 0 {
        DenotesAtShift(p, s, i + 1);
      } else {
        assert false;
      }
    }
  }

  /** A match at `i` in `s` is a match at `d + i` in any `u` that holds `s` at offset `d`. */
  lemma DenotesAtOffset(p: Pattern, s: seq<char>, u: seq<char>, d: nat, i: int)
    requires d + |s| <= |u|
    requires forall m :: 0 <= m < |s| ==> u[d + m] == s[m]
    requires DenotesAt(p, s, i)
    ensures DenotesAt(p, u, d + i)
  {
    match p
    case Literal(text, ignoreCase) =>
      forall j | 0 <= j < |text| ensures CharMatches(u[d + i + j], text[j], ignoreCase) {
        assert u[d + (i + j)] == s[i + j];
      }
    case PrefixedTag(local) =>
      var k :| PrefixedTagAt(s, local, i, k);
      forall j | d + i < j < d + k ensures IsWordChar(u[j]) {
        assert u[d + (j - d)] == s[j - d];
      }
      forall j | 0 <= j < |local| ensures u[d + k + 1..d + k + 1 + |local|][j] == local[j] {
        assert u[d + (k + 1 + j)] == s[k + 1 + j];
        assert s[k + 1..k + 1 + |local|][j] == s[k + 1 + j];
      }
      assert u[d + k + 1..d + k + 1 + |local|] == local;
      assert PrefixedTagAt(u, local, d + i, d + k);
  }

  /** Regex matches are unanchored: text around a match never removes it. */
  lemma DenotesInContext(p: Pattern, before: seq<char>, s: seq<char>, after: seq<char>)
    requires Denotes(p, s)
    ensures Denotes(p, before + s + after)
  {
    var u := before + s + after;
    var i :| DenotesAt(p, s, i);
    assert forall m :: 0 <= m < |s| ==> u[|before| + m] == s[m];
    DenotesAtOffset(p, s, u, |before|, i);
  }

  /** Every match of a pattern begins with that pattern's first character. */
  lemma {:induction false} DenotesNeedsLead(p: Pattern, s: seq<char>)
    requires Denotes(p, s)
    requires p.Literal? ==> |p.text| > 0
    ensures p.Literal? ==> exists i :: 0 <= i < |s| && CharMatches(s[i], p.text[0], p.ignoreCase)
    ensures p.PrefixedTag? ==> '<' in s
  {
    var i :| DenotesAt(p, s, i);
    match p
    case Literal(text, ignoreCase) =>
      assert CharMatches(s[i + 0], text[0], ignoreCase);
    case PrefixedTag(local) =>
      var k :| PrefixedTagAt(s, local, i, k);
      assert s[i] == '<';
  }
}
