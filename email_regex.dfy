/**
 * The contact form's email test `/\S+@\S+\.\S+/.test(email)`: the pattern is
 * not anchored, so the test holds when SOME substring is a run of non-space
 * characters, '@', a run of non-space characters, '.', and a run of non-space
 * characters.
 */
module EmailRegex {
  import opened JsStrings

  /** The regular-expression class `\S`. */
  predicate NonSpace(c: char) {
    !IsWhitespace(c)
  }

  /**
   * A match of the pattern with its '@' at `p` and its '.' at `q`. The first
   * and last runs may be shrunk to the one character next to '@' and to '.',
   * so only those characters are constrained; the middle run is everything
   * strictly between `p` and `q` and must not be empty. `p` and `q` are bounded
   * by `|s|` so that the predicate needs nothing of its caller.
   */
  predicate MatchAt(s: string, p: nat, q: nat) {
    && 0 < p && p + 1 < q && q + 1 < |s|
    && NonSpace(s[p - 1]) && s[p] == '@' && s[q] == '.' && NonSpace(s[q + 1])
    && forall k :: p < k < q ==> NonSpace(s[k])
  }

  /** `/\S+@\S+\.\S+/.test(s)`. */
  predicate EmailPattern(s: string) {
    exists p: nat, q: nat | p < |s| && q < |s| :: MatchAt(s, p, q)
  }

  /** A string that contains the pattern is not blank. */
  lemma PatternIsNotBlank(s: string)
    ensures EmailPattern(s) ==> !Blank(s)
  {
    if EmailPattern(s) {
      var p: nat, q: nat :| p < |s| && q < |s| && MatchAt(s, p, q);
      assert !IsWhitespace(s[p]);
    }
  }

  /** The test is unanchored: text around a matching string does not matter. */
  lemma PatternSurvivesSurroundingText(s: string, before: string, after: string)
    requires EmailPattern(s)
    ensures EmailPattern(before + s + after)
  {
    var p: nat, q: nat :| p < |s| && q < |s| && MatchAt(s, p, q);
    var t := before + s + after;
    var n := |before|;
    assert forall k :: 0 <= k < |s| ==> t[n + k] == s[k];
    assert MatchAt(t, n + p, n + q);
  }

  /*
   * A left-to-right scanner that decides the same test in one pass, the way a
   * regular-expression engine runs this pattern. After reading a prefix, the
   * state says which parts of a match the prefix can end in.
   */

  /** What the prefix read so far can end in. */
  datatype ScanState = ScanState(
    inUser: bool,    // a non-space character (a first run)
    atSign: bool,    // a first run followed by '@'
    inDomain: bool,  // a first run, '@' and a non-empty middle run
    dot: bool,       // all that followed by '.'
    found: bool)     // a whole match lies in the prefix

  const Start := ScanState(false, false, false, false, false)

  function Feed(st: ScanState, c: char): ScanState {
    ScanState(
      NonSpace(c),
      c == '@' && st.inUser,
      NonSpace(c) && (st.atSign || st.inDomain),
      c == '.' && st.inDomain,
      st.found || (NonSpace(c) && st.dot))
  }

  /** The state after reading `s[..n]`. */
  function ScanPrefix(s: string, n: nat): ScanState
    requires n <= |s|
  {
    if n == 0 then Start else Feed(ScanPrefix(s, n - 1), s[n - 1])
  }

  /** The scanner's answer for the whole string. */
  function ScanEmail(s: string): bool {
    ScanPrefix(s, |s|).found
  }

  // What each state component means of the prefix `s[..n]`.

  ghost predicate AtSignEnds(s: string, n: nat)
    requires n <= |s|
  {
    n >= 2 && s[n - 1] == '@' && NonSpace(s[n - 2])
  }

  ghost predicate DomainFrom(s: string, p: nat, n: nat) {
    && 1 <= p && p + 1 < n <= |s|
    && NonSpace(s[p - 1]) && s[p] == '@'
    && forall k :: p < k < n ==> NonSpace(s[k])
  }

  ghost predicate DomainEnds(s: string, n: nat) {
    exists p: nat | p < n :: DomainFrom(s, p, n)
  }

  ghost predicate DotEnds(s: string, n: nat)
    requires n <= |s|
  {
    n >= 1 && s[n - 1] == '.' && DomainEnds(s, n - 1)
  }

  ghost predicate FoundIn(s: string, n: nat) {
    exists p: nat, q: nat | p < n && q + 1 < n :: MatchAt(s, p, q)
  }

  ghost function Meaning(s: string, n: nat): ScanState
    requires n <= |s|
  {
    ScanState(n >= 1 && NonSpace(s[n - 1]), AtSignEnds(s, n), DomainEnds(s, n), DotEnds(s, n), FoundIn(s, n))
  }

  lemma DomainStep(s: string, n: nat)
    requires n < |s|
    ensures DomainEnds(s, n + 1) <==> NonSpace(s[n]) && (AtSignEnds(s, n) || DomainEnds(s, n))
  {
    if DomainEnds(s, n + 1) {
      var p: nat :| p < n + 1 && DomainFrom(s, p, n + 1);
      if p + 1 < n {
        assert DomainFrom(s, p, n);
      }
    }
    if NonSpace(s[n]) && AtSignEnds(s, n) {
      assert DomainFrom(s, n - 1, n + 1);
    }
    if NonSpace(s[n]) && DomainEnds(s, n) {
      var p: nat :| p < n && DomainFrom(s, p, n);
      assert DomainFrom(s, p, n + 1);
    }
  }

  lemma FoundStep(s: string, n: nat)
    requires n < |s|
    ensures FoundIn(s, n + 1) <==> FoundIn(s, n) || (NonSpace(s[n]) && DotEnds(s, n))
  {
    if FoundIn(s, n + 1) && !FoundIn(s, n) {
      var p: nat, q: nat :| p < n + 1 && q + 1 < n + 1 && MatchAt(s, p, q);
      assert q == n - 1;
      assert DomainFrom(s, p, n - 1);
    }
    if NonSpace(s[n]) && DotEnds(s, n) {
      var p: nat :| p < n - 1 && DomainFrom(s, p, n - 1);
      assert MatchAt(s, p, n - 1);
    }
  }

  /** After reading `s[..n]`, each component of the state holds exactly when its meaning does. */
  lemma {:induction false} ScanPrefixMeaning(s: string, n: nat)
    requires n <= |s|
    ensures ScanPrefix(s, n) == Meaning(s, n)
  {
    if n == 0 {
      assert !DomainEnds(s, 0);
      assert !FoundIn(s, 0);
    } else {
      ScanPrefixMeaning(s, n - 1);
      DomainStep(s, n - 1);
      FoundStep(s, n - 1);
    }
  }

  /** The one-pass scanner and the pattern give the same answer on every string. */
  lemma ScanEmailIsPattern(s: string)
    ensures ScanEmail(s) == EmailPattern(s)
  {
    ScanPrefixMeaning(s, |s|);
    if EmailPattern(s) {
      var p: nat, q: nat :| p < |s| && q < |s| && MatchAt(s, p, q);
      assert q + 1 < |s|;
    }
  }
}
