/**
 * The output scrapers `oauth_id`, `oauth_secret` and `bearer_token` of
 * setup.rb. Each one runs a Ruby regular expression over the captured output
 * of a task with `String#match` and returns group 1. The three patterns are
 * modelled as a literal part made of atoms (a character, or the unescaped
 * `.`, which matches anything but a newline) followed by the group:
 *
 *   oauth_id      config.oauth_id     = '(.*?)'
 *   oauth_secret  config.oauth_secret = '(.*?)'
 *   bearer_token  Access token: ([0-9a-z]*)
 *
 * `String#match` tries the start positions from the left and takes the first
 * at which the whole pattern matches. When there is none it returns nil and
 * the `[1]` that follows raises; that is `NoMatch` here.
 */
module Scrape {
  import opened Strings

  /** One position of a pattern: a literal character, or `.` (any character but a newline). */
  datatype Atom = Lit(c: char) | AnyButNewline

  /** What a scraper hands back: group 1 of the leftmost match, or the raise that `nil[1]` causes. */
  datatype Extraction = Found(value: string) | NoMatch

  predicate AtomMatches(a: Atom, c: char) {
    match a
    case Lit(x) => c == x
    case AnyButNewline => c != '\n'
  }

  /** `config.oauth_id     = '`, the part of the `oauth_id` pattern before its group. */
  const OauthIdPattern: seq<Atom> :=
    [Lit('c'), Lit('o'), Lit('n'), Lit('f'), Lit('i'), Lit('g'), AnyButNewline, Lit('o'),
     Lit('a'), Lit('u'), Lit('t'), Lit('h'), Lit('_'), Lit('i'), Lit('d'), Lit(' '), Lit(' '),
     Lit(' '), Lit(' '), Lit(' '), Lit('='), Lit(' '), Lit('\'')]

  /** `config.oauth_secret = '`, the part of the `oauth_secret` pattern before its group. */
  const OauthSecretPattern: seq<Atom> :=
    [Lit('c'), Lit('o'), Lit('n'), Lit('f'), Lit('i'), Lit('g'), AnyButNewline, Lit('o'),
     Lit('a'), Lit('u'), Lit('t'), Lit('h'), Lit('_'), Lit('s'), Lit('e'), Lit('c'), Lit('r'),
     Lit('e'), Lit('t'), Lit(' '), Lit('='), Lit(' '), Lit('\'')]

  /** `Access token: `, the part of the `bearer_token` pattern before its group. */
  const AccessTokenPattern: seq<Atom> :=
    [Lit('A'), Lit('c'), Lit('c'), Lit('e'), Lit('s'), Lit('s'), Lit(' '), Lit('t'), Lit('o'),
     Lit('k'), Lit('e'), Lit('n'), Lit(':'), Lit(' ')]

  /** The atoms of `p` match `s` from position `i` on. */
  predicate PrefixAt(s: string, i: nat, p: seq<Atom>) {
    i + |p| <= |s| && forall k :: 0 <= k < |p| ==> AtomMatches(p[k], s[i + k])
  }

  // ---------------------------------------------------------------------------
  // `(.*?)'` — a lazy run of non-newline characters closed by a quote

  /** `(.*?)'` started at `j` can close at `q`: `s[q]` is a quote and no newline lies in between. */
  ghost predicate ClosesAt(s: string, j: nat, q: nat) {
    j <= q < |s| && s[q] == '\'' && forall t :: j <= t < q ==> s[t] != '\n'
  }

  /** `(.*?)'` started at `j` can close somewhere. */
  ghost predicate Closes(s: string, j: nat) {
    exists q :: ClosesAt(s, j, q)
  }

  /** The whole pattern `p(.*?)'` matches at start position `i`. */
  ghost predicate QuotedMatchAt(s: string, i: nat, p: seq<Atom>) {
    PrefixAt(s, i, p) && Closes(s, i + |p|)
  }

  /** `i` is the leftmost start position at which `p(.*?)'` matches. */
  ghost predicate LeftmostQuoted(s: string, p: seq<Atom>, i: nat) {
    QuotedMatchAt(s, i, p) && forall k :: 0 <= k < i ==> !QuotedMatchAt(s, k, p)
  }

  /** `v` is what the lazy group captures from `j` on: it is followed by a quote and holds no quote itself. */
  ghost predicate LazyCapture(s: string, j: nat, v: string) {
    j + |v| < |s| && s[j..j + |v|] == v && s[j + |v|] == '\'' && '\'' !in v
  }

  /**
   * Where the lazy group closes: the first quote at or after `j`, provided no
   * newline comes before it (the group tries the shortest run first and each
   * extra character must not be a newline). Its meaning is `CloseQuoteSpec`.
   */
  function CloseQuote(s: string, j: nat): (r: Option<nat>)
    requires j <= |s|
    ensures r.Some? ==> j <= r.value < |s| && s[r.value] == '\''
    decreases |s| - j
  {
    if j == |s| || s[j] == '\n' then None
    else if s[j] == '\'' then Some(j)
    else CloseQuote(s, j + 1)
  }

  lemma {:induction false} CloseQuoteSpec(s: string, j: nat)
    requires j <= |s|
    ensures CloseQuote(s, j).Some? <==> Closes(s, j)
    ensures CloseQuote(s, j).Some? ==> ClosesAt(s, j, CloseQuote(s, j).value)
    ensures CloseQuote(s, j).Some? ==> forall t :: j <= t < CloseQuote(s, j).value ==> s[t] != '\''
    decreases |s| - j
  {
    if j == |s| || s[j] == '\n' {
    } else if s[j] == '\'' {
      assert ClosesAt(s, j, j);
    } else {
      CloseQuoteSpec(s, j + 1);
      if Closes(s, j) {
        var q :| ClosesAt(s, j, q);
        assert ClosesAt(s, j + 1, q);
      }
      if CloseQuote(s, j).Some? {
        assert ClosesAt(s, j, CloseQuote(s, j).value);
      }
    }
  }

  /** The leftmost start position at or after `i` at which `p(.*?)'` matches, with where its group closes. */
  function SearchQuoted(s: string, p: seq<Atom>, i: nat): (r: Option<(nat, nat)>)
    requires i <= |s|
    ensures r.Some? ==> i <= r.value.0 && r.value.0 + |p| <= r.value.1 < |s| && s[r.value.1] == '\''
    decreases |s| - i
  {
    if PrefixAt(s, i, p) && CloseQuote(s, i + |p|).Some? then Some((i, CloseQuote(s, i + |p|).value))
    else if i == |s| then None
    else SearchQuoted(s, p, i + 1)
  }

  /** A start position matches exactly when its prefix matches and the lazy group closes after it. */
  lemma QuotedMatchAtSpec(s: string, i: nat, p: seq<Atom>)
    requires i <= |s|
    ensures QuotedMatchAt(s, i, p) <==> PrefixAt(s, i, p) && CloseQuote(s, i + |p|).Some?
  {
    if PrefixAt(s, i, p) {
      CloseQuoteSpec(s, i + |p|);
    }
  }

  lemma {:induction false} SearchQuotedSpec(s: string, p: seq<Atom>, i: nat)
    requires i <= |s|
    ensures var r := SearchQuoted(s, p, i);
      && (r.None? <==> forall k :: i <= k ==> !QuotedMatchAt(s, k, p))
      && (r.Some? ==> i <= r.value.0 && QuotedMatchAt(s, r.value.0, p))
      && (r.Some? ==> forall k :: i <= k < r.value.0 ==> !QuotedMatchAt(s, k, p))
      && (r.Some? ==> r.value.0 + |p| <= |s| && CloseQuote(s, r.value.0 + |p|) == Some(r.value.1))
    decreases |s| - i
  {
    QuotedMatchAtSpec(s, i, p);
    if PrefixAt(s, i, p) && CloseQuote(s, i + |p|).Some? {
    } else if i == |s| {
      forall k | i <= k ensures !QuotedMatchAt(s, k, p) {
      }
    } else {
      SearchQuotedSpec(s, p, i + 1);
      var r := SearchQuoted(s, p, i + 1);
      assert SearchQuoted(s, p, i) == r;
      if r.None? {
        forall k | i <= k ensures !QuotedMatchAt(s, k, p) {
          if k > i {
          }
        }
      }
    }
  }

  /** Group 1 of `p(.*?)'` at the leftmost match, or `NoMatch`; its meaning is `ScrapeQuotedSpec`. */
  function ScrapeQuoted(s: string, p: seq<Atom>): (r: Extraction)
    ensures r.Found? ==> |p| + |r.value| < |s|
  {
    match SearchQuoted(s, p, 0)
    case None => NoMatch
    case Some((m, q)) => Found(s[m + |p|..q])
  }

  /** The text from `j` up to where the lazy group closes is its capture, and it holds no newline. */
  lemma CloseQuoteCapture(s: string, j: nat, q: nat)
    requires j <= |s| && CloseQuote(s, j) == Some(q)
    ensures LazyCapture(s, j, s[j..q]) && '\n' !in s[j..q]
  {
    CloseQuoteSpec(s, j);
    var v := s[j..q];
    assert forall t :: 0 <= t < |v| ==> v[t] == s[j + t];
  }

  /** The scrape fails exactly when nothing matches, and otherwise returns the lazy capture at the leftmost match. */
  lemma ScrapeQuotedSpec(s: string, p: seq<Atom>)
    ensures var r := ScrapeQuoted(s, p);
      && (r.NoMatch? <==> forall k :: !QuotedMatchAt(s, k, p))
      && (r.Found? ==> '\'' !in r.value && '\n' !in r.value)
      && (r.Found? ==> exists m: nat :: LeftmostQuoted(s, p, m) && LazyCapture(s, m + |p|, r.value))
  {
    SearchQuotedSpec(s, p, 0);
    match SearchQuoted(s, p, 0)
    case None =>
    case Some((m, q)) =>
      CloseQuoteCapture(s, m + |p|, q);
      assert LeftmostQuoted(s, p, m);
  }

  /** `oauth_id(output)`. */
  function OauthId(output: string): (r: Extraction)
    ensures r.Found? ==> |OauthIdPattern| + |r.value| < |output|
  {
    ScrapeQuoted(output, OauthIdPattern)
  }

  /** `oauth_secret(output)`. */
  function OauthSecret(output: string): (r: Extraction)
    ensures r.Found? ==> |OauthSecretPattern| + |r.value| < |output|
  {
    ScrapeQuoted(output, OauthSecretPattern)
  }

  /**
   * `oauth_id` fails exactly when no `config?oauth_id     = '...'` closes on
   * its line; otherwise it returns the text up to the first quote after the
   * leftmost such prefix, which holds no quote and no newline.
   */
  lemma OauthIdSpec(output: string)
    ensures OauthId(output).NoMatch? <==> forall k :: !QuotedMatchAt(output, k, OauthIdPattern)
    ensures OauthId(output).Found? ==> '\'' !in OauthId(output).value && '\n' !in OauthId(output).value
    ensures OauthId(output).Found? ==>
              exists m: nat :: LeftmostQuoted(output, OauthIdPattern, m)
                               && LazyCapture(output, m + |OauthIdPattern|, OauthId(output).value)
  {
    ScrapeQuotedSpec(output, OauthIdPattern);
  }

  /** `oauth_secret` has the same contract with the `config?oauth_secret = '` prefix. */
  lemma OauthSecretSpec(output: string)
    ensures OauthSecret(output).NoMatch? <==> forall k :: !QuotedMatchAt(output, k, OauthSecretPattern)
    ensures OauthSecret(output).Found? ==> '\'' !in OauthSecret(output).value && '\n' !in OauthSecret(output).value
    ensures OauthSecret(output).Found? ==>
              exists m: nat :: LeftmostQuoted(output, OauthSecretPattern, m)
                               && LazyCapture(output, m + |OauthSecretPattern|, OauthSecret(output).value)
  {
    ScrapeQuotedSpec(output, OauthSecretPattern);
  }

  /** The lazy group's capture is unique: at most one value satisfies `LazyCapture` at a position. */
  lemma LazyCaptureUnique(s: string, j: nat, v: string, w: string)
    requires LazyCapture(s, j, v) && LazyCapture(s, j, w)
    ensures v == w
  {
  }

  /** The leftmost match position is unique. */
  lemma LeftmostQuotedUnique(s: string, p: seq<Atom>, m: nat, n: nat)
    requires LeftmostQuoted(s, p, m) && LeftmostQuoted(s, p, n)
    ensures m == n
  {
  }

  /**
   * The scrape is fully determined: whenever `v` is the lazy capture at the
   * leftmost match, `ScrapeQuoted` returns exactly `v`.
   */
  lemma ScrapeQuotedExact(s: string, p: seq<Atom>, m: nat, v: string)
    requires LeftmostQuoted(s, p, m) && LazyCapture(s, m + |p|, v)
    ensures ScrapeQuoted(s, p) == Found(v)
  {
    ScrapeQuotedSpec(s, p);
    var r := ScrapeQuoted(s, p);
    assert QuotedMatchAt(s, m, p);
    assert r.Found?;
    var m': nat :| LeftmostQuoted(s, p, m') && LazyCapture(s, m' + |p|, r.value);
    LeftmostQuotedUnique(s, p, m, m');
    LazyCaptureUnique(s, m + |p|, v, r.value);
  }

  /** A task output of the shape the sign-on service prints when it creates an application. */
  const SampleIdLine: string := "config.oauth_id     = 'X1'\n"
  const SampleSecretLine: string := "config.oauth_secret = 'Y2'\n"

  lemma OauthIdExample()
    ensures OauthId(SampleIdLine + SampleSecretLine) == Found("X1")
  {
    var s := SampleIdLine + SampleSecretLine;
    assert PrefixAt(s, 0, OauthIdPattern);
    assert ClosesAt(s, 23, 25);
    assert LeftmostQuoted(s, OauthIdPattern, 0);
    assert s[23..25] == "X1";
    assert LazyCapture(s, 23, "X1");
    ScrapeQuotedExact(s, OauthIdPattern, 0, "X1");
  }

  /** No secret prefix starts on the id line: `c` occurs there only at its start, where `_i` follows `oauth`. */
  lemma NoSecretOnIdLine()
    ensures forall k :: 0 <= k < |SampleIdLine| ==> !PrefixAt(SampleIdLine + SampleSecretLine, k, OauthSecretPattern)
  {
    var s := SampleIdLine + SampleSecretLine;
    var tail := "onfig.oauth_id     = 'X1'\n";
    assert SampleIdLine == "c" + tail;
    assert 'c' !in tail;
    forall k | 0 <= k < |SampleIdLine| ensures !PrefixAt(s, k, OauthSecretPattern) {
      if k == 0 {
        assert !AtomMatches(OauthSecretPattern[13], s[13]);
      } else {
        assert s[k] == tail[k - 1];
        assert !AtomMatches(OauthSecretPattern[0], s[k]);
      }
    }
  }

  /** The secret is taken from the second line of the sample output. */
  lemma OauthSecretExample()
    ensures OauthSecret(SampleIdLine + SampleSecretLine) == Found("Y2")
  {
    var s := SampleIdLine + SampleSecretLine;
    NoSecretOnIdLine();
    assert PrefixAt(s, 27, OauthSecretPattern);
    assert ClosesAt(s, 50, 52);
    assert LeftmostQuoted(s, OauthSecretPattern, 27);
    assert s[50..52] == "Y2";
    assert LazyCapture(s, 50, "Y2");
    ScrapeQuotedExact(s, OauthSecretPattern, 27, "Y2");
  }

  // ---------------------------------------------------------------------------
  // `([0-9a-z]*)` — a greedy, possibly empty run of digits and lower-case letters

  predicate IsTokenChar(c: char) {
    '0' <= c <= '9' || 'a' <= c <= 'z'
  }

  /** `v` is what the greedy group captures from `j` on: the longest run of token characters there. */
  ghost predicate GreedyCapture(s: string, j: nat, v: string) {
    j + |v| <= |s| && s[j..j + |v|] == v
    && (forall t :: 0 <= t < |v| ==> IsTokenChar(v[t]))
    && (j + |v| == |s| || !IsTokenChar(s[j + |v|]))
  }

  /** `i` is the leftmost position at which the literal atoms `p` match. */
  ghost predicate LeftmostPrefix(s: string, p: seq<Atom>, i: nat) {
    PrefixAt(s, i, p) && forall k :: 0 <= k < i ==> !PrefixAt(s, k, p)
  }

  /** The length of the run of token characters that starts at `j`; its meaning is `TokenRunSpec`. */
  function TokenRun(s: string, j: nat): (n: nat)
    requires j <= |s|
    ensures j + n <= |s|
    decreases |s| - j
  {
    if j < |s| && IsTokenChar(s[j]) then 1 + TokenRun(s, j + 1) else 0
  }

  /** The run is maximal: every character in it is a token character, and the next one is not. */
  lemma {:induction false} TokenRunSpec(s: string, j: nat)
    requires j <= |s|
    ensures forall t :: j <= t < j + TokenRun(s, j) ==> IsTokenChar(s[t])
    ensures j + TokenRun(s, j) == |s| || !IsTokenChar(s[j + TokenRun(s, j)])
    decreases |s| - j
  {
    if j < |s| && IsTokenChar(s[j]) {
      TokenRunSpec(s, j + 1);
    }
  }

  /** The leftmost position at or after `i` at which the atoms `p` match; its meaning is `SearchPrefixSpec`. */
  function SearchPrefix(s: string, p: seq<Atom>, i: nat): (r: Option<nat>)
    requires i <= |s|
    ensures r.Some? ==> i <= r.value && r.value + |p| <= |s|
    decreases |s| - i
  {
    if PrefixAt(s, i, p) then Some(i)
    else if i == |s| then None
    else SearchPrefix(s, p, i + 1)
  }

  lemma {:induction false} SearchPrefixSpec(s: string, p: seq<Atom>, i: nat)
    requires i <= |s|
    ensures SearchPrefix(s, p, i).None? <==> forall k :: i <= k ==> !PrefixAt(s, k, p)
    ensures SearchPrefix(s, p, i).Some? ==> PrefixAt(s, SearchPrefix(s, p, i).value, p)
    ensures SearchPrefix(s, p, i).Some? ==> forall k :: i <= k < SearchPrefix(s, p, i).value ==> !PrefixAt(s, k, p)
    decreases |s| - i
  {
    if PrefixAt(s, i, p) {
    } else if i == |s| {
      forall k | i <= k ensures !PrefixAt(s, k, p) {
      }
    } else {
      SearchPrefixSpec(s, p, i + 1);
    }
  }

  /**
   * `bearer_token(output)`: the token characters right after the leftmost
   * `Access token: `, or `NoMatch`; its meaning is `BearerTokenSpec`.
   */
  function BearerToken(output: string): (r: Extraction)
    ensures r.Found? ==> |AccessTokenPattern| + |r.value| <= |output|
  {
    match SearchPrefix(output, AccessTokenPattern, 0)
    case None => NoMatch
    case Some(m) =>
      var j := m + |AccessTokenPattern|;
      Found(output[j..j + TokenRun(output, j)])
  }

  /**
   * The scrape fails only when the label is absent; otherwise it returns the
   * longest, possibly empty, run of token characters right after the leftmost
   * label.
   */
  lemma BearerTokenSpec(output: string)
    ensures BearerToken(output).NoMatch? <==> forall k :: !PrefixAt(output, k, AccessTokenPattern)
    ensures BearerToken(output).Found? ==>
              forall t :: 0 <= t < |BearerToken(output).value| ==> IsTokenChar(BearerToken(output).value[t])
    ensures BearerToken(output).Found? ==>
              exists m: nat :: LeftmostPrefix(output, AccessTokenPattern, m)
                               && GreedyCapture(output, m + |AccessTokenPattern|, BearerToken(output).value)
  {
    SearchPrefixSpec(output, AccessTokenPattern, 0);
    var r := SearchPrefix(output, AccessTokenPattern, 0);
    if r.Some? {
      var m := r.value;
      var j := m + |AccessTokenPattern|;
      TokenRunSpec(output, j);
      var v := output[j..j + TokenRun(output, j)];
      assert BearerToken(output) == Found(v);
      assert forall t :: 0 <= t < |v| ==> v[t] == output[j + t];
      assert LeftmostPrefix(output, AccessTokenPattern, m);
      assert GreedyCapture(output, j, v);
    }
  }

  /** A greedy capture is exactly the run `TokenRun` measures, so it is unique at each position. */
  lemma {:induction false} GreedyCaptureIsRun(s: string, j: nat, v: string)
    requires GreedyCapture(s, j, v)
    ensures |v| == TokenRun(s, j)
    ensures v == s[j..j + TokenRun(s, j)]
    decreases |v|
  {
    if |v| > 0 {
      assert s[j] == v[0];
      assert GreedyCapture(s, j + 1, v[1..]) by {
        assert s[j + 1..j + 1 + |v[1..]|] == v[1..];
        assert forall t :: 0 <= t < |v[1..]| ==> v[1..][t] == v[t + 1];
      }
      GreedyCaptureIsRun(s, j + 1, v[1..]);
    }
  }

  /**
   * The scrape is fully determined: whenever `v` is the greedy capture after
   * the leftmost label, `BearerToken` returns exactly `v`.
   */
  lemma BearerTokenExact(output: string, m: nat, v: string)
    requires LeftmostPrefix(output, AccessTokenPattern, m)
    requires GreedyCapture(output, m + |AccessTokenPattern|, v)
    ensures BearerToken(output) == Found(v)
  {
    SearchPrefixSpec(output, AccessTokenPattern, 0);
    var r := SearchPrefix(output, AccessTokenPattern, 0);
    assert PrefixAt(output, m, AccessTokenPattern);
    assert r.Some?;
    assert PrefixAt(output, r.value, AccessTokenPattern);
    assert r.value == m;
    GreedyCaptureIsRun(output, m + |AccessTokenPattern|, v);
  }

  /** The token stops at the first character outside `[0-9a-z]`, here a newline. */
  lemma BearerTokenExample()
    ensures BearerToken("Access token: ab12\n") == Found("ab12")
  {
    var s := "Access token: ab12\n";
    assert PrefixAt(s, 0, AccessTokenPattern);
    assert LeftmostPrefix(s, AccessTokenPattern, 0);
    assert s[14..18] == "ab12";
    assert GreedyCapture(s, 14, "ab12");
    BearerTokenExact(s, 0, "ab12");
  }

  /** An upper-case token is not captured, but the label still matches, so the result is empty. */
  lemma EmptyBearerTokenExample()
    ensures BearerToken("Access token: AB\n") == Found("")
  {
    var s := "Access token: AB\n";
    assert PrefixAt(s, 0, AccessTokenPattern);
    assert LeftmostPrefix(s, AccessTokenPattern, 0);
    assert s[14..14] == "";
    assert GreedyCapture(s, 14, "");
    BearerTokenExact(s, 0, "");
  }
}
