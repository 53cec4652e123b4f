/**
 * The credentials file `../oauthcreds` that setup.rb fills while it drives
 * the single sign-on service: the key each application's lines carry, the
 * `KEY=value` line format, and the file itself, which the script only ever
 * opens in append mode.
 */
module Credentials {
  import opened Strings
  import opened Scrape

  // ---------------------------------------------------------------------------
  // Key derivation: `app.upcase.gsub('-','_')`

  predicate IsLower(c: char) {
    'a' <= c <= 'z'
  }

  /** A lower-case ASCII letter becomes its capital; every other character stays. */
  function UpcaseChar(c: char): (u: char)
    ensures IsLower(c) ==> 'A' <= u <= 'Z' && u as int == c as int - 32
    ensures !IsLower(c) ==> u == c
  {
    if IsLower(c) then (c as int - 32) as char else c
  }

  /** `upcase` on ASCII text, character by character. */
  function Upcase(s: string): (r: string)
    ensures |r| == |s|
    ensures forall i :: 0 <= i < |r| ==> !IsLower(r[i])
    ensures forall i :: 0 <= i < |s| && IsLower(s[i]) ==> r[i] as int == s[i] as int - 32
    ensures forall i :: 0 <= i < |s| && !IsLower(s[i]) ==> r[i] == s[i]
  {
    seq(|s|, i requires 0 <= i < |s| => UpcaseChar(s[i]))
  }

  /** A hyphen becomes an underscore; every other character stays. */
  function HyphenToUnderscore(c: char): char {
    if c == '-' then '_' else c
  }

  /** `gsub('-', '_')`, character by character. */
  function ReplaceHyphens(s: string): (r: string)
    ensures |r| == |s| && '-' !in r
    ensures forall i :: 0 <= i < |s| && s[i] == '-' ==> r[i] == '_'
    ensures forall i :: 0 <= i < |s| && s[i] != '-' ==> r[i] == s[i]
  {
    seq(|s|, i requires 0 <= i < |s| => HyphenToUnderscore(s[i]))
  }

  /** The key prefix of an application's lines, in the form of an environment variable name. */
  function KeyPrefix(app: string): (key: string)
    ensures |key| == |app|
    ensures '-' !in key
    ensures forall i :: 0 <= i < |key| ==> !IsLower(key[i])
  {
    ReplaceHyphens(Upcase(app))
  }

  /**
   * Position by position, the key prefix is the name with each `-` turned into
   * `_`, each lower-case ASCII letter into its capital and every other
   * character kept.
   */
  lemma KeyPrefixChars(app: string)
    ensures |KeyPrefix(app)| == |app|
    ensures forall i :: 0 <= i < |app| && app[i] == '-' ==> KeyPrefix(app)[i] == '_'
    ensures forall i :: 0 <= i < |app| && IsLower(app[i]) ==> KeyPrefix(app)[i] as int == app[i] as int - 32
    ensures forall i :: 0 <= i < |app| && !IsLower(app[i]) && app[i] != '-' ==> KeyPrefix(app)[i] == app[i]
  {
  }

  /** Deriving the key prefix a second time changes nothing. */
  lemma {:induction false} KeyPrefixIdempotent(app: string)
    ensures KeyPrefix(KeyPrefix(app)) == KeyPrefix(app)
  {
    var key := KeyPrefix(app);
    forall i | 0 <= i < |key| ensures KeyPrefix(key)[i] == key[i] {
      assert UpcaseChar(key[i]) == key[i];
    }
  }

  /** Characters other than letters, hyphens and underscores are carried over unchanged. */
  lemma KeyPrefixKeeps(app: string, c: char)
    requires !IsLower(c) && !('A' <= c <= 'Z') && c != '-' && c != '_'
    ensures c in app <==> c in KeyPrefix(app)
  {
    var key := KeyPrefix(app);
    if c in app {
      var i :| 0 <= i < |app| && app[i] == c;
      assert key[i] == c;
    }
    if c in key {
      var i :| 0 <= i < |key| && key[i] == c;
      assert app[i] == c;
    }
  }

  /** The asset manager's lines carry the prefix `ASSET_MANAGER`. */
  lemma AssetManagerKey()
    ensures KeyPrefix("asset-manager") == "ASSET_MANAGER"
  {
  }

  // ---------------------------------------------------------------------------
  // Lines

  const OauthIdKey: string := "_OAUTH_ID"
  const OauthSecretKey: string := "_OAUTH_SECRET"
  const AssetManagerTokenKey: string := "_ASSET_MANAGER_BEARER_TOKEN"
  const ApiClientTokenKey: string := "_API_CLIENT_BEARER_TOKEN"
  const FrontendTokenKey: string := "QUIRKAFLEEG_FRONTEND_CONTENTAPI_BEARER_TOKEN"

  /** One line of the credentials file, as `f << "#{key}=#{value}\n"` writes it. */
  function CredentialLine(key: string, value: string): (line: string)
    ensures |line| == |key| + |value| + 2
  {
    key + "=" + value + "\n"
  }

  /** A line is the key, then `=` right after it, then the value and the closing newline. */
  lemma CredentialLineShape(key: string, value: string)
    ensures StartsWith(CredentialLine(key, value), key)
    ensures CredentialLine(key, value)[|key|] == '='
    ensures EndsWith(CredentialLine(key, value), value + "\n")
  {
  }

  /**
   * How a reader of the file splits one line: the key runs up to the first
   * `=`, the value from there to the closing newline, which must be the only
   * newline of the line.
   */
  function ReadLine(line: string): (r: Option<(string, string)>)
    ensures r.Some? ==> '=' !in r.value.0 && '\n' !in r.value.0 && '\n' !in r.value.1
    ensures r.Some? ==> CredentialLine(r.value.0, r.value.1) == line
  {
    if |line| == 0 || line[|line| - 1] != '\n' || '\n' in line[..|line| - 1] then None
    else
      IndexOfSpec(line, '=', 0);
      match IndexOf(line, '=', 0)
      case None => None
      case Some(e) =>
        var key, value := line[..e], line[e + 1..|line| - 1];
        assert forall k :: 0 <= k < |key| ==> key[k] == line[k];
        assert line == key + "=" + value + "\n";
        Some((key, value))
  }

  /** A line written for a key without `=` or newline and a value without newline reads back as that key and value. */
  lemma ReadCredentialLine(key: string, value: string)
    requires '=' !in key && '\n' !in key && '\n' !in value
    ensures ReadLine(CredentialLine(key, value)) == Some((key, value))
  {
    var line := CredentialLine(key, value);
    assert line[..|line| - 1] == key + "=" + value;
    assert '\n' !in line[..|line| - 1] by {
      forall k | 0 <= k < |line| - 1 ensures line[k] != '\n' {
        if k < |key| {
          assert line[k] == key[k];
        } else if k > |key| {
          assert line[k] == value[k - |key| - 1];
        }
      }
    }
    assert line[|key|] == '=';
    assert forall k :: 0 <= k < |key| ==> line[k] == key[k];
    IndexOfFirst(line, '=', 0, |key|);
    assert line[..|key|] == key;
    assert line[|key| + 1..|line| - 1] == value;
  }

  /** What an application name must avoid for its keys to read back. */
  predicate IsPlainName(app: string) {
    '=' !in app && '\n' !in app
  }

  /** A key built from a plain name and a fixed suffix is readable. */
  lemma PlainKey(app: string, suffix: string)
    requires IsPlainName(app) && '=' !in suffix && '\n' !in suffix
    ensures '=' !in KeyPrefix(app) + suffix && '\n' !in KeyPrefix(app) + suffix
  {
    KeyPrefixKeeps(app, '=');
    KeyPrefixKeeps(app, '\n');
  }

  // ---------------------------------------------------------------------------
  // What each step appends

  /**
   * The lines the per-application OAuth step appends, given what `oauth_id`
   * and `oauth_secret` returned. The first line's text is built before it is
   * written, so a failed id scrape writes nothing; a failed secret scrape
   * raises after the id line has gone out, and the block's file is still
   * closed, so the id line stays.
   */
  function OauthLines(app: string, id: Extraction, secret: Extraction): (lines: seq<string>)
    ensures |lines| == 0 <==> id.NoMatch?
    ensures |lines| == 1 <==> id.Found? && secret.NoMatch?
    ensures |lines| == 2 <==> id.Found? && secret.Found?
  {
    match id
    case NoMatch => []
    case Found(v) =>
      [CredentialLine(KeyPrefix(app) + OauthIdKey, v)] +
      match secret
      case NoMatch => []
      case Found(w) => [CredentialLine(KeyPrefix(app) + OauthSecretKey, w)]
  }

  /** The lines the per-client bearer-token step appends, given what `bearer_token` returned. */
  function BearerLines(app: string, token: Extraction): (lines: seq<string>)
    ensures |lines| == 0 <==> token.NoMatch?
    ensures |lines| == 2 <==> token.Found?
  {
    match token
    case NoMatch => []
    case Found(v) =>
      [CredentialLine(KeyPrefix(app) + AssetManagerTokenKey, v),
       CredentialLine(KeyPrefix(app) + ApiClientTokenKey, v)]
  }

  /** The line the frontend step appends, given what `bearer_token` returned. */
  function FrontendLines(token: Extraction): (lines: seq<string>)
    ensures |lines| == 0 <==> token.NoMatch?
    ensures |lines| == 1 <==> token.Found?
  {
    match token
    case NoMatch => []
    case Found(v) => [CredentialLine(FrontendTokenKey, v)]
  }

  /** `oauth_id` applied to each captured output. */
  function OauthIds(outputs: seq<string>): (ids: seq<Extraction>)
    ensures |ids| == |outputs|
  {
    seq(|outputs|, i requires 0 <= i < |outputs| => OauthId(outputs[i]))
  }

  /** `oauth_secret` applied to each captured output. */
  function OauthSecrets(outputs: seq<string>): (secrets: seq<Extraction>)
    ensures |secrets| == |outputs|
  {
    seq(|outputs|, i requires 0 <= i < |outputs| => OauthSecret(outputs[i]))
  }

  /** `bearer_token` applied to each captured output. */
  function BearerTokens(outputs: seq<string>): (tokens: seq<Extraction>)
    ensures |tokens| == |outputs|
  {
    seq(|outputs|, i requires 0 <= i < |outputs| => BearerToken(outputs[i]))
  }

  /** The lines the OAuth steps append for the first `n` applications, in order. */
  function AllOauthLines(apps: seq<string>, ids: seq<Extraction>, secrets: seq<Extraction>, n: nat): seq<string>
    requires |ids| == |apps| && |secrets| == |apps| && n <= |apps|
  {
    if n == 0 then [] else AllOauthLines(apps, ids, secrets, n - 1) + OauthLines(apps[n - 1], ids[n - 1], secrets[n - 1])
  }

  /** The lines the bearer-token steps append for the first `n` clients, in order. */
  function AllBearerLines(clients: seq<string>, tokens: seq<Extraction>, n: nat): seq<string>
    requires |tokens| == |clients| && n <= |clients|
  {
    if n == 0 then [] else AllBearerLines(clients, tokens, n - 1) + BearerLines(clients[n - 1], tokens[n - 1])
  }

  /** A scraped value can be written on one line. */
  predicate OneLine(e: Extraction) {
    e.Found? ==> '\n' !in e.value
  }

  /**
   * For a plain name, the OAuth step appends nothing when the id scrape
   * fails, only the id line when the secret scrape fails, and otherwise the
   * id line and then the secret line, each of which reads back as its key and
   * the scraped value.
   */
  lemma OauthLinesRead(app: string, id: Extraction, secret: Extraction)
    requires IsPlainName(app) && OneLine(id) && OneLine(secret)
    ensures id.NoMatch? ==> OauthLines(app, id, secret) == []
    ensures id.Found? && secret.NoMatch? ==> |OauthLines(app, id, secret)| == 1
    ensures id.Found? && secret.Found? ==> |OauthLines(app, id, secret)| == 2
    ensures id.Found? ==> ReadLine(OauthLines(app, id, secret)[0]) == Some((KeyPrefix(app) + OauthIdKey, id.value))
    ensures id.Found? && secret.Found? ==>
              ReadLine(OauthLines(app, id, secret)[1]) == Some((KeyPrefix(app) + OauthSecretKey, secret.value))
  {
    PlainKey(app, OauthIdKey);
    PlainKey(app, OauthSecretKey);
    if id.Found? {
      ReadCredentialLine(KeyPrefix(app) + OauthIdKey, id.value);
      if secret.Found? {
        ReadCredentialLine(KeyPrefix(app) + OauthSecretKey, secret.value);
      }
    }
  }

  /**
   * For the captured output of `applications:create`, the OAuth step appends
   * nothing exactly when no id line matches, only the id line exactly when
   * the id matches and the secret does not, and otherwise both lines, id
   * first. Each line reads back as its key and the scraped value.
   */
  lemma OauthLinesOutcomes(app: string, output: string)
    requires IsPlainName(app)
    ensures var lines := OauthLines(app, OauthId(output), OauthSecret(output));
      && (lines == [] <==> forall k :: !QuotedMatchAt(output, k, OauthIdPattern))
      && (|lines| == 1 <==>
            (exists k :: QuotedMatchAt(output, k, OauthIdPattern))
            && forall k :: !QuotedMatchAt(output, k, OauthSecretPattern))
      && |lines| <= 2
      && (|lines| >= 1 ==> ReadLine(lines[0]) == Some((KeyPrefix(app) + OauthIdKey, OauthId(output).value)))
      && (|lines| == 2 ==> ReadLine(lines[1]) == Some((KeyPrefix(app) + OauthSecretKey, OauthSecret(output).value)))
  {
    OauthIdSpec(output);
    OauthSecretSpec(output);
    OauthLinesRead(app, OauthId(output), OauthSecret(output));
  }

  /**
   * For a plain name, the bearer-token step appends nothing when the scrape
   * fails and otherwise two lines, the asset-manager key first, that read
   * back as the same token.
   */
  lemma BearerLinesRead(app: string, token: Extraction)
    requires IsPlainName(app) && OneLine(token)
    ensures token.NoMatch? <==> BearerLines(app, token) == []
    ensures token.Found? ==>
              var lines := BearerLines(app, token);
              |lines| == 2
              && ReadLine(lines[0]) == Some((KeyPrefix(app) + AssetManagerTokenKey, token.value))
              && ReadLine(lines[1]) == Some((KeyPrefix(app) + ApiClientTokenKey, token.value))
  {
    PlainKey(app, AssetManagerTokenKey);
    PlainKey(app, ApiClientTokenKey);
    if token.Found? {
      ReadCredentialLine(KeyPrefix(app) + AssetManagerTokenKey, token.value);
      ReadCredentialLine(KeyPrefix(app) + ApiClientTokenKey, token.value);
    }
  }

  /** A bearer token is made of `[0-9a-z]` only, so it never holds a newline. */
  lemma BearerTokenOneLine(output: string)
    ensures OneLine(BearerToken(output))
  {
    BearerTokenSpec(output);
    var token := BearerToken(output);
    if token.Found? {
      assert forall t :: 0 <= t < |token.value| ==> IsTokenChar(token.value[t]);
    }
  }

  /**
   * For the captured output of `api_clients:create`, the bearer-token step
   * appends nothing exactly when `Access token: ` is absent, and otherwise
   * two lines, the asset-manager key first, that read back as the same token.
   */
  lemma BearerLinesOutcomes(app: string, output: string)
    requires IsPlainName(app)
    ensures BearerLines(app, BearerToken(output)) == [] <==> forall k :: !PrefixAt(output, k, AccessTokenPattern)
    ensures BearerLines(app, BearerToken(output)) != [] ==>
              var lines, token := BearerLines(app, BearerToken(output)), BearerToken(output).value;
              |lines| == 2
              && ReadLine(lines[0]) == Some((KeyPrefix(app) + AssetManagerTokenKey, token))
              && ReadLine(lines[1]) == Some((KeyPrefix(app) + ApiClientTokenKey, token))
  {
    BearerTokenSpec(output);
    BearerTokenOneLine(output);
    BearerLinesRead(app, BearerToken(output));
  }

  /** The frontend key holds neither `=` nor a newline. */
  lemma FrontendKeyPlain()
    ensures '=' !in FrontendTokenKey && '\n' !in FrontendTokenKey
  {
    forall k | 0 <= k < |FrontendTokenKey| ensures FrontendTokenKey[k] != '=' && FrontendTokenKey[k] != '\n' {
    }
  }

  /** The frontend step appends nothing when the scrape fails, and otherwise one line that reads back as the token. */
  lemma FrontendLinesRead(token: Extraction)
    requires OneLine(token)
    ensures token.NoMatch? <==> FrontendLines(token) == []
    ensures token.Found? ==> ReadLine(FrontendLines(token)[0]) == Some((FrontendTokenKey, token.value))
  {
    if token.Found? {
      FrontendKeyPlain();
      ReadCredentialLine(FrontendTokenKey, token.value);
    }
  }

  /**
   * For the captured output of the frontends' `api_clients:create`, the
   * frontend step appends nothing exactly when `Access token: ` is absent,
   * and otherwise the one line `QUIRKAFLEEG_FRONTEND_CONTENTAPI_BEARER_TOKEN=<token>`.
   */
  lemma FrontendLinesOutcomes(output: string)
    ensures FrontendLines(BearerToken(output)) == [] <==> forall k :: !PrefixAt(output, k, AccessTokenPattern)
    ensures FrontendLines(BearerToken(output)) != [] ==>
              FrontendLines(BearerToken(output)) == [CredentialLine(FrontendTokenKey, BearerToken(output).value)]
              && ReadLine(FrontendLines(BearerToken(output))[0]) == Some((FrontendTokenKey, BearerToken(output).value))
  {
    BearerTokenSpec(output);
    BearerTokenOneLine(output);
    FrontendLinesRead(BearerToken(output));
  }

  /**
   * Given the sample output (`config.oauth_id     = 'X1'` then
   * `config.oauth_secret = 'Y2'`), the step for `publisher` appends exactly
   * `PUBLISHER_OAUTH_ID=X1` and then `PUBLISHER_OAUTH_SECRET=Y2`.
   */
  lemma PublisherExample()
    ensures var output := SampleIdLine + SampleSecretLine;
            OauthLines("publisher", OauthId(output), OauthSecret(output))
            == ["PUBLISHER_OAUTH_ID=X1\n", "PUBLISHER_OAUTH_SECRET=Y2\n"]
  {
    OauthIdExample();
    OauthSecretExample();
    PublisherLines();
  }

  /** `publisher` becomes `PUBLISHER`. */
  lemma PublisherKey()
    ensures KeyPrefix("publisher") == "PUBLISHER"
  {
  }

  /** The two lines written for `publisher` with the sample id and secret. */
  lemma PublisherLines()
    ensures OauthLines("publisher", Found("X1"), Found("Y2"))
            == ["PUBLISHER_OAUTH_ID=X1\n", "PUBLISHER_OAUTH_SECRET=Y2\n"]
  {
    PublisherKey();
    assert "PUBLISHER" + OauthIdKey + "=" + "X1" + "\n" == "PUBLISHER_OAUTH_ID=X1\n";
    assert "PUBLISHER" + OauthSecretKey + "=" + "Y2" + "\n" == "PUBLISHER_OAUTH_SECRET=Y2\n";
  }

  /** The OAuth steps append at most two lines per application. */
  lemma {:induction false} AllOauthLinesBound(apps: seq<string>, ids: seq<Extraction>, secrets: seq<Extraction>, n: nat)
    requires |ids| == |apps| && |secrets| == |apps| && n <= |apps|
    ensures |AllOauthLines(apps, ids, secrets, n)| <= 2 * n
  {
    if n > 0 {
      AllOauthLinesBound(apps, ids, secrets, n - 1);
    }
  }

  /** Every line splits back into a key and a value. */
  predicate Readable(lines: seq<string>) {
    forall i :: 0 <= i < |lines| ==> ReadLine(lines[i]).Some?
  }

  /** Appending readable lines to readable lines keeps the file readable. */
  lemma ReadableAppend(front: seq<string>, last: seq<string>)
    requires Readable(front) && Readable(last)
    ensures Readable(front + last)
  {
    forall i | 0 <= i < |front + last| ensures ReadLine((front + last)[i]).Some? {
      if i < |front| {
        assert (front + last)[i] == front[i];
      } else {
        assert (front + last)[i] == last[i - |front|];
      }
    }
  }

  /** The lines of one OAuth step for a plain name and one-line values are readable. */
  lemma OauthLinesReadable(app: string, id: Extraction, secret: Extraction)
    requires IsPlainName(app) && OneLine(id) && OneLine(secret)
    ensures Readable(OauthLines(app, id, secret))
  {
    OauthLinesRead(app, id, secret);
  }

  /** Every line the OAuth steps append for plain names and one-line values reads back as some key and value. */
  lemma {:induction false} AllOauthLinesReadable(apps: seq<string>, ids: seq<Extraction>, secrets: seq<Extraction>, n: nat)
    requires |ids| == |apps| && |secrets| == |apps| && n <= |apps|
    requires forall i :: 0 <= i < |apps| ==> IsPlainName(apps[i]) && OneLine(ids[i]) && OneLine(secrets[i])
    ensures forall i :: 0 <= i < |AllOauthLines(apps, ids, secrets, n)| ==> ReadLine(AllOauthLines(apps, ids, secrets, n)[i]).Some?
  {
    if n > 0 {
      AllOauthLinesReadable(apps, ids, secrets, n - 1);
      OauthLinesReadable(apps[n - 1], ids[n - 1], secrets[n - 1]);
      ReadableAppend(AllOauthLines(apps, ids, secrets, n - 1), OauthLines(apps[n - 1], ids[n - 1], secrets[n - 1]));
    }
  }

  /** Whatever the sign-on service prints, the scraped ids and secrets fit on one line. */
  lemma ScrapedOneLine(outputs: seq<string>)
    ensures forall i :: 0 <= i < |outputs| ==> OneLine(OauthIds(outputs)[i]) && OneLine(OauthSecrets(outputs)[i])
  {
    forall i | 0 <= i < |outputs| ensures OneLine(OauthIds(outputs)[i]) && OneLine(OauthSecrets(outputs)[i]) {
      OauthIdSpec(outputs[i]);
      OauthSecretSpec(outputs[i]);
    }
  }

  /** The bearer-token steps append an even number of lines, at most two per client. */
  lemma {:induction false} AllBearerLinesCount(clients: seq<string>, tokens: seq<Extraction>, n: nat)
    requires |tokens| == |clients| && n <= |clients|
    ensures |AllBearerLines(clients, tokens, n)| % 2 == 0
    ensures |AllBearerLines(clients, tokens, n)| <= 2 * n
  {
    if n > 0 {
      AllBearerLinesCount(clients, tokens, n - 1);
    }
  }

  /** One more application extends what the loop has appended by exactly that application's lines. */
  lemma AllOauthLinesNext(before: seq<string>, apps: seq<string>, ids: seq<Extraction>, secrets: seq<Extraction>, i: nat)
    requires |ids| == |apps| && |secrets| == |apps| && i < |apps|
    ensures before + AllOauthLines(apps, ids, secrets, i + 1)
            == (before + AllOauthLines(apps, ids, secrets, i)) + OauthLines(apps[i], ids[i], secrets[i])
  {
  }

  /** One more client extends what the loop has appended by exactly that client's lines. */
  lemma AllBearerLinesNext(before: seq<string>, clients: seq<string>, tokens: seq<Extraction>, i: nat)
    requires |tokens| == |clients| && i < |clients|
    ensures before + AllBearerLines(clients, tokens, i + 1)
            == (before + AllBearerLines(clients, tokens, i)) + BearerLines(clients[i], tokens[i])
  {
  }

  /** The applications the script registers with the sign-on service, in order. */
  const Applications: seq<string> := ["panopticon", "publisher", "asset-manager", "contentapi"]
  /** The applications that get bearer tokens for the asset manager, in order. */
  const ApiClients: seq<string> := ["publisher", "contentapi"]

  // ---------------------------------------------------------------------------
  // The file

  /** `../oauthcreds`, as the sequence of lines written to it. */
  class CredentialsFile {
    var lines: seq<string>

    /** The file as it stands before the run; a previous run's lines stay. */
    constructor (existing: seq<string>)
      ensures lines == existing
    {
      lines := existing;
    }

    /**
     * Writes the OAuth lines for `app` given what the scrapers returned. A
     * failed id scrape raises before anything is written; a failed secret
     * scrape raises after the id line has been written.
     */
    method AppendOauthLines(app: string, id: Extraction, secret: Extraction)
      modifies this
      ensures lines == old(lines) + OauthLines(app, id, secret)
    {
      if id.NoMatch? {
        return;
      }
      lines := lines + [CredentialLine(KeyPrefix(app) + OauthIdKey, id.value)];
      if secret.NoMatch? {
        return;
      }
      lines := lines + [CredentialLine(KeyPrefix(app) + OauthSecretKey, secret.value)];
    }

    /** One iteration of the loop over `apps`: scrape the task's output and write the OAuth lines for `app`. */
    method AppendOauthCredentials(app: string, output: string)
      modifies this
      ensures lines == old(lines) + OauthLines(app, OauthId(output), OauthSecret(output))
    {
      AppendOauthLines(app, OauthId(output), OauthSecret(output));
    }

    /** Writes the two bearer-token lines for `app` given what the scraper returned. */
    method AppendBearerLines(app: string, token: Extraction)
      modifies this
      ensures lines == old(lines) + BearerLines(app, token)
    {
      if token.NoMatch? {
        return;
      }
      lines := lines + [CredentialLine(KeyPrefix(app) + AssetManagerTokenKey, token.value)];
      lines := lines + [CredentialLine(KeyPrefix(app) + ApiClientTokenKey, token.value)];
    }

    /** One iteration of the loop over `api_clients`: scrape the task's output and write the two bearer-token lines. */
    method AppendBearerTokens(app: string, output: string)
      modifies this
      ensures lines == old(lines) + BearerLines(app, BearerToken(output))
    {
      AppendBearerLines(app, BearerToken(output));
    }

    /** The frontend step: scrape the task's output and write the one line with the token for the content API. */
    method AppendFrontendToken(output: string)
      modifies this
      ensures lines == old(lines) + FrontendLines(BearerToken(output))
    {
      var token := BearerToken(output);
      if token.NoMatch? {
        return;
      }
      lines := lines + [CredentialLine(FrontendTokenKey, token.value)];
    }

    /** `apps.each_pair`: the OAuth lines for each application in turn, given its task's scrape results. */
    method CreateApplications(apps: seq<string>, ids: seq<Extraction>, secrets: seq<Extraction>)
      requires |ids| == |apps| && |secrets| == |apps|
      modifies this
      ensures lines == old(lines) + AllOauthLines(apps, ids, secrets, |apps|)
    {
      var i := 0;
      while i < |apps|
        invariant 0 <= i <= |apps|
        invariant lines == old(lines) + AllOauthLines(apps, ids, secrets, i)
      {
        AppendOauthLines(apps[i], ids[i], secrets[i]);
        AllOauthLinesNext(old(lines), apps, ids, secrets, i);
        i := i + 1;
      }
    }

    /** `api_clients.each`: the bearer-token lines for each client in turn, given its task's scrape result. */
    method CreateApiClients(clients: seq<string>, tokens: seq<Extraction>)
      requires |tokens| == |clients|
      modifies this
      ensures lines == old(lines) + AllBearerLines(clients, tokens, |clients|)
    {
      var i := 0;
      while i < |clients|
        invariant 0 <= i <= |clients|
        invariant lines == old(lines) + AllBearerLines(clients, tokens, i)
      {
        AppendBearerLines(clients[i], tokens[i]);
        AllBearerLinesNext(old(lines), clients, tokens, i);
        i := i + 1;
      }
    }

    /**
     * The credential part of the run: the OAuth step for each of the fixed
     * applications, the bearer-token step for each of the fixed clients, then
     * the frontend step, each on the output its task printed.
     */
    method ProvisionCredentials(appOutputs: seq<string>, clientOutputs: seq<string>, frontendOutput: string)
      requires |appOutputs| == |Applications| && |clientOutputs| == |ApiClients|
      modifies this
      ensures lines == old(lines) + AllOauthLines(Applications, OauthIds(appOutputs), OauthSecrets(appOutputs), |Applications|)
                                  + AllBearerLines(ApiClients, BearerTokens(clientOutputs), |ApiClients|)
                                  + FrontendLines(BearerToken(frontendOutput))
    {
      CreateApplications(Applications, OauthIds(appOutputs), OauthSecrets(appOutputs));
      CreateApiClients(ApiClients, BearerTokens(clientOutputs));
      AppendFrontendToken(frontendOutput);
    }
  }
}
