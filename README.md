# quirkafleeg setup: a verified model of the provisioning script's core

`setup.rb` builds a local gov.uk-style development setup for the ODI's
quirkafleeg stack. Nearly all of it shells out to `git`, `bundle`, `foreman`,
`rake` and nginx. This project models the text and bookkeeping logic inside it
and proves what that logic promises:

- **Colouring** (`Colour.dfy`): `colour`, `red` and `green` wrap text in an ANSI
  select-rendition sequence and a reset. `Uncolour` reads such a string back,
  and the colouring functions are proved to round-trip through it.
- **Scrapers** (`Scrape.dfy`): `oauth_id`, `oauth_secret` and `bearer_token`
  pull one value out of a task's captured output with a Ruby regular
  expression. Each regex becomes an explicit leftmost search:
  - the unescaped `.` in `config.oauth_…` matches any character but a newline;
  - the lazy `(.*?)'` stops at the first quote and fails at a start whose line
    ends first;
  - `([0-9a-z]*)` takes the longest run and may be empty.

  Ruby's `nil[1]` failure is the `NoMatch` result. Each scraper is proved
  against a declarative description of the leftmost match: when it fails,
  where the match starts and what it captures.
- **Credentials** (`Credentials.dfy`): the key prefix `app.upcase.gsub('-','_')`,
  the `KEY=value\n` line format, and the append-only file
  `../oauthcreds`. The file is a class holding the sequence of lines written to
  it. Its methods are the per-application OAuth step, the per-client
  bearer-token step, the frontend step and the loops over the fixed
  application and client lists. Each method is proved against a function
  giving the lines it appends. That includes the partial write: a failed
  secret scrape leaves the id line in place.
- **Provisioning loop** (`Provision.dfy`): the pass over the ordered project
  registry. It decides between clone and pull, exports process scripts only
  off the developer laptop when a Procfile exists, and hands out ports from a
  counter that starts at 3000 and grows by 1000 after each project.

setup.rb never reads `../oauthcreds` back. `ReadLine` is the model's own inverse of the line format, used to state that every line written splits back into the key and value it was written from.

`Strings.dfy` holds the shared `Option` type and small string helpers.

## Model

| member | source | states |
|---|---|---|
| Colour.Colour | setup.rb:27-32 | the result is the select sequence `ESC [ code m`, then exactly the text, then the reset `ESC [ 0 m` |
| Colour.Uncolour | setup.rb:27-32 | any string it accepts is exactly the colouring of the text it returns with the code it returns, and that code has no `m` |
| Colour.UncolourColour | setup.rb:27-32 | colouring any text with a code free of `m` reads back as exactly that code and text |
| Colour.Red | setup.rb:34-36 | `red` colours the text with code `31`: the result reads back as code "31" and the original text |
| Colour.Green | setup.rb:38-40 | `green` colours the text with code `32`: the result reads back as code "32" and the original text |
| Scrape.CloseQuote | setup.rb:153 | a position it returns lies at or after the start and holds a quote |
| Scrape.CloseQuoteSpec | setup.rb:153 | the lazy `(.*?)'` closes exactly when a quote comes before any newline; it closes at the first such quote |
| Scrape.CloseQuoteCapture | setup.rb:153 | the text from the group's start to where it closes is its lazy capture and holds no newline |
| Scrape.ScrapeQuoted | setup.rb:152-158 | a found value fits after the literal part inside the output, with room for the closing quote; `ScrapeQuotedSpec` and `ScrapeQuotedExact` give its full meaning, group 1 of the leftmost match or `NoMatch` |
| Scrape.SearchQuoted | setup.rb:153 | a hit it returns has its prefix inside the text and its closing quote after the prefix |
| Scrape.QuotedMatchAtSpec | setup.rb:153 | a start position matches exactly when the literal part matches there and the lazy group closes after it |
| Scrape.SearchQuotedSpec | setup.rb:152-158 | the search fails exactly when no position from the start on begins a complete match; a hit is the leftmost such position, and its closing quote is the first one after the prefix |
| Scrape.ScrapeQuotedSpec | setup.rb:152-158 | `NoMatch` exactly when no position begins a match; a found value has no quote or newline and is the lazy capture after the leftmost match |
| Scrape.ScrapeQuotedExact | setup.rb:152-158 | a leftmost match with a given lazy capture determines the scraped value |
| Scrape.LazyCaptureUnique | setup.rb:153 | a lazy capture at a given position is unique |
| Scrape.LeftmostQuotedUnique | setup.rb:153 | the leftmost match position is unique |
| Scrape.OauthId | setup.rb:152-154 | `oauth_id`: a found id fits after `config?oauth_id     = '` inside the output; `OauthIdSpec` proves it is the lazy capture at the leftmost match and fails exactly when there is none |
| Scrape.OauthSecret | setup.rb:156-158 | `oauth_secret`: a found secret fits after `config?oauth_secret = '` inside the output; `OauthSecretSpec` proves the same contract as for the id |
| Scrape.OauthIdSpec | setup.rb:152-154 | `oauth_id` fails exactly when no `config?oauth_id     = '…'` match exists; otherwise it returns the quote- and newline-free text after the leftmost match, up to the first quote |
| Scrape.OauthSecretSpec | setup.rb:156-158 | the same contract for `config?oauth_secret = '` |
| Scrape.OauthIdExample | setup.rb:152-154 | for the two-line sample output the id is `X1` |
| Scrape.NoSecretOnIdLine | setup.rb:156-158 | the secret pattern's literal part starts nowhere on the sample's id line |
| Scrape.OauthSecretExample | setup.rb:156-158 | for the same output the secret is `Y2`, taken from the second line |
| Scrape.TokenRun | setup.rb:161 | the run of `[0-9a-z]` measured from a position stays inside the text |
| Scrape.TokenRunSpec | setup.rb:161 | `[0-9a-z]*` is greedy: every character of the run is a token character and the one after it is not |
| Scrape.GreedyCaptureIsRun | setup.rb:161 | any greedy capture at a position is exactly the run `TokenRun` measures there, so it is unique |
| Scrape.SearchPrefix | setup.rb:161 | an occurrence it returns lies at or after the start and inside the text |
| Scrape.SearchPrefixSpec | setup.rb:161 | the search fails exactly when the literal occurs nowhere from the start on; otherwise it returns the leftmost occurrence |
| Scrape.BearerToken | setup.rb:160-162 | `bearer_token`: a found token fits after `Access token: ` inside the output; `BearerTokenSpec` and `BearerTokenExact` prove it is the greedy `[0-9a-z]*` capture after the leftmost label and fails exactly when the label is absent |
| Scrape.BearerTokenSpec | setup.rb:160-162 | `bearer_token` fails exactly when `Access token: ` is absent; otherwise it returns only `[0-9a-z]` characters, the greedy capture right after the leftmost label |
| Scrape.BearerTokenExact | setup.rb:160-162 | a leftmost label with a given greedy capture determines the token |
| Scrape.BearerTokenExample | setup.rb:160-162 | `Access token: ab12` followed by a newline gives `ab12` |
| Scrape.EmptyBearerTokenExample | setup.rb:160-162 | `Access token: AB` gives the empty token: the label matches and `[0-9a-z]*` takes nothing |
| Credentials.UpcaseChar | setup.rb:190 | a lower-case ASCII letter becomes its capital; every other character is unchanged |
| Credentials.Upcase | setup.rb:190-191 | `upcase`: same length; each lower-case ASCII letter becomes its capital (code point minus 32), so none is left; every other character is unchanged |
| Credentials.ReplaceHyphens | setup.rb:190-191 | `gsub('-','_')`: same length; each `-` becomes `_`, so none is left; every other character is unchanged |
| Credentials.KeyPrefix | setup.rb:190-191 | the key prefix has the name's length, no `-` and no lower-case ASCII letter |
| Credentials.KeyPrefixChars | setup.rb:190-191 | for every name, position by position, the key prefix is the name with each `-` turned into `_`, each lower-case ASCII letter into its capital and every other character kept |
| Credentials.KeyPrefixIdempotent | setup.rb:190-191 | deriving the key prefix twice gives the same result as deriving it once |
| Credentials.KeyPrefixKeeps | setup.rb:190-191 | characters other than letters, `-` and `_` occur in the prefix exactly when they occur in the name |
| Credentials.AssetManagerKey | setup.rb:177-191 | `asset-manager` maps to `ASSET_MANAGER` |
| Credentials.PublisherKey | setup.rb:190-191 | `publisher` maps to `PUBLISHER` |
| Credentials.CredentialLine | setup.rb:190-191 | the text `f <<` writes is two characters longer than the key and value together; `CredentialLineShape` places them and `ReadCredentialLine` proves it splits back into that key and value |
| Credentials.CredentialLineShape | setup.rb:190-191 | every line starts with its key, has `=` right after it, and ends with the value and a newline |
| Credentials.ReadLine | setup.rb:190-191 | a line it splits is exactly `key=value\n` for the key and value it returns; the key has no `=` or newline and the value has no newline |
| Credentials.ReadCredentialLine | setup.rb:190-191 | a line written for a key without `=` or newline and a value without newline reads back as that key and value |
| Credentials.PlainKey | setup.rb:190-191 | a name without `=` or newline, with a fixed suffix, gives a key without `=` or newline |
| Credentials.FrontendKeyPlain | setup.rb:234 | the frontend key has no `=` and no newline |
| Credentials.OauthIds | setup.rb:180-188 | one id scrape per application output |
| Credentials.OauthSecrets | setup.rb:180-188 | one secret scrape per application output |
| Credentials.BearerTokens | setup.rb:205-213 | one token scrape per client output |
| Credentials.OauthLines | setup.rb:189-192 | what the OAuth block leaves in the file: nothing exactly when the id scrape failed, the id line alone exactly when only the secret scrape failed, two lines exactly when both succeeded; `OauthLinesRead` gives the lines' keys and values |
| Credentials.BearerLines | setup.rb:214-217 | what the bearer block leaves: nothing exactly when the scrape failed, otherwise two lines; `BearerLinesRead` gives their keys, order and token |
| Credentials.FrontendLines | setup.rb:233-235 | what the frontend block leaves: nothing exactly when the scrape failed, otherwise one line; `FrontendLinesRead` gives its key and token |
| Credentials.OauthLinesRead | setup.rb:187-195 | for a plain name: no lines when the id scrape failed, one when only the secret failed, two otherwise; the id line reads back as the id key and value, the secret line as the secret key and value |
| Credentials.OauthLinesOutcomes | setup.rb:187-195 | on a task's output the OAuth step appends nothing exactly when there is no id match; only the id line exactly when the id matches and the secret does not; at most two lines; each reads back as its key and scraped value |
| Credentials.BearerLinesRead | setup.rb:212-220 | for a plain name: no lines exactly when the scrape failed, otherwise two lines, asset-manager key first, both reading back as the token |
| Credentials.BearerTokenOneLine | setup.rb:160-162 | a scraped token never holds a newline |
| Credentials.BearerLinesOutcomes | setup.rb:212-220 | on a task's output the bearer step appends nothing exactly when `Access token: ` is absent; otherwise two lines with the same token, the asset-manager key first and the API-client key second |
| Credentials.FrontendLinesRead | setup.rb:228-238 | no line exactly when the scrape failed; otherwise one line that reads back as the frontend key and the token |
| Credentials.FrontendLinesOutcomes | setup.rb:228-238 | on a task's output the frontend step appends nothing exactly when `Access token: ` is absent; otherwise the single line `QUIRKAFLEEG_FRONTEND_CONTENTAPI_BEARER_TOKEN=<token>` |
| Credentials.PublisherLines | setup.rb:190-191 | the two `publisher` lines for id `X1` and secret `Y2` are `PUBLISHER_OAUTH_ID=X1` and `PUBLISHER_OAUTH_SECRET=Y2` |
| Credentials.PublisherExample | setup.rb:187-192 | for the sample output, `publisher` gets exactly `PUBLISHER_OAUTH_ID=X1` then `PUBLISHER_OAUTH_SECRET=Y2` |
| Credentials.ScrapedOneLine | setup.rb:152-158 | whatever a task prints, every scraped id and secret fits on one line |
| Credentials.AllOauthLines | setup.rb:180-197 | the lines of the first `n` iterations of the application loop, in order; `AllOauthLinesBound` and `AllOauthLinesReadable` bound and read them, and `CreateApplications` is proved equal to them |
| Credentials.AllBearerLines | setup.rb:205-222 | the lines of the first `n` iterations of the client loop, in order; `AllBearerLinesCount` counts them, and `CreateApiClients` is proved equal to them |
| Credentials.AllOauthLinesNext | setup.rb:180-197 | one more iteration of the application loop extends whatever the file held by exactly that application's lines |
| Credentials.AllOauthLinesBound | setup.rb:180-197 | the application loop appends at most two lines per application |
| Credentials.OauthLinesReadable | setup.rb:189-192 | every line one OAuth step writes for a plain name and one-line values splits back into a key and a value |
| Credentials.AllOauthLinesReadable | setup.rb:180-197 | every line the application loop appends for plain names and one-line values reads back as a key and value |
| Credentials.AllBearerLinesNext | setup.rb:205-222 | one more iteration of the client loop extends whatever the file held by exactly that client's lines |
| Credentials.AllBearerLinesCount | setup.rb:205-222 | the client loop appends an even number of lines, at most two per client |
| Credentials.CredentialsFile.constructor | setup.rb:189 | the file starts from its existing lines; a previous run's lines stay |
| Credentials.CredentialsFile.AppendOauthLines | setup.rb:189-192 | the new lines are the old lines followed by the OAuth step's lines for the scrape results: none, the id line alone, or both |
| Credentials.CredentialsFile.AppendOauthCredentials | setup.rb:187-195 | one iteration on a task's output: the old lines followed by the OAuth lines of its scraped id and secret |
| Credentials.CredentialsFile.AppendBearerLines | setup.rb:214-217 | the new lines are the old lines followed by the bearer step's two lines, or nothing when the scrape failed |
| Credentials.CredentialsFile.AppendBearerTokens | setup.rb:212-220 | one iteration on a task's output: the old lines followed by the bearer lines of its scraped token |
| Credentials.CredentialsFile.AppendFrontendToken | setup.rb:228-238 | the new lines are the old lines followed by the frontend step's line, if any |
| Credentials.CredentialsFile.CreateApplications | setup.rb:174-197 | after the loop the file is the old lines followed by every application's OAuth lines, in order |
| Credentials.CredentialsFile.CreateApiClients | setup.rb:201-222 | after the loop the file is the old lines followed by every client's bearer lines, in order |
| Credentials.CredentialsFile.ProvisionCredentials | setup.rb:174-238 | the fixed applications' lines from their scraped outputs, then the fixed clients', then the frontend step's, each only appending to what was there |
| Provision.CloneUrl | setup.rb:97 | the clone URL is exactly `https://github.com/theodi/`, then the upstream name, then `.git`: that prefix, that suffix, and nothing else between them |
| Provision.PortOf | setup.rb:88-144 | the port at position `i` is 3000 plus 1000 for each earlier project: at least 3000, and (port − 3000) / 1000 is exactly `i` |
| Provision.PlannedStep | setup.rb:89-142 | the specification of one iteration: its directory is the project's, its vhost port is the position's port, an export uses that same port, and a clone uses the project's URL |
| Provision.UsedBeforeStep | setup.rb:88-145 | a directory was used before position `i + 1` exactly when it was used before `i` or is the directory at `i` |
| Provision.ProvisionProjects | setup.rb:88-145 | one step per project, in registry order. Project `i` gets port 3000 + 1000·i for its virtual host. It pulls exactly when its directory existed or an earlier project used it, and otherwise clones from `https://github.com/theodi/<name>.git`. It exports scripts, with the same port, exactly when not on the laptop and the Procfile is there |
| Provision.PortsIncreasing | setup.rb:88-144 | ports grow strictly along the registry, by 1000 per position, so no two projects share one |
| Provision.RegistryPorts | setup.rb:16-25 | the registry has eight entries, and their ports are exactly 3000, 4000, …, 10000 |

## Left out

- Running external commands (`git clone`, `git pull`, `bundle`, `foreman export`, `rake`, `sudo`, the service restarts) is not modelled. A task's captured output is a string parameter, and the provisioning loop returns the decisions and values it would hand to the commands.
- `Dotenv.load` and the `ENV` lookups are not modelled; the domain only reaches command arguments and the vhost template.
- Rendering `templates/vhost.erb` through Erubis, writing `<name>/vhost`, and the `rm`/`ln` symlink commands are not modelled. The template is a foreign library's input.
- `osx?` is a boolean parameter; `RUBY_PLATFORM` is not modelled. On the laptop `make_vhost` ignores the port, yet the model still records the port handed to it.
- Provision.ProvisionProjects: a clone is assumed to create its directory, so a later entry with the same directory pulls; a failed clone is not modelled. Whether a Procfile exists after fetching is a parameter.
- Console output (`puts` of coloured messages) is not modelled; the colouring functions are.
- The sample-user seeding, the search index setup, the panopticon database seed and the restart loop after the credentials are not modelled. They only run shell commands.
- The first `applications:create name=frontends` run's output is discarded in the source; only the second task's output reaches the frontend step.
- The application descriptions and the command lines built for the tasks are not modelled.
- Credentials.UpcaseChar: only ASCII letters are upper-cased. Ruby's `upcase` applies full Unicode case mapping, but every name the script passes is ASCII.
- The bare `rescue` catches `StandardError`; signals and `exit` still propagate. Only a failed scrape is modelled; I/O errors opening or writing the file are not.
- Character encodings are not modelled: a task's output is a sequence of characters. On output that is not valid UTF-8, Ruby's `String#match` raises `ArgumentError` and the `rescue` turns that into the no-lines outcome even when an id line is present; a Dafny `string` cannot hold such output.
- Credentials.CredentialsFile: the file is the list of lines written to it, not bytes on disk. File creation by `File.open` in append mode and buffering are not modelled.
- Credentials.CredentialsFile.AppendBearerTokens: the source scrapes the token twice, once per line. The scrape is deterministic, so the model scrapes it once.
- Credentials.CredentialsFile.CreateApplications, Credentials.CredentialsFile.CreateApiClients: the loops receive each task's scrape results rather than its raw output. Scraping is pure, so scraping every output before the loop writes the same lines as scraping inside it; `AppendOauthCredentials` and `AppendBearerTokens` model one iteration with the scrape inside.
