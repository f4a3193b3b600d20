# Reddit Post Notifier, modelled in Dafny

Reddit Post Notifier watches new posts in a set of subreddits and sends a
notification, through the Apprise notification library, for every post whose
title or selftext contains one of the subreddit's include terms and none of
its exclude terms. This project models the deterministic part of that
program:

- the matching decision of `process_submission`, the notification it sends,
  the `?click=` decoration of `ntfy` destinations, the configuration shape
  check `validate_config` and the `+`-joined subreddit query (`App`,
  app.py);
- the read-only configuration views `SubredditConfig` and `AlertConfig`
  (`Config`, config.py);
- the alert router `Client`, with its startup self-test and per-level
  dispatch (`Alert`, alert.py);
- the `AlertLevel` enumeration (`Lib`, lib.py).

Supporting modules: `Wrappers` (results and the Python exceptions raised),
`Text` (ASCII `str.lower`, the substring test `p in s`, `split`/`join` on one
character), `Dict` (a Python `dict` as its insertion-ordered entry list, with
the key-lowering comprehension `{k.lower(): v ...}`), `Yaml` (the values a
parsed YAML document holds, with Python truthiness and `x or []`) and
`Apprise` (the library client as the list of added URIs plus the log of
`notify` calls, each with the URIs it went to).

The matching decision is modelled twice: `App.IsMatch` follows the code
step by step, dynamic typing included (`.get` on a non-dict rule, iteration
of a string or a dict, a non-string term raising only when the lazy `any`
reaches it). `App.Matches` states the documented rule on string term lists.
`App.IsMatchRule` proves that the two agree for every rule whose terms are
strings.

## Model

| member | source | states |
|---|---|---|
| `Lib.LevelsEnumerate` | lib.py:3-6 | iterating `AlertLevel` visits each of its three members exactly once, in the order NOTIFY, FILTER, ERROR |
| `Lib.ValuesDistinct` | lib.py:4-6 | the values "notify", "filter", "error" are pairwise distinct, so a key names at most one level |
| `Text.Contains` | app.py:88-92 | `p in s` holds exactly when p occurs as a contiguous block of s; the empty string occurs in every string |
| `Text.LowerIdempotent` | config.py:56-59 | lowering a lowered string changes nothing |
| `Dict.LowerKeysLower` | app.py:206 | after the key-lowering comprehension every key is lower-case and occurs once |
| `Dict.LowerKeysKeys` | config.py:49 | a name is a key of the comprehension exactly when some input key lowers to it |
| `Dict.LowerKeysGet` | config.py:49 | the value under a lowered name is that of the last input entry whose key lowers to it |
| `Dict.LowerKeysIdempotent` | app.py:206 | lowering the keys of an already lowered dict gives the same dict back |
| `Config.NewSubredditConfig` | config.py:48-49 | the rules are stored under unique, lower-case names |
| `Config.SubredditsLower` | config.py:49-53 | every name returned by `subreddits` is lower-case, and a name is returned exactly when a configured name lowers to it |
| `Config.Terms` | config.py:55-59 | an unconfigured name raises `KeyError` of the lowered name; any other result comes from a configured dict rule |
| `Config.TermsIgnoreCase` | config.py:55-59 | looking up "Foo" gives the same result as looking up "foo" |
| `Config.TermsFromRaw` | config.py:49-59 | the terms found are those of the matching configured rule; a rule without the key gives `[]` |
| `Config.TermsUnconfigured` | config.py:56-59 | a subreddit that no configured name matches, ignoring case, raises `KeyError` |
| `Config.AlertConfig.Lookup` | config.py:133-143 | a level's list is the one stored under its string value, or `[]` when that value is absent |
| `Config.AlertConfigGet` | config.py:122-143 | `get(level)` returns the list configured for that very level, and `[]` when the level is absent |
| `Config.AlertConfigSeparate` | config.py:122-143 | changing another level's list does not change what `get(level)` returns |
| `App.Iterate` | app.py:88-92 | iteration fails exactly on None, booleans and integers, and yields nothing exactly for a falsy value |
| `App.AnyIn` | app.py:88-92 | `any(...)` is true only when some string term occurs, false only when every term is a string that does not occur, and raises only when a term is not a string |
| `App.AnyInFirstDecisive` | app.py:88-92 | the lazy `any` is decided by the first term that is not a string missing from the text: true when that term is a string that occurs, `AttributeError` when it is not a string, false exactly when every term is a string that does not occur |
| `App.AnyInHits` | app.py:88-92 | over string terms, the left-to-right search is true exactly when some lowered term occurs in the lowered text |
| `App.IsMatch` | app.py:77-98 | a post whose lowered subreddit name is not configured raises `KeyError`, and only such a post raises it |
| `App.IsMatchRule` | app.py:81-98 | a post notifies iff (no include terms, or some include term occurs, ignoring case, in the title or the selftext) and no exclude term occurs in either |
| `App.EmptyIncludeMatches` | app.py:88-98 | with no include terms and no exclude hit, every post notifies |
| `App.ExcludeWins` | app.py:89-98 | an exclude term found in the title or the selftext stops the notification, whatever the include terms find |
| `App.MissingTermsAreEmpty` | app.py:81-86 | a None rule, a missing include/exclude key and a None value all read as the empty term list |
| `App.EmptyTermHits` | app.py:88-92 | an empty term is found in every post |
| `App.TestScenarios` | test.py:32-44 | the title of both scenarios matches include ["3090"], and it also matches include ["5090"], because it holds "5090" as well |
| `App.RedditUrl` | app.py:109 | the notification body is "https://www.reddit.com/" followed by the post id |
| `App.DecorationsPrefix` | app.py:131-137 | the URIs added are the destinations in order, each decorated, up to the first destination that is not a string, and they stop exactly there |
| `App.DecorationsAt` | app.py:131-137 | one URI per configured destination, in configuration order: `ntfy` ones become conf + "?click=" + url, all others are kept as they are |
| `App.ConfigureAppriseNotifications` | app.py:127-141 | adds exactly those URIs and sends nothing; a destination that is not a string raises `AttributeError`, leaving the earlier URIs added |
| `App.Notify` | app.py:106-115 | one notification with the caller's title and the post link as body, to every decorated destination, and the client is cleared afterwards |
| `App.ProcessSubmission` | app.py:73-104 | a matching post sends exactly that one notification; a post that does not match sends nothing; a lookup or term error leaves the client untouched; a matching post whose destination list holds a non-string raises `AttributeError`, sends nothing, and leaves the URIs before that entry added |
| `App.ValidateConfig` | app.py:180-208 | succeeds exactly when reddit is a dict with string client, secret and agent and a dict subreddits, and apprise is a list; on success the subreddit names are lowered and the apprise list is kept; a failing dict configuration exits |
| `App.ValidateKeepsRest` | app.py:202-208 | after validation every subreddit name is lower-case, and no other entry of the configuration or of its reddit section has changed |
| `App.ValidateIdempotent` | app.py:180-208 | validating an already validated configuration returns it unchanged |
| `App.SubredditQueryNames` | app.py:52-53 | for names without '+', splitting the joined query on '+' gives back the configured names, in order, when there is at least one; an empty `subreddits` dict joins to "", which splits to [""] |
| `Alert.FirstNtfy` | alert.py:20-24 | the position where `_send_message` raises: every earlier destination is a non-`ntfy` one, and the one there names `ntfy` |
| `Alert.StartupMessages` | alert.py:13-16 | the self-test consists of three messages titled "Test", with bodies "This is a startup message at notify/filter/error level", in that order, each to its own level's list |
| `Alert.Client.Init` | alert.py:7-9 | a new client holds the given configuration and an empty Apprise client |
| `Alert.Client.New` | alert.py:7-11 | construction succeeds exactly when no level has an `ntfy` destination; the client then holds the three startup deliveries and no leftover URI |
| `Alert.Client.Startup` | alert.py:13-16 | one startup message per level, in enum order, stopping with `RuntimeError` at the first level that has an `ntfy` destination |
| `Alert.Client.SendMessage` | alert.py:18-33 | adds exactly the level's destinations in order, unmodified, then one notify with the given title and body, then clear; an `ntfy` destination raises `RuntimeError` before notify; an empty list adds nothing |
| `Alert.Client.Notify` | alert.py:35-37 | the caller's title and body go unchanged to the NOTIFY destinations only |
| `Alert.Client.AlertError` | alert.py:39-45 | title "[ERROR]" and the exception text as body go to the ERROR destinations only |
| `Alert.Client.NotifyFiltered` | alert.py:46-48 | the caller's title and body go unchanged to the FILTER destinations only |

## Behaviour worth knowing

- `process_submission` notifies directly on a match, with the post title as
  title and the post link as body (app.py:98-100).
- A post from a subreddit that is not configured raises `KeyError`
  (app.py:79): the lookup indexes the dict with the lower-cased name.
- `_send_message` raises `RuntimeError` on an `ntfy` destination
  (alert.py:23-24). The self-test at construction sends to every level
  (alert.py:13-16), so a configuration with an `ntfy` destination fails
  construction of the client. Every client that exists can therefore send to
  every level (`Alert.Client.Valid`).
- The second scenario of test.py uses include ["5090"], but its title
  contains "5090" too, so it matches like the first one (test.py:32-44).
  test.py calls a four-argument `process_submission` that app.py does not
  define, so the scenarios are stated on app.py's decision with the dict
  form of the rule.

## Left out

- Network and process I/O: the PRAW stream loop with its 30-second back-off
  (app.py:57-70), `get_reddit_client`, `validate_subreddits`,
  `RedditConfig`, `AIConfig`, ai.py, `main`, and every `print`, including
  the timestamped log line (app.py:101-102).
- Reading the configuration file: `check_config_file`, `load_config`,
  `get_config` and `_get_config`. `configure_apprise_notifications` reads the
  `apprise` list through `get_config()`; the model receives that list as a
  parameter.
- YAML values other than None, booleans, integers, strings, lists and dicts
  with string keys (floats, dates, non-string keys).
- `str.lower` beyond ASCII: other letters are left as they are.
- `App.ValidateConfig`: returns the updated configuration as a value. The
  in-place update of the caller's `reddit` dict, and its visibility through
  other references, is not modelled.
- `Alert.Client.AlertError`: takes the text of the exception. The
  `str(exception)` conversion of alert.py:43 is not modelled, since Python
  objects and their `__str__` are outside the model.
- `Alert.Client.New`: a constructor that raises leaves the caller without a
  client. The model returns the client next to the failure.
- `Config.AlertConfig.Lookup`: level lists are typed as lists of strings, as
  the constructor's annotation declares. A level written in YAML with a null
  value is not modelled.
- The Apprise library: URL validation by `add`, actual delivery, and
  `notify`'s return value. The model records each `notify` call with the
  URIs it was addressed to.
