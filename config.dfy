/** The read-only configuration views: per-subreddit include/exclude rules
    and per-level alert destinations. Both are set once when built and only
    read afterwards. */
module Config {
  import opened Wrappers
  import Text
  import Dict
  import opened Yaml
  import Lib

  const IncludeKey := "include"
  const ExcludeKey := "exclude"

  /** `SubredditConfig`: the rule of each subreddit, under its lower-cased name. */
  datatype SubredditConfig = SubredditConfig(rules: Dict.Dict<Node>)

  /** `SubredditConfig(subreddit_config)`: the names are lower-cased once, at
      construction; two names that differ only in case keep the later rule. */
  function NewSubredditConfig(raw: Dict.Dict<Node>): (c: SubredditConfig)
    ensures Dict.Unique(c.rules) && Dict.AllLower(Dict.Keys(c.rules))
  {
    Dict.LowerKeysLower(raw);
    SubredditConfig(Dict.LowerKeys(raw))
  }

  /** `subreddits`: the configured names. */
  function Subreddits(c: SubredditConfig): seq<string> {
    Dict.Keys(c.rules)
  }

  /** `self._subreddit_config[subreddit.lower()].get(key, [])`: a name that was
      not configured raises `KeyError`, a rule that is not a mapping has no
      `.get`, and a rule without the key gives the empty list. */
  function Terms(c: SubredditConfig, subreddit: string, key: string): (r: Result<Node, PyError>)
    ensures Text.Lower(subreddit) !in Subreddits(c) <==> r == Err(KeyError(Text.Lower(subreddit)))
    ensures r.Ok? ==> exists rule :: (Text.Lower(subreddit), rule) in c.rules && rule.Map?
  {
    Dict.GetKeys(c.rules, Text.Lower(subreddit));
    match Dict.Get(c.rules, Text.Lower(subreddit))
    case None => Err(KeyError(Text.Lower(subreddit)))
    case Some(rule) =>
      if rule.Map? then Ok(Dict.Get(rule.entries, key).GetOr(List([])))
      else Err(AttributeError)
  }

  /** `include_terms(subreddit)` */
  function IncludeTerms(c: SubredditConfig, subreddit: string): Result<Node, PyError> {
    Terms(c, subreddit, IncludeKey)
  }

  /** `exclude_terms(subreddit)` */
  function ExcludeTerms(c: SubredditConfig, subreddit: string): Result<Node, PyError> {
    Terms(c, subreddit, ExcludeKey)
  }

  /** Every configured name is lower-case, and a name is configured exactly
      when some name of the raw configuration lowers to it. */
  lemma SubredditsLower(raw: Dict.Dict<Node>, name: string)
    ensures name in Subreddits(NewSubredditConfig(raw)) ==> Text.IsLower(name)
    ensures name in Subreddits(NewSubredditConfig(raw)) <==> exists i :: Dict.LowersTo(raw, i, name)
  {
    var ks := Subreddits(NewSubredditConfig(raw));
    if name in ks {
      var i :| 0 <= i < |ks| && ks[i] == name;
    }
    Dict.LowerKeysKeys(raw, name);
  }

  /** Lookups ignore the case of the name asked for: asking with any spelling
      is asking with the lower-case one. */
  lemma TermsIgnoreCase(c: SubredditConfig, subreddit: string, key: string)
    ensures Terms(c, subreddit, key) == Terms(c, Text.Lower(subreddit), key)
  {
    Text.LowerIdempotent(subreddit);
  }

  /** The terms found for a subreddit are those of the last raw entry whose
      name matches it without regard to case; a rule without the key gives `[]`. */
  lemma TermsFromRaw(raw: Dict.Dict<Node>, i: nat, subreddit: string, key: string)
    requires i < |raw| && Text.Lower(raw[i].0) == Text.Lower(subreddit)
    requires forall j :: i < j < |raw| ==> !Dict.LowersTo(raw, j, Text.Lower(subreddit))
    requires raw[i].1.Map?
    ensures Dict.Get(raw[i].1.entries, key).None? ==> Terms(NewSubredditConfig(raw), subreddit, key) == Ok(List([]))
    ensures Dict.Get(raw[i].1.entries, key).Some? ==>
      Terms(NewSubredditConfig(raw), subreddit, key) == Ok(Dict.Get(raw[i].1.entries, key).value)
  {
    Dict.LowerKeysGet(raw, i);
  }

  /** Asking for a subreddit that was not configured, in any spelling, raises
      `KeyError`. */
  lemma TermsUnconfigured(raw: Dict.Dict<Node>, subreddit: string, key: string)
    requires forall j :: 0 <= j < |raw| ==> Text.Lower(raw[j].0) != Text.Lower(subreddit)
    ensures Terms(NewSubredditConfig(raw), subreddit, key) == Err(KeyError(Text.Lower(subreddit)))
  {
    Dict.LowerKeysKeys(raw, Text.Lower(subreddit));
  }

  /** `AlertConfig`: the destination URIs of each alert level, keyed by the
      level's string value. */
  datatype AlertConfig = AlertConfig(levels: Dict.Dict<seq<string>>) {

    /** `self._alert_config.get(level, [])`: a `StrEnum` member is found under
        its string value. */
    function Lookup(level: Lib.AlertLevel): (r: seq<string>)
      ensures (level.Value(), r) in levels || (r == [] && level.Value() !in Dict.Keys(levels))
    {
      Dict.GetKeys(levels, level.Value());
      Dict.Get(levels, level.Value()).GetOr([])
    }

    /** `notify` */
    function NotifyUrls(): seq<string> {
      Lookup(Lib.Notify)
    }

    /** `filter` */
    function FilterUrls(): seq<string> {
      Lookup(Lib.Filter)
    }

    /** `error` */
    function ErrorUrls(): seq<string> {
      Lookup(Lib.Error)
    }

    /** `get(alert_level)`: exhaustive over the closed enumeration, so the
        `ValueError` fallback cannot be reached. */
    function Get(level: Lib.AlertLevel): seq<string> {
      match level
      case Notify => NotifyUrls()
      case Filter => FilterUrls()
      case Error => ErrorUrls()
    }
  }

  /** Each level gets the list configured under its own value, and `[]` when
      that value is not configured. */
  lemma AlertConfigGet(c: AlertConfig, level: Lib.AlertLevel, urls: seq<string>)
    ensures Dict.Unique(c.levels) && (level.Value(), urls) in c.levels ==> c.Get(level) == urls
    ensures level.Value() !in Dict.Keys(c.levels) ==> c.Get(level) == []
  {
    if Dict.Unique(c.levels) && (level.Value(), urls) in c.levels {
      Dict.GetUnique(c.levels, level.Value(), urls);
    }
    Dict.GetKeys(c.levels, level.Value());
  }

  /** A level's destinations do not depend on any other level's entry:
      replacing another level's list leaves them as they were. */
  lemma AlertConfigSeparate(c: AlertConfig, level: Lib.AlertLevel, other: Lib.AlertLevel, urls: seq<string>)
    requires other != level
    ensures AlertConfig(Dict.Put(c.levels, other.Value(), urls)).Get(level) == c.Get(level)
  {
    Lib.ValuesDistinct(level, other);
    Dict.PutOther(c.levels, other.Value(), urls, level.Value());
  }
}
