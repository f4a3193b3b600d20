/** The notifier's per-post logic: the include/exclude decision on a post,
    the notification it sends (with `ntfy` destinations decorated with a
    click-through link), the shape check of the configuration, and the
    subreddit query the stream is opened on. */
module App {
  import opened Wrappers
  import Text
  import Dict
  import opened Yaml
  import Apprise

  const KeyApprise := "apprise"
  const KeyReddit := "reddit"
  const KeySubreddits := "subreddits"
  const KeyInclude := "include"
  const KeyExclude := "exclude"
  const KeyClient := "client"
  const KeySecret := "secret"
  const KeyAgent := "agent"

  const RedditUrlPrefix := "https://www.reddit.com/"
  const ClickParam := "?click="

  /** The fields of a streamed post that the decision and the notification read. */
  datatype Submission = Submission(id: string, title: string, selftext: string, subreddit: string)

  // ---------------------------------------------------------------------------
  // The matching decision of `process_submission`
  // ---------------------------------------------------------------------------

  /** `for term in n`: a list yields its items, a string its characters, a
      dict its keys; None, booleans and integers cannot be iterated. */
  function Iterate(n: Node): (r: Result<seq<Node>, PyError>)
    ensures r.Err? <==> n.Null? || n.Bool? || n.Int?
    ensures r.Ok? ==> (r.value == [] <==> !Truthy(n))
  {
    match n
    case List(xs) => Ok(xs)
    case Str(s) => Ok(seq(|s|, i requires 0 <= i < |s| => Str([s[i]])))
    case Map(m) => Ok(Strs(Dict.Keys(m)))
    case _ => Err(TypeError)
  }

  /** `any(term.lower() in text for term in terms)`, evaluated left to right:
      it stops at the first term found, and a term that is not a string has no
      `.lower()` and raises. */
  function AnyIn(terms: seq<Node>, text: string): (r: Result<bool, PyError>)
    ensures r == Ok(true) ==>
      exists i :: 0 <= i < |terms| && terms[i].Str? && Text.Contains(text, Text.Lower(terms[i].s))
    ensures r == Ok(false) ==>
      forall i :: 0 <= i < |terms| ==> terms[i].Str? && !Text.Contains(text, Text.Lower(terms[i].s))
    ensures r.Err? ==> r.error == AttributeError && exists i :: 0 <= i < |terms| && !terms[i].Str?
  {
    if terms == [] then Ok(false)
    else match terms[0]
      case Str(t) =>
        if Text.Contains(text, Text.Lower(t)) then Ok(true)
        else
          var r := AnyIn(terms[1..], text);
          assert forall i :: 0 <= i < |terms| - 1 ==> terms[1..][i] == terms[i + 1];
          r
      case _ => Err(AttributeError)
  }

  /** A term that is a string and does not occur in the text. */
  predicate Misses(t: Node, text: string) {
    t.Str? && !Text.Contains(text, Text.Lower(t.s))
  }

  /** Every term before position i is a miss. */
  predicate MissesBefore(terms: seq<Node>, text: string, i: int)
    requires 0 <= i <= |terms|
  {
    forall j :: 0 <= j < i ==> Misses(terms[j], text)
  }

  /** Past a missed first term, the misses of the rest are those of the list,
      shifted by one. */
  lemma MissesShift(terms: seq<Node>, text: string, i: nat)
    requires terms != [] && Misses(terms[0], text) && i < |terms|
    ensures MissesBefore(terms, text, i + 1) <==> MissesBefore(terms[1..], text, i)
  {
    if MissesBefore(terms[1..], text, i) {
      forall j | 0 < j < i + 1 ensures Misses(terms[j], text) {
        assert terms[1..][j - 1] == terms[j];
      }
    }
    if MissesBefore(terms, text, i + 1) {
      forall j | 0 <= j < i ensures Misses(terms[1..][j], text) {
        assert terms[1..][j] == terms[j + 1];
      }
    }
  }

  /** The lazy `any` is decided by the first term that is not a miss: true
      when that term is a string that occurs, `AttributeError` when it is not
      a string, false when every term misses. */
  lemma {:induction false} AnyInFirstDecisive(terms: seq<Node>, text: string)
    ensures AnyIn(terms, text) == Ok(true) <==>
      exists i :: 0 <= i < |terms| && MissesBefore(terms, text, i)
        && terms[i].Str? && Text.Contains(text, Text.Lower(terms[i].s))
    ensures AnyIn(terms, text) == Err(AttributeError) <==>
      exists i :: 0 <= i < |terms| && MissesBefore(terms, text, i) && !terms[i].Str?
    ensures AnyIn(terms, text) == Ok(false) <==> MissesBefore(terms, text, |terms|)
  {
    if terms != [] {
      var t, rest := terms[0], terms[1..];
      assert MissesBefore(terms, text, 0);
      if Misses(t, text) {
        AnyInFirstDecisive(rest, text);
        forall i | 0 <= i < |rest| ensures MissesBefore(terms, text, i + 1) <==> MissesBefore(rest, text, i) {
          MissesShift(terms, text, i);
        }
        forall i | 0 <= i < |rest| ensures terms[i + 1] == rest[i] { }
        MissesShift(terms, text, |rest|);
        if exists i :: 0 <= i < |terms| && MissesBefore(terms, text, i) && terms[i].Str? && Text.Contains(text, Text.Lower(terms[i].s)) {
          var i :| 0 <= i < |terms| && MissesBefore(terms, text, i) && terms[i].Str? && Text.Contains(text, Text.Lower(terms[i].s));
          assert i > 0;
          assert MissesBefore(rest, text, i - 1);
        }
        if exists i :: 0 <= i < |terms| && MissesBefore(terms, text, i) && !terms[i].Str? {
          var i :| 0 <= i < |terms| && MissesBefore(terms, text, i) && !terms[i].Str?;
          assert i > 0;
          assert MissesBefore(rest, text, i - 1);
        }
      } else {
        forall i | 0 < i <= |terms| ensures !MissesBefore(terms, text, i) {
          assert !Misses(terms[0], text);
        }
      }
    }
  }

  /** `not include_terms or any(...)` */
  function IncludeHit(includeTerms: Node, text: string): Result<bool, PyError> {
    if !Truthy(includeTerms) then Ok(true)
    else
      var items :- Iterate(includeTerms);
      AnyIn(items, text)
  }

  /** `exclude_terms and any(...)`, as a truth value. */
  function ExcludeHit(excludeTerms: Node, text: string): Result<bool, PyError> {
    if !Truthy(excludeTerms) then Ok(false)
    else
      var items :- Iterate(excludeTerms);
      AnyIn(items, text)
  }

  /** `search_terms.get(key) or []` when the rule is a dict, `[]` when it is
      None. */
  function RuleTerms(rule: Node, key: string): (r: Node)
    requires rule.Null? || rule.Map?
    ensures !Truthy(r) ==> r == List([])
  {
    if rule.Null? then List([])
    else OrEmpty(Dict.Get(rule.entries, key).GetOr(Null))
  }

  /** Whether `process_submission` sends a notification for the post: the
      rule is looked up under the lower-cased subreddit name, then the include
      and exclude terms are searched in the lower-cased title and selftext. */
  function IsMatch(s: Submission, subreddits: Dict.Dict<Node>): (r: Result<bool, PyError>)
    ensures Text.Lower(s.subreddit) !in Dict.Keys(subreddits) <==> r == Err(KeyError(Text.Lower(s.subreddit)))
  {
    var key := Text.Lower(s.subreddit);
    Dict.GetKeys(subreddits, key);
    match Dict.Get(subreddits, key)
    case None => Err(KeyError(key))
    case Some(rule) =>
      if !rule.Null? && !rule.Map? then Err(AttributeError)  // no `.get` on the rule
      else
      var includeTerms := RuleTerms(rule, KeyInclude);
      var excludeTerms := RuleTerms(rule, KeyExclude);
      var title, text := Text.Lower(s.title), Text.Lower(s.selftext);
      var includeTitle :- IncludeHit(includeTerms, title);
      var excludeTitle :- ExcludeHit(excludeTerms, title);
      var includeText :- IncludeHit(includeTerms, text);
      var excludeText :- ExcludeHit(excludeTerms, text);
      Ok((includeTitle || includeText) && !(excludeTitle || excludeText))
  }

  // ---------------------------------------------------------------------------
  // The matching rule, stated on term lists
  // ---------------------------------------------------------------------------

  /** A rule whose include and exclude terms are all strings. */
  datatype Rule = Rule(includeTerms: seq<string>, excludeTerms: seq<string>)

  /** The strings among the items, when every item is one. */
  function AsStrings(items: seq<Node>): (r: Option<seq<string>>)
    ensures r.Some? <==> forall i :: 0 <= i < |items| ==> items[i].Str?
    ensures r.Some? ==> Strs(r.value) == items
  {
    if forall i :: 0 <= i < |items| ==> items[i].Str? then
      Some(seq(|items|, i requires 0 <= i < |items| => items[i].s))
    else None
  }

  /** The terms the decision iterates for `key`, when they are all strings. */
  function TermList(rule: Node, key: string): Option<seq<string>> {
    if !rule.Null? && !rule.Map? then None
    else
      match Iterate(RuleTerms(rule, key))
      case Err(_) => None
      case Ok(items) => AsStrings(items)
  }

  /** String nodes read back as the strings they hold. */
  lemma AsStringsStrs(ts: seq<string>)
    ensures AsStrings(Strs(ts)) == Some(ts)
  {
    var r := AsStrings(Strs(ts));
    assert r.Some?;
    assert |r.value| == |ts|;
    forall i | 0 <= i < |ts| ensures r.value[i] == ts[i] {
      assert Strs(r.value)[i] == Strs(ts)[i];
    }
    assert r.value == ts;
  }

  /** The rule a YAML value reads as, when its terms are all strings. */
  function RuleOf(rule: Node): Option<Rule> {
    match (TermList(rule, KeyInclude), TermList(rule, KeyExclude))
    case (Some(includeTerms), Some(excludeTerms)) => Some(Rule(includeTerms, excludeTerms))
    case _ => None
  }

  /** Some term occurs in the text, ignoring case. */
  predicate Hits(terms: seq<string>, text: string) {
    exists i :: 0 <= i < |terms| && Text.Contains(Text.Lower(text), Text.Lower(terms[i]))
  }

  /** The matching rule: an include term occurs in the title or the selftext
      (or there are no include terms), and no exclude term occurs in either. */
  predicate Matches(s: Submission, r: Rule) {
    (r.includeTerms == [] || Hits(r.includeTerms, s.title) || Hits(r.includeTerms, s.selftext))
    && !Hits(r.excludeTerms, s.title) && !Hits(r.excludeTerms, s.selftext)
  }

  /** The left-to-right search over string terms finds a term exactly when one
      occurs. */
  lemma {:induction false} AnyInHits(terms: seq<string>, text: string)
    ensures AnyIn(Strs(terms), Text.Lower(text)) == Ok(Hits(terms, text))
  {
    if terms != [] {
      assert Strs(terms)[1..] == Strs(terms[1..]);
      AnyInHits(terms[1..], text);
      if Hits(terms[1..], text) {
        var i :| 0 <= i < |terms| - 1 && Text.Contains(Text.Lower(text), Text.Lower(terms[1..][i]));
        assert Text.Contains(Text.Lower(text), Text.Lower(terms[i + 1]));
      }
      if Hits(terms, text) && !Text.Contains(Text.Lower(text), Text.Lower(terms[0])) {
        var i :| 0 <= i < |terms| && Text.Contains(Text.Lower(text), Text.Lower(terms[i]));
        assert i > 0 && terms[1..][i - 1] == terms[i];
      }
    }
  }

  lemma TermSide(rule: Node, key: string, terms: seq<string>, text: string)
    requires TermList(rule, key) == Some(terms)
    ensures rule.Null? || rule.Map?
    ensures IncludeHit(RuleTerms(rule, key), Text.Lower(text)) == Ok(terms == [] || Hits(terms, text))
    ensures ExcludeHit(RuleTerms(rule, key), Text.Lower(text)) == Ok(Hits(terms, text))
  {
    AnyInHits(terms, text);
  }

  /** The decision follows the matching rule for every post whose subreddit
      is configured with string terms. */
  lemma IsMatchRule(s: Submission, subreddits: Dict.Dict<Node>, rule: Node, r: Rule)
    requires Dict.Get(subreddits, Text.Lower(s.subreddit)) == Some(rule)
    requires RuleOf(rule) == Some(r)
    ensures IsMatch(s, subreddits) == Ok(Matches(s, r))
  {
    TermSide(rule, KeyInclude, r.includeTerms, s.title);
    TermSide(rule, KeyInclude, r.includeTerms, s.selftext);
    TermSide(rule, KeyExclude, r.excludeTerms, s.title);
    TermSide(rule, KeyExclude, r.excludeTerms, s.selftext);
  }

  /** With no include terms and no exclude term found, every post matches. */
  lemma EmptyIncludeMatches(s: Submission, subreddits: Dict.Dict<Node>, rule: Node, r: Rule)
    requires Dict.Get(subreddits, Text.Lower(s.subreddit)) == Some(rule)
    requires RuleOf(rule) == Some(r) && r.includeTerms == []
    requires !Hits(r.excludeTerms, s.title) && !Hits(r.excludeTerms, s.selftext)
    ensures IsMatch(s, subreddits) == Ok(true)
  {
    IsMatchRule(s, subreddits, rule, r);
  }

  /** An exclude term found in the title or the selftext suppresses the
      notification, whatever the include terms find. */
  lemma ExcludeWins(s: Submission, subreddits: Dict.Dict<Node>, rule: Node, r: Rule, i: nat)
    requires Dict.Get(subreddits, Text.Lower(s.subreddit)) == Some(rule)
    requires RuleOf(rule) == Some(r) && i < |r.excludeTerms|
    requires Text.Contains(Text.Lower(s.title), Text.Lower(r.excludeTerms[i]))
          || Text.Contains(Text.Lower(s.selftext), Text.Lower(r.excludeTerms[i]))
    ensures IsMatch(s, subreddits) == Ok(false)
  {
    IsMatchRule(s, subreddits, rule, r);
  }

  /** A None rule, a rule without the key, and a rule whose value is None
      all read as an empty term list. */
  lemma MissingTermsAreEmpty(rule: Node, key: string)
    requires rule.Null? || (rule.Map? && Dict.Get(rule.entries, key) in {None, Some(Null)})
    ensures TermList(rule, key) == Some([])
  {
  }

  /** An empty term, being part of every string, is found in every post: as
      an include term it matches everything, as an exclude term it excludes
      everything. */
  lemma EmptyTermHits(terms: seq<string>, i: nat, text: string)
    requires i < |terms| && terms[i] == []
    ensures Hits(terms, text)
  {
    assert Text.OccursAt(Text.Lower(text), Text.Lower(terms[i]), 0);
  }

  /** The rule {include: ["3090"], exclude: []} as configuration. */
  function TestRule(term: string): Node {
    Map([(KeyInclude, List([Str(term)])), (KeyExclude, List([]))])
  }

  /** The title of the scenarios, cut around its two model numbers. */
  const TitleHead := "[USA-DC] [H] NVIDIA RTX "
  const TitleMiddle := " Ti Founders Edition (FE) [W] Local Cash or "
  const TestTitle := TitleHead + "3090" + TitleMiddle + "5090"

  /** The post of the scenarios; its selftext does not change the outcome,
      so it is a parameter. */
  function TestSubmission(body: string): Submission {
    Submission("", TestTitle, body, "testsub")
  }

  /** A lower-case term placed anywhere in a text is found there. */
  lemma HitsInside(a: string, term: string, b: string)
    requires Text.IsLower(term)
    ensures Hits([term], a + term + b)
  {
    var text := a + term + b;
    var lowered := Text.Lower(text);
    Text.LowerOfLower(term);
    assert lowered[|a|..|a| + |term|] == term by {
      forall j | 0 <= j < |term| ensures lowered[|a| + j] == term[j] {
        assert text[|a| + j] == term[j];
      }
    }
    assert Text.OccursAt(lowered, Text.Lower(term), |a|);
    assert Text.Contains(lowered, Text.Lower([term][0]));
  }

  lemma TestRuleReads(term: string)
    ensures RuleOf(TestRule(term)) == Some(Rule([term], []))
  {
    var m := TestRule(term).entries;
    assert Dict.Get(m, KeyInclude) == Some(List([Str(term)]));
    assert Dict.Get(m, KeyExclude) == Some(List([]));
    assert [Str(term)] == Strs([term]);
    AsStringsStrs([term]);
    AsStringsStrs([]);
  }

  /** The notification scenario: a title holding "3090" matches the include
      term "3090". The filter scenario, with include term "5090", matches as
      well, because the same title also holds "5090". */
  lemma TestScenarios(body: string)
    ensures IsMatch(TestSubmission(body), [("testsub", TestRule("3090"))]) == Ok(true)
    ensures IsMatch(TestSubmission(body), [("testsub", TestRule("5090"))]) == Ok(true)
  {
    var s := TestSubmission(body);
    assert Text.Lower("testsub") == "testsub";
    HitsInside(TitleHead, "3090", TitleMiddle + "5090");
    assert TitleHead + "3090" + (TitleMiddle + "5090") == TestTitle;
    TestRuleReads("3090");
    IsMatchRule(s, [("testsub", TestRule("3090"))], TestRule("3090"), Rule(["3090"], []));
    HitsInside(TitleHead + "3090" + TitleMiddle, "5090", "");
    assert TitleHead + "3090" + TitleMiddle + "5090" + "" == TestTitle;
    TestRuleReads("5090");
    IsMatchRule(s, [("testsub", TestRule("5090"))], TestRule("5090"), Rule(["5090"], []));
  }

  // ---------------------------------------------------------------------------
  // Sending the notification
  // ---------------------------------------------------------------------------

  /** The link sent as the notification body. */
  function RedditUrl(submissionId: string): (url: string)
    ensures RedditUrlPrefix <= url && |url| == |RedditUrlPrefix| + |submissionId|
    ensures url[|RedditUrlPrefix|..] == submissionId
  {
    RedditUrlPrefix + submissionId
  }

  /** The URI added for one destination: `ntfy` destinations get the post
      link as their click target, all others are added as configured. */
  function Decorate(conf: string, url: string): string {
    if Apprise.Service(conf) == "ntfy" then conf + ClickParam + url else conf
  }

  /** The URIs `configure_apprise_notifications` adds: one per destination,
      in order, up to the first destination that is not a string. */
  function Decorations(conf: seq<Node>, url: string): (r: seq<string>)
    ensures |r| <= |conf|
  {
    if conf == [] || !conf[0].Str? then []
    else [Decorate(conf[0].s, url)] + Decorations(conf[1..], url)
  }

  /** The added URIs are the decorated destinations up to the first one that
      is not a string, and stop exactly there. */
  lemma {:induction false} DecorationsPrefix(conf: seq<Node>, url: string)
    ensures var r := Decorations(conf, url);
      && (forall i :: 0 <= i < |r| ==> conf[i].Str? && r[i] == Decorate(conf[i].s, url))
      && (|r| < |conf| ==> !conf[|r|].Str?)
  {
    if conf != [] && conf[0].Str? {
      DecorationsPrefix(conf[1..], url);
      var r := Decorations(conf, url);
      forall i | 0 < i < |r| ensures conf[i].Str? && r[i] == Decorate(conf[i].s, url) {
        assert conf[1..][i - 1] == conf[i];
      }
      if |r| < |conf| {
        assert conf[1..][|r| - 1] == conf[|r|];
      }
    }
  }

  /** One loop step: a string destination contributes its decorated URI in
      front of those of the destinations after it. */
  lemma DecorationsStep(conf: seq<Node>, i: nat, url: string)
    requires i < |conf| && conf[i].Str?
    ensures Decorations(conf[i..], url) == [Decorate(conf[i].s, url)] + Decorations(conf[i + 1..], url)
  {
    assert conf[i..][1..] == conf[i + 1..];
  }

  /** With string destinations, exactly one URI is added per destination, in
      configuration order: `ntfy` ones decorated, the others unchanged. */
  lemma {:induction false} DecorationsAt(conf: seq<Node>, url: string)
    requires forall i :: 0 <= i < |conf| ==> conf[i].Str?
    ensures |Decorations(conf, url)| == |conf|
    ensures forall i :: 0 <= i < |conf| ==>
      Decorations(conf, url)[i] ==
        if Apprise.Service(conf[i].s) == "ntfy" then conf[i].s + ClickParam + url else conf[i].s
  {
    if conf != [] {
      DecorationsAt(conf[1..], url);
      forall i | 0 < i < |conf|
        ensures Decorations(conf, url)[i] == Decorate(conf[i].s, url)
      {
        assert conf[1..][i - 1] == conf[i];
      }
    }
  }

  /** `configure_apprise_notifications(apprise_client, reddit_url)`, over the
      `apprise` list of the configuration: a destination that is not a string
      has no `.split` and stops the loop, leaving the earlier ones added. */
  method ConfigureAppriseNotifications(client: Apprise.Apprise, conf: seq<Node>, url: string)
    returns (res: Outcome<PyError>)
    modifies client
    ensures res.Pass? <==> forall i :: 0 <= i < |conf| ==> conf[i].Str?
    ensures res.Fail? ==> res.error == AttributeError
    ensures client.urls == old(client.urls) + Decorations(conf, url)
    ensures client.sent == old(client.sent)
  {
    var i := 0;
    while i < |conf|
      invariant 0 <= i <= |conf|
      invariant forall j :: 0 <= j < i ==> conf[j].Str?
      invariant client.urls + Decorations(conf[i..], url) == old(client.urls) + Decorations(conf, url)
      invariant client.sent == old(client.sent)
    {
      if !conf[i].Str? {
        return Fail(AttributeError);
      }
      DecorationsStep(conf, i, url);
      var service := Apprise.Service(conf[i].s);
      if service == "ntfy" {
        client.Add(conf[i].s + ClickParam + url);
      } else {
        client.Add(conf[i].s);
      }
      i := i + 1;
    }
    return Pass;
  }

  /** `notify(apprise_client, title, submission_id)`: one notification with
      the post link as body to every configured destination, then `clear`. */
  method Notify(client: Apprise.Apprise, title: string, submissionId: string, conf: seq<Node>)
    returns (res: Outcome<PyError>)
    modifies client
    ensures res.Pass? <==> forall i :: 0 <= i < |conf| ==> conf[i].Str?
    ensures res.Pass? ==>
      client.sent == old(client.sent) + [Apprise.Delivery(title, RedditUrl(submissionId),
                                           old(client.urls) + Decorations(conf, RedditUrl(submissionId)))]
      && client.urls == []
    ensures res.Fail? ==>
      res.error == AttributeError && client.sent == old(client.sent)
      && client.urls == old(client.urls) + Decorations(conf, RedditUrl(submissionId))
  {
    var url := RedditUrlPrefix + submissionId;
    res := ConfigureAppriseNotifications(client, conf, url);
    if res.Fail? {
      return;
    }
    client.Notify(title, url);
    client.Clear();
  }

  /** `process_submission(submission, subreddits, apprise_client)`: on a
      match, exactly one notification titled with the post title; otherwise
      nothing is sent. */
  method ProcessSubmission(s: Submission, subreddits: Dict.Dict<Node>, client: Apprise.Apprise, conf: seq<Node>)
    returns (res: Outcome<PyError>)
    modifies client
    ensures IsMatch(s, subreddits).Err? ==> res == Fail(IsMatch(s, subreddits).error) && unchanged(client)
    ensures IsMatch(s, subreddits) == Ok(false) ==> res == Pass && unchanged(client)
    ensures IsMatch(s, subreddits) == Ok(true) && res.Pass? ==>
      client.sent == old(client.sent) + [Apprise.Delivery(s.title, RedditUrl(s.id),
                                           old(client.urls) + Decorations(conf, RedditUrl(s.id)))]
      && client.urls == []
    ensures IsMatch(s, subreddits) == Ok(true) ==> (res.Pass? <==> forall i :: 0 <= i < |conf| ==> conf[i].Str?)
    ensures IsMatch(s, subreddits) == Ok(true) && res.Fail? ==>
      res.error == AttributeError && client.sent == old(client.sent)
      && client.urls == old(client.urls) + Decorations(conf, RedditUrl(s.id))
  {
    var matched := IsMatch(s, subreddits);
    if matched.Err? {
      return Fail(matched.error);
    }
    if matched.value {
      res := Notify(client, s.title, s.id, conf);
    } else {
      res := Pass;
    }
  }

  // ---------------------------------------------------------------------------
  // Configuration check and the streamed subreddits
  // ---------------------------------------------------------------------------

  /** How `validate_config` fails: `sys.exit` with a message, or an exception. */
  datatype ConfigError = Exit(message: string) | Raised(error: PyError)

  predicate HasStr(d: Dict.Dict<Node>, k: string) {
    Dict.Get(d, k).Some? && Dict.Get(d, k).value.Str?
  }

  predicate HasMap(d: Dict.Dict<Node>, k: string) {
    Dict.Get(d, k).Some? && Dict.Get(d, k).value.Map?
  }

  predicate HasList(d: Dict.Dict<Node>, k: string) {
    Dict.Get(d, k).Some? && Dict.Get(d, k).value.List?
  }

  /** The shape the configuration must have: a `reddit` dict holding string
      `client`, `secret` and `agent` and a `subreddits` dict, and an `apprise`
      list. */
  predicate WellShaped(config: Node) {
    config.Map? && HasMap(config.entries, KeyReddit)
    && var reddit := Dict.Get(config.entries, KeyReddit).value.entries;
    HasStr(reddit, KeyClient) && HasStr(reddit, KeySecret) && HasStr(reddit, KeyAgent)
    && HasMap(reddit, KeySubreddits)
    && HasList(config.entries, KeyApprise)
  }

  function RedditOf(config: Node): Dict.Dict<Node>
    requires WellShaped(config)
  {
    Dict.Get(config.entries, KeyReddit).value.entries
  }

  function SubredditsOf(config: Node): Dict.Dict<Node>
    requires WellShaped(config)
  {
    Dict.Get(RedditOf(config), KeySubreddits).value.entries
  }

  function AppriseOf(config: Node): seq<Node>
    requires WellShaped(config)
  {
    Dict.Get(config.entries, KeyApprise).value.items
  }

  /** `validate_config(config)`: each check in turn, exiting on the first that
      fails; then `reddit["subreddits"]` is replaced by the same dict with
      lower-cased names. A configuration that is not a dict fails the first
      `in` test or the index that follows it. */
  function ValidateConfig(config: Node): (r: Result<Node, ConfigError>)
    ensures r.Ok? <==> WellShaped(config)
    ensures r.Ok? ==>
      WellShaped(r.value)
      && SubredditsOf(r.value) == Dict.LowerKeys(SubredditsOf(config))
      && AppriseOf(r.value) == AppriseOf(config)
    ensures r.Err? && config.Map? ==> r.error.Exit?
  {
    match config
    case Map(m) =>
      if !HasMap(m, KeyReddit) then Err(Exit("Invalid config: missing reddit config"))
      else
        var reddit := Dict.Get(m, KeyReddit).value.entries;
        if !HasStr(reddit, KeyClient) then Err(Exit("Invalid config: missing reddit -> client config"))
        else if !HasStr(reddit, KeySecret) then Err(Exit("Invalid config: missing reddit -> secret config"))
        else if !HasStr(reddit, KeyAgent) then Err(Exit("Invalid config: missing reddit -> agent config"))
        else if !HasMap(reddit, KeySubreddits) then Err(Exit("Invalid config: missing reddit -> subreddits config"))
        else if !HasList(m, KeyApprise) then Err(Exit("Invalid config: missing apprise config"))
        else
          var subreddits := Dict.Get(reddit, KeySubreddits).value.entries;
          var reddit' := Dict.Put(reddit, KeySubreddits, Map(Dict.LowerKeys(subreddits)));
          var m' := Dict.Put(m, KeyReddit, Map(reddit'));
          ValidatedShape(m, reddit, subreddits);
          Ok(Map(m'))
    case List(xs) =>
      if Str(KeyReddit) in xs then Err(Raised(TypeError)) else Err(Exit("Invalid config: missing reddit config"))
    case Str(s) =>
      if Text.Contains(s, KeyReddit) then Err(Raised(TypeError)) else Err(Exit("Invalid config: missing reddit config"))
    case _ => Err(Raised(TypeError))
  }

  /** The configuration a successful check returns. */
  lemma ValidateOk(config: Node)
    requires WellShaped(config)
    ensures ValidateConfig(config) == Ok(Map(Dict.Put(config.entries, KeyReddit,
      Map(Dict.Put(RedditOf(config), KeySubreddits, Map(Dict.LowerKeys(SubredditsOf(config))))))))
  {
  }

  lemma ValidatedShape(m: Dict.Dict<Node>, reddit: Dict.Dict<Node>, subreddits: Dict.Dict<Node>)
    requires WellShaped(Map(m)) && reddit == RedditOf(Map(m)) && subreddits == SubredditsOf(Map(m))
    ensures var reddit' := Dict.Put(reddit, KeySubreddits, Map(Dict.LowerKeys(subreddits)));
            var config' := Map(Dict.Put(m, KeyReddit, Map(reddit')));
            WellShaped(config') && RedditOf(config') == reddit'
            && SubredditsOf(config') == Dict.LowerKeys(subreddits)
            && AppriseOf(config') == AppriseOf(Map(m))
  {
    var reddit' := Dict.Put(reddit, KeySubreddits, Map(Dict.LowerKeys(subreddits)));
    var m' := Dict.Put(m, KeyReddit, Map(reddit'));
    Dict.PutGet(m, KeyReddit, Map(reddit'));
    Dict.PutGet(reddit, KeySubreddits, Map(Dict.LowerKeys(subreddits)));
    Dict.PutOther(m, KeyReddit, Map(reddit'), KeyApprise);
    Dict.PutOther(reddit, KeySubreddits, Map(Dict.LowerKeys(subreddits)), KeyClient);
    Dict.PutOther(reddit, KeySubreddits, Map(Dict.LowerKeys(subreddits)), KeySecret);
    Dict.PutOther(reddit, KeySubreddits, Map(Dict.LowerKeys(subreddits)), KeyAgent);
  }

  /** After a successful check every subreddit name is lower-case, and
      nothing but the subreddit names has changed. */
  lemma ValidateKeepsRest(config: Node, k: string, j: string)
    requires ValidateConfig(config).Ok?
    ensures Dict.AllLower(Dict.Keys(SubredditsOf(ValidateConfig(config).value)))
    ensures k != KeyReddit ==>
      Dict.Get(ValidateConfig(config).value.entries, k) == Dict.Get(config.entries, k)
    ensures j != KeySubreddits ==>
      Dict.Get(RedditOf(ValidateConfig(config).value), j) == Dict.Get(RedditOf(config), j)
  {
    var m := config.entries;
    var reddit := RedditOf(config);
    var reddit' := Dict.Put(reddit, KeySubreddits, Map(Dict.LowerKeys(SubredditsOf(config))));
    Dict.LowerKeysLower(SubredditsOf(config));
    ValidatedShape(m, reddit, SubredditsOf(config));
    if k != KeyReddit {
      Dict.PutOther(m, KeyReddit, Map(reddit'), k);
    }
    if j != KeySubreddits {
      Dict.PutOther(reddit, KeySubreddits, Map(Dict.LowerKeys(SubredditsOf(config))), j);
    }
  }

  /** Checking an already checked configuration changes nothing more. */
  lemma ValidateIdempotent(config: Node)
    requires ValidateConfig(config).Ok?
    ensures ValidateConfig(ValidateConfig(config).value) == ValidateConfig(config)
  {
    var m := config.entries;
    var reddit := RedditOf(config);
    var subs := SubredditsOf(config);
    var lowered := Map(Dict.LowerKeys(subs));
    var reddit' := Dict.Put(reddit, KeySubreddits, lowered);
    var m' := Dict.Put(m, KeyReddit, Map(reddit'));
    ValidateOk(config);
    ValidatedShape(m, reddit, subs);
    var config' := Map(m');
    assert RedditOf(config') == reddit' && SubredditsOf(config') == Dict.LowerKeys(subs);
    ValidateOk(config');
    Dict.LowerKeysIdempotent(subs);
    Dict.PutPut(reddit, KeySubreddits, lowered, lowered);
    Dict.PutPut(m, KeyReddit, Map(reddit'), Map(reddit'));
  }

  /** `"+".join(subreddits.keys())`: the multireddit the stream is opened on. */
  function SubredditQuery(subreddits: Dict.Dict<Node>): string {
    Text.Join(Dict.Keys(subreddits), '+')
  }

  /** The query names every configured subreddit, in order, and only those,
      when no name contains '+'; with no subreddit it is the empty string. */
  lemma SubredditQueryNames(subreddits: Dict.Dict<Node>)
    requires forall i :: 0 <= i < |subreddits| ==> '+' !in subreddits[i].0
    ensures subreddits != [] ==> Text.Split(SubredditQuery(subreddits), '+') == Dict.Keys(subreddits)
    ensures subreddits == [] ==> Text.Split(SubredditQuery(subreddits), '+') == [""]
  {
    if subreddits != [] {
      Text.SplitJoin(Dict.Keys(subreddits), '+');
    }
  }
}
