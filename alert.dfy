/** The alert router: a client that sends a title and body to every
    destination configured for an alert level, after testing every level once
    when it is built. */
module Alert {
  import opened Wrappers
  import Lib
  import Config
  import Apprise

  const NtfyUnsupported := "ntfy not supported"
  const StartupTitle := "Test"
  const ErrorTitle := "[ERROR]"

  /** No destination of the list names the `ntfy` service. */
  predicate Supported(urls: seq<string>) {
    forall i :: 0 <= i < |urls| ==> Apprise.Service(urls[i]) != "ntfy"
  }

  /** The position of the first `ntfy` destination, or the length of the list
      when there is none. */
  function FirstNtfy(urls: seq<string>): (k: nat)
    ensures k <= |urls|
    ensures forall j :: 0 <= j < k ==> Apprise.Service(urls[j]) != "ntfy"
    ensures k < |urls| ==> Apprise.Service(urls[k]) == "ntfy"
    ensures k == |urls| <==> Supported(urls)
  {
    if urls == [] then 0
    else if Apprise.Service(urls[0]) == "ntfy" then 0
    else
      var k := FirstNtfy(urls[1..]);
      assert forall j :: 0 < j < |urls| ==> urls[1..][j - 1] == urls[j];
      1 + k
  }

  /** Every level of the configuration can be sent to. */
  predicate Ready(config: Config.AlertConfig) {
    forall level: Lib.AlertLevel :: Supported(config.Get(level))
  }

  /** The position in `Lib.Levels` of the first level that cannot be sent
      to, or 3 when every level can. */
  function FirstUnready(config: Config.AlertConfig): (k: nat)
    ensures k <= |Lib.Levels|
    ensures forall j :: 0 <= j < k ==> Supported(config.Get(Lib.Levels[j]))
    ensures k < |Lib.Levels| ==> !Supported(config.Get(Lib.Levels[k]))
  {
    if !Supported(config.Get(Lib.Notify)) then 0
    else if !Supported(config.Get(Lib.Filter)) then 1
    else if !Supported(config.Get(Lib.Error)) then 2
    else 3
  }

  /** The body of the startup message for a level. */
  function StartupBody(level: Lib.AlertLevel): string {
    "This is a startup message at " + level.Value() + " level"
  }

  /** The deliveries of the startup self-test for the given levels. */
  function StartupDeliveries(config: Config.AlertConfig, levels: seq<Lib.AlertLevel>): seq<Apprise.Delivery> {
    seq(|levels|, i requires 0 <= i < |levels| =>
      Apprise.Delivery(StartupTitle, StartupBody(levels[i]), config.Get(levels[i])))
  }

  /** The self-test sends one message per level, in declaration order, each
      to exactly that level's destinations. */
  lemma StartupMessages(config: Config.AlertConfig)
    ensures StartupDeliveries(config, Lib.Levels) == [
      Apprise.Delivery("Test", "This is a startup message at notify level", config.Get(Lib.Notify)),
      Apprise.Delivery("Test", "This is a startup message at filter level", config.Get(Lib.Filter)),
      Apprise.Delivery("Test", "This is a startup message at error level", config.Get(Lib.Error))]
  {
    assert StartupBody(Lib.Notify) == "This is a startup message at notify level";
    assert StartupBody(Lib.Filter) == "This is a startup message at filter level";
    assert StartupBody(Lib.Error) == "This is a startup message at error level";
  }

  class Client {
    const apprise: Apprise.Apprise
    const config: Config.AlertConfig

    /** What holds of every client that finished construction: each level can
        be sent to, and no destination is left added between sends. */
    ghost predicate Valid()
      reads this, apprise
    {
      Ready(config) && apprise.urls == []
    }

    /** The field assignments of `Client(config)`. */
    constructor Init(config: Config.AlertConfig)
      ensures this.config == config && fresh(apprise)
      ensures apprise.urls == [] && apprise.sent == []
    {
      this.config := config;
      apprise := new Apprise.Apprise();
    }

    /** `Client(config)`: builds the client and runs the self-test, which
        fails, and so fails the construction, when some level has an `ntfy`
        destination. */
    static method New(config: Config.AlertConfig) returns (c: Client, res: Outcome<PyError>)
      ensures fresh(c) && fresh(c.apprise) && c.config == config
      ensures res.Pass? <==> Ready(config)
      ensures res.Pass? ==> c.Valid() && c.apprise.sent == StartupDeliveries(config, Lib.Levels)
      ensures res.Fail? ==>
        res.error == RuntimeError(NtfyUnsupported)
        && c.apprise.sent == StartupDeliveries(config, Lib.Levels[..FirstUnready(config)])
    {
      c := new Client.Init(config);
      res := c.Startup();
    }

    /** `_startup()`: one test message per level, in declaration order,
        stopping at the first level that cannot be sent to. */
    method Startup() returns (res: Outcome<PyError>)
      requires apprise.urls == []
      modifies apprise
      ensures res.Pass? <==> Ready(config)
      ensures res.Pass? ==>
        apprise.urls == [] && apprise.sent == old(apprise.sent) + StartupDeliveries(config, Lib.Levels)
      ensures res.Fail? ==>
        res.error == RuntimeError(NtfyUnsupported)
        && apprise.sent == old(apprise.sent) + StartupDeliveries(config, Lib.Levels[..FirstUnready(config)])
    {
      var i := 0;
      while i < |Lib.Levels|
        invariant 0 <= i <= |Lib.Levels|
        invariant forall j :: 0 <= j < i ==> Supported(config.Get(Lib.Levels[j]))
        invariant apprise.urls == []
        invariant apprise.sent == old(apprise.sent) + StartupDeliveries(config, Lib.Levels[..i])
      {
        var level := Lib.Levels[i];
        res := SendMessage(StartupTitle, StartupBody(level), level);
        if res.Fail? {
          assert i == FirstUnready(config);
          return;
        }
        assert [] + config.Get(level) == config.Get(level);
        assert StartupDeliveries(config, Lib.Levels[..i + 1])
            == StartupDeliveries(config, Lib.Levels[..i]) + [Apprise.Delivery(StartupTitle, StartupBody(level), config.Get(level))];
        i := i + 1;
      }
      assert Lib.Levels[..i] == Lib.Levels;
      forall level: Lib.AlertLevel ensures Supported(config.Get(level)) {
        Lib.LevelsEnumerate(level);
      }
      res := Pass;
    }

    /** `_send_message(title, body, dest)`: adds the level's destinations in
        order, then notifies them once and clears them. An `ntfy` destination
        raises before the notification, leaving the destinations added so far
        in place. */
    method SendMessage(title: string, body: string, dest: Lib.AlertLevel) returns (res: Outcome<PyError>)
      modifies apprise
      ensures res.Pass? <==> Supported(config.Get(dest))
      ensures res.Pass? ==>
        apprise.sent == old(apprise.sent) + [Apprise.Delivery(title, body, old(apprise.urls) + config.Get(dest))]
        && apprise.urls == []
      ensures res.Fail? ==>
        res.error == RuntimeError(NtfyUnsupported) && apprise.sent == old(apprise.sent)
        && apprise.urls == old(apprise.urls) + config.Get(dest)[..FirstNtfy(config.Get(dest))]
    {
      var urls := config.Get(dest);
      var i := 0;
      while i < |urls|
        invariant 0 <= i <= |urls|
        invariant forall j :: 0 <= j < i ==> Apprise.Service(urls[j]) != "ntfy"
        invariant apprise.urls == old(apprise.urls) + urls[..i]
        invariant apprise.sent == old(apprise.sent)
      {
        if Apprise.Service(urls[i]) == "ntfy" {
          assert i == FirstNtfy(urls);
          return Fail(RuntimeError(NtfyUnsupported));
        }
        assert urls[..i + 1] == urls[..i] + [urls[i]];
        apprise.Add(urls[i]);
        i := i + 1;
      }
      assert urls[..i] == urls;
      apprise.Notify(title, body);
      apprise.Clear();
      res := Pass;
    }

    /** `notify(title, body)`: the title and body go unchanged to the notify
        destinations. */
    method Notify(title: string, body: string) returns (res: Outcome<PyError>)
      requires Valid()
      modifies apprise
      ensures Valid() && res == Pass
      ensures apprise.sent == old(apprise.sent) + [Apprise.Delivery(title, body, config.Get(Lib.Notify))]
    {
      res := SendMessage(title, body, Lib.Notify);
      assert [] + config.Get(Lib.Notify) == config.Get(Lib.Notify);
    }

    /** `alert_error(exception)`: the text of the exception goes to the error
        destinations under the title "[ERROR]". */
    method AlertError(exception: string) returns (res: Outcome<PyError>)
      requires Valid()
      modifies apprise
      ensures Valid() && res == Pass
      ensures apprise.sent == old(apprise.sent) + [Apprise.Delivery(ErrorTitle, exception, config.Get(Lib.Error))]
    {
      res := SendMessage(ErrorTitle, exception, Lib.Error);
      assert [] + config.Get(Lib.Error) == config.Get(Lib.Error);
    }

    /** `notify_filtered(title, body)`: the title and body go unchanged to the
        filter destinations. */
    method NotifyFiltered(title: string, body: string) returns (res: Outcome<PyError>)
      requires Valid()
      modifies apprise
      ensures Valid() && res == Pass
      ensures apprise.sent == old(apprise.sent) + [Apprise.Delivery(title, body, config.Get(Lib.Filter))]
    {
      res := SendMessage(title, body, Lib.Filter);
      assert [] + config.Get(Lib.Filter) == config.Get(Lib.Filter);
    }
  }
}
