/**
 The two commands composed through the configuration file: `configure`
 collects subscriptions and writes the merged configuration, and `wrap`
 later resolves aliases against it.
 */
module Workflow {
  import opened Wrappers
  import opened ConfigFile
  import opened Resolution
  import opened Job
  import opened Collector

  /** `configure`: poll until `/end`, then merge the registrations and the new
      token into the configuration loaded from the output path (`None` when
      loading raised). */
  function Configure(loaded: Option<Config>, token: string, events: seq<Event>): (r: Config)
    ensures forall name :: Registrant(events, name).Some? ==> name in r && r[name] == Int(Registrant(events, name).value)
    ensures TokenKey in r
    ensures Registrant(events, TokenKey).None? ==> r[TokenKey] == Str(token)
    ensures forall k :: k in r <==> k in Existing(loaded) || k == TokenKey || Registrant(events, k).Some?
    ensures forall k :: k in Existing(loaded) && k != TokenKey && Registrant(events, k).None? ==> r[k] == Existing(loaded)[k]
  {
    var pending := Collect(events).pending;
    assert forall name :: name in pending <==> Registrant(events, name).Some? by {
      forall name ensures name in pending <==> Registrant(events, name).Some? {
        CollectedRegistrations(events, name);
      }
    }
    assert forall name :: name in pending ==> pending[name] == Registrant(events, name).value by {
      forall name | name in pending ensures pending[name] == Registrant(events, name).value {
        CollectedRegistrations(events, name);
      }
    }
    Merge(loaded, token, pending)
  }

  /** Whoever subscribed under a name first is notified, and only they, when
      `wrap` later reads the written configuration and is asked for that
      name. The bot is built with the new credential, unless someone
      subscribed under the name `token`: then it is built with that
      subscriber's user id. */
  lemma ConfigureThenWrap(loaded: Option<Config>, token: string, events: seq<Event>, name: string, outcome: Outcome, elapsed: nat)
    requires Registrant(events, name).Some?
    ensures var uid := Registrant(events, name).value;
      var r := Wrap(Configure(loaded, token, events), [name], outcome, elapsed);
      && r.Success?
      && r.value.recipients == Recipients([name], [Int(uid)])
      && r.value.sent == [Message(Int(uid), NotificationText(outcome, elapsed))]
      && (Registrant(events, TokenKey).None? ==> r.value.token == Str(token))
      && (Registrant(events, TokenKey).Some? ==> r.value.token == Int(Registrant(events, TokenKey).value))
  {
    var config := Configure(loaded, token, events);
    var uid := Registrant(events, name).value;
    assert config[name] == Int(uid);
    AllResolveDistinct(config, [name]);
    var ids := Resolve(config, [name]).value.ids;
    assert |ids| == 1 && ids[0] == config[[name][0]];
    assert ids == [Int(uid)];
    var recipients := Recipients([name], [Int(uid)]);
    assert Resolve(config, [name]) == Success(recipients);
    var r := Wrap(config, [name], outcome, elapsed);
    assert r.Success? && r.value.recipients == recipients;
    assert |r.value.sent| == 1;
  }
}
