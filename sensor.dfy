/**
 * The two polling sensors: one counts the unavailable entities of the host,
 * the other counts pending updates and notifies the ones it has not seen.
 */
module Sensor {
  import opened Wrappers
  import opened Entry
  import opened Filters
  import opened Notify

  /** `_state`: the text "Initialisation" until the first ready poll, a count afterwards. */
  datatype SensorState = Initialisation | Count(n: nat)

  const UnavailableIcon := "mdi:alert-circle"
  const UnavailableIdleIcon := "mdi:alert-circle-outline"
  const UpdateIcon := "mdi:package-up"
  const UpdateIdleIcon := "mdi:package-variant"

  /**
   * The loop of the unavailable sensor's poll: walks the registry and keeps
   * the lower-cased ids that are unavailable or unknown, are not the sensor's
   * own id, start with no ignored prefix and match no exclusion item.
   */
  method CollectUnavailable(states: seq<EntityState>, ownId: string, excluded: seq<string>)
    returns (ids: seq<string>)
    ensures ids == UnavailableIds(states, ownId, excluded)
  {
    ids := [];
    for i := 0 to |states|
      invariant ids == UnavailableIds(states[..i], ownId, excluded)
    {
      assert states[..i + 1][..i] == states[..i];
      var e := states[i];
      var eid := PyStr.Lower(e.entityId);
      if !IsUnavailableState(e.state) || eid == ownId {
        continue;
      }
      if StartsWithAny(eid, IgnoredPrefixes) {
        continue;
      }
      if exists k :: 0 <= k < |excluded| && MatchesItem(eid, excluded[k]) {
        continue;
      }
      assert forall k :: 0 <= k < |excluded| ==> !MatchesItem(eid, excluded[k]);
      ids := ids + [eid];
    }
    assert states[..|states|] == states;
  }

  class UnavailableSensor {
    const entry: ConfigEntry
    const entityId: string
    var state: SensorState
    var attributes: map<string, seq<string>>
    var isReady: bool

    constructor (entry: ConfigEntry, entityId: string)
      ensures this.entry == entry && this.entityId == entityId
      ensures state == Initialisation && attributes == map[] && !isReady
    {
      this.entry := entry;
      this.entityId := entityId;
      state := Initialisation;
      attributes := map[];
      isReady := false;
    }

    /** The filled icon exactly when the state is a count above zero. */
    function Icon(): (icon: string)
      reads this
      ensures icon == UnavailableIcon <==> state.Count? && state.n > 0
      ensures icon == UnavailableIcon || icon == UnavailableIdleIcon
    {
      match state
      case Count(n) => if n > 0 then UnavailableIcon else UnavailableIdleIcon
      case Initialisation => UnavailableIdleIcon
    }

    /** What the delayed start-up task does to the sensor: open the readiness gate. */
    method EnableMonitoring()
      modifies this
      ensures isReady
      ensures state == old(state) && attributes == old(attributes)
    {
      isReady := true;
    }

    /** One poll. Before the gate opens it changes nothing. */
    method Update(states: seq<EntityState>)
      modifies this
      ensures isReady == old(isReady)
      ensures !isReady ==> state == old(state) && attributes == old(attributes)
      ensures isReady ==>
        var settings := Resolve(entry);
        var ids := UnavailableIds(states, entityId, Exclusions(settings.defaultFilters, settings.excludedEntities));
        state == Count(|ids|) && attributes == map["entities" := ids]
    {
      if !isReady {
        return;
      }
      var opts, data := entry.options, entry.data;
      var useDefaults := Lookup(opts.defaultFilters, data.defaultFilters, true);
      var rawExclusions := Lookup(opts.excludedEntities, data.excludedEntities, "");
      var excluded := ParseExclusions(rawExclusions);
      if useDefaults {
        excluded := excluded + DefaultExclusions;
      }
      assert excluded == Exclusions(Resolve(entry).defaultFilters, Resolve(entry).excludedEntities);
      var ids := CollectUnavailable(states, entityId, excluded);
      state := Count(|ids|);
      attributes := map["entities" := ids];
    }
  }

  class UpdateSensor {
    const entry: ConfigEntry
    const entityId: string
    var state: SensorState
    var attributes: map<string, seq<string>>
    var isReady: bool
    /** `_last_updates`: the pending updates seen at the last completed poll. */
    var lastUpdates: set<string>
    /** Every service call sent, in order. */
    ghost var calls: seq<ServiceCall>
    /** The notify services whose call failed and was logged, in order. */
    ghost var failedServices: seq<string>

    constructor (entry: ConfigEntry, entityId: string)
      ensures this.entry == entry && this.entityId == entityId
      ensures state == Initialisation && attributes == map[] && !isReady
      ensures lastUpdates == {} && calls == [] && failedServices == []
    {
      this.entry := entry;
      this.entityId := entityId;
      state := Initialisation;
      attributes := map[];
      isReady := false;
      lastUpdates := {};
      calls := [];
      failedServices := [];
    }

    /** The filled icon exactly when the state is a count above zero. */
    function Icon(): (icon: string)
      reads this
      ensures icon == UpdateIcon <==> state.Count? && state.n > 0
      ensures icon == UpdateIcon || icon == UpdateIdleIcon
    {
      match state
      case Count(n) => if n > 0 then UpdateIcon else UpdateIdleIcon
      case Initialisation => UpdateIdleIcon
    }

    /** What the delayed start-up task does to the sensor: open the readiness gate. */
    method EnableMonitoring()
      modifies this
      ensures isReady
      ensures state == old(state) && attributes == old(attributes)
      ensures lastUpdates == old(lastUpdates) && calls == old(calls) && failedServices == old(failedServices)
    {
      isReady := true;
    }

    /**
     * The loop over the configured notify services: each is called once, in
     * order; a call that fails is logged and the loop goes on.
     */
    method NotifyAll(services: seq<string>, rendered: string)
      modifies this`calls, this`failedServices
      ensures calls == old(calls) + NotifyCalls(services, rendered)
      ensures old(failedServices) <= failedServices
      ensures |failedServices| <= |old(failedServices)| + |services|
      ensures forall k :: |old(failedServices)| <= k < |failedServices| ==> failedServices[k] in services
    {
      for i := 0 to |services|
        invariant calls == old(calls) + NotifyCalls(services[..i], rendered)
        invariant old(failedServices) <= failedServices
        invariant |failedServices| <= |old(failedServices)| + i
        invariant forall k :: |old(failedServices)| <= k < |failedServices| ==> failedServices[k] in services
      {
        calls := calls + [NotifyCall(services[i], rendered)];
        var failed: bool :| true;
        if failed {
          failedServices := failedServices + [services[i]];
        }
      }
      assert services[..|services|] == services;
    }

    /**
     * The notifications of a poll that found new updates: the persistent
     * notification when enabled, then every notify service. `raised` tells
     * that the persistent notification failed, which stops the dispatch.
     */
    method Dispatch(sendPersistent: bool, services: seq<string>, rendered: string) returns (raised: bool)
      modifies this`calls, this`failedServices
      ensures raised ==> sendPersistent && calls == old(calls) + [PersistentCall(rendered)]
      ensures raised ==> failedServices == old(failedServices)
      ensures !raised ==> calls == old(calls) + Notifications(sendPersistent, services, rendered)
      ensures old(failedServices) <= failedServices
      ensures |failedServices| <= |old(failedServices)| + |services|
      ensures forall k :: |old(failedServices)| <= k < |failedServices| ==> failedServices[k] in services
    {
      raised := false;
      ghost var persistent := if sendPersistent then [PersistentCall(rendered)] else [];
      if sendPersistent {
        calls := calls + [PersistentCall(rendered)];
        var failed: bool :| true;
        if failed {
          raised := true;
          return;
        }
      }
      assert calls == old(calls) + persistent;
      if services != [] {
        NotifyAll(services, rendered);
      } else {
        assert NotifyCalls(services, rendered) == [];
      }
      assert calls == old(calls) + persistent + NotifyCalls(services, rendered);
      assert persistent + NotifyCalls(services, rendered) == Notifications(sendPersistent, services, rendered);
    }

    /**
     * One poll. `render` stands for the host's rendering of the message
     * template over the registry. `raised` tells that the persistent
     * notification failed, which ends the poll before anything is stored.
     */
    method Update(states: seq<EntityState>, render: seq<EntityState> -> string) returns (raised: bool)
      modifies this
      ensures isReady == old(isReady)
      ensures !old(isReady) ==>
        && !raised && state == old(state) && attributes == old(attributes)
        && lastUpdates == old(lastUpdates) && calls == old(calls) && failedServices == old(failedServices)
      ensures old(isReady) && raised ==>
        && NewUpdates(CurrentUpdates(states), old(lastUpdates)) != []
        && Resolve(entry).persistentNotifications
        && calls == old(calls) + [PersistentCall(render(states))]
        && state == old(state) && attributes == old(attributes) && lastUpdates == old(lastUpdates)
        && failedServices == old(failedServices)
      ensures old(isReady) && !raised && NewUpdates(CurrentUpdates(states), old(lastUpdates)) == [] ==>
        calls == old(calls) && failedServices == old(failedServices)
      ensures old(isReady) && !raised && NewUpdates(CurrentUpdates(states), old(lastUpdates)) != [] ==>
        var settings := Resolve(entry);
        calls == old(calls) + Notifications(settings.persistentNotifications, settings.notifyService, render(states))
      ensures old(isReady) && !raised ==>
        var current := CurrentUpdates(states);
        && lastUpdates == ToSet(current)
        && state == Count(|current|)
        && attributes == map["updates_list" := current]
      ensures old(isReady) && !raised ==>
        var services := Resolve(entry).notifyService;
        && old(failedServices) <= failedServices
        && |failedServices| <= |old(failedServices)| + |services|
        && forall k :: |old(failedServices)| <= k < |failedServices| ==> failedServices[k] in services
    {
      raised := false;
      if !isReady {
        return;
      }
      var opts, data := entry.options, entry.data;
      var current := CurrentUpdates(states);
      var added := NewUpdates(current, lastUpdates);
      if added != [] {
        var sendPersistent := Lookup(opts.persistentNotifications, data.persistentNotifications, true);
        var services := Lookup(opts.notifyService, data.notifyService, []);
        assert sendPersistent == Resolve(entry).persistentNotifications;
        assert services == Resolve(entry).notifyService;
        raised := Dispatch(sendPersistent, services, render(states));
        if raised {
          return;
        }
      }
      lastUpdates := ToSet(current);
      state := Count(|current|);
      attributes := map["updates_list" := current];
    }
  }
}
