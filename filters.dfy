/**
 * The pure parts of the two sensors' polls: parsing the exclusion setting,
 * deciding which unavailable entities are counted, and picking out the
 * pending updates and the ones not seen at the previous poll.
 */
module Filters {
  import opened PyStr

  /** One entry of the host's state registry. */
  datatype EntityState = EntityState(entityId: string, state: string)

  /** The host's state strings for an entity that cannot be read. */
  const StateUnavailable := "unavailable"
  const StateUnknown := "unknown"

  /** The items appended to the exclusion list when the default filters are on. */
  const DefaultExclusions: seq<string> := ["sensor.backup", "event", "conversation", "tts", "update", "person"]

  /** Id prefixes the unavailable sensor never counts, whatever the settings. */
  const IgnoredPrefixes: seq<string> := ["persistent_notification.", "button.", "scene."]

  /** What a parsed exclusion item looks like. */
  predicate IsCleanItem(x: string)
  {
    x != [] && Stripped(x) && NoUpper(x)
  }

  /** The default items are already in parsed form. */
  lemma DefaultsAreClean()
    ensures forall k :: 0 <= k < |DefaultExclusions| ==> IsCleanItem(DefaultExclusions[k]) && ',' !in DefaultExclusions[k]
  {
    assert IsCleanItem("sensor.backup");
    assert IsCleanItem("event");
    assert IsCleanItem("conversation");
    assert IsCleanItem("tts");
    assert IsCleanItem("update");
    assert IsCleanItem("person");
  }

  lemma LowerKeepsStripped(t: string)
    requires Stripped(t)
    ensures Stripped(Lower(t))
  {
  }

  /** `[x.strip().lower() for x in pieces if x.strip()]`. */
  function CleanItems(pieces: seq<string>): (items: seq<string>)
    ensures |items| <= |pieces|
    ensures forall k :: 0 <= k < |items| ==> IsCleanItem(items[k])
  {
    if pieces == [] then []
    else
      var t := Strip(pieces[0]);
      LowerKeepsStripped(t);
      (if t != [] then [Lower(t)] else []) + CleanItems(pieces[1..])
  }

  /** A character that is no letter and in no piece is in no item. */
  lemma {:induction false} CleanItemsAvoid(pieces: seq<string>, c: char)
    requires !IsCased(c)
    requires forall j :: 0 <= j < |pieces| ==> c !in pieces[j]
    ensures forall k :: 0 <= k < |CleanItems(pieces)| ==> c !in CleanItems(pieces)[k]
  {
    if pieces != [] {
      var rest := pieces[1..];
      assert forall j :: 0 <= j < |rest| ==> rest[j] == pieces[j + 1];
      CleanItemsAvoid(rest, c);
      var t := Strip(pieces[0]);
      StripKeepsCharacters(pieces[0]);
      assert c !in t;
      var head := if t != [] then [Lower(t)] else [];
      assert forall k :: 0 <= k < |head| ==> c !in head[k];
      assert CleanItems(pieces) == head + CleanItems(rest);
    }
  }

  /** Items keep the order of the pieces they come from. */
  lemma {:induction false} CleanItemsAppend(a: seq<string>, b: seq<string>)
    ensures CleanItems(a + b) == CleanItems(a) + CleanItems(b)
  {
    if a != [] {
      var t := Strip(a[0]);
      var head := if t != [] then [Lower(t)] else [];
      assert (a + b)[0] == a[0] && (a + b)[1..] == a[1..] + b;
      assert CleanItems(a + b) == head + CleanItems(a[1..] + b);
      assert CleanItems(a) == head + CleanItems(a[1..]);
      CleanItemsAppend(a[1..], b);
      assert head + (CleanItems(a[1..]) + CleanItems(b)) == (head + CleanItems(a[1..])) + CleanItems(b);
    } else {
      assert a + b == b;
    }
  }

  /** A piece that is blank after stripping gives no item. */
  lemma BlankPieceSkipped(piece: string)
    ensures CleanItems([piece]) == [] <==> AllSpace(piece)
  {
  }

  /** `[x.strip().lower() for x in raw.split(",") if x.strip()]`. */
  function ParseExclusions(raw: string): (items: seq<string>)
    ensures forall k :: 0 <= k < |items| ==> IsCleanItem(items[k]) && ',' !in items[k]
  {
    CleanItemsAvoid(Split(raw, ','), ',');
    CleanItems(Split(raw, ','))
  }

  /** The items of text on either side of a comma come in the order of the text. */
  lemma ParseAroundComma(a: string, b: string)
    ensures ParseExclusions(a + "," + b) == ParseExclusions(a) + ParseExclusions(b)
  {
    SplitAround(a, b, ',');
    CleanItemsAppend(Split(a, ','), Split(b, ','));
  }

  lemma {:induction false} CleanItemsOfClean(items: seq<string>)
    requires forall k :: 0 <= k < |items| ==> IsCleanItem(items[k])
    ensures CleanItems(items) == items
  {
    if items != [] {
      StripOfStripped(items[0]);
      LowerOfLower(items[0]);
      CleanItemsOfClean(items[1..]);
      assert items == [items[0]] + items[1..];
    }
  }

  /** Clean items written out as `a,b,c` parse back to themselves. */
  lemma ParseJoined(items: seq<string>)
    requires |items| >= 1
    requires forall k :: 0 <= k < |items| ==> IsCleanItem(items[k]) && ',' !in items[k]
    ensures ParseExclusions(Join(items, ',')) == items
  {
    SplitJoin(items, ',');
    CleanItemsOfClean(items);
  }

  /** Parsing is a normalisation: parsing its own output written back as a string changes nothing. */
  lemma ParseIdempotent(raw: string)
    ensures var items := ParseExclusions(raw);
      items == [] || ParseExclusions(Join(items, ',')) == items
  {
    var items := ParseExclusions(raw);
    if items != [] {
      ParseJoined(items);
    }
  }

  /** Each item preceded by one space, as `", ".join` leaves them after a split on commas. */
  function Padded(items: seq<string>): (pieces: seq<string>)
    ensures |pieces| == |items|
    ensures forall k :: 0 <= k < |items| ==> pieces[k] == " " + items[k]
  {
    if items == [] then [] else [" " + items[0]] + Padded(items[1..])
  }

  lemma StripPaddedItem(x: string)
    requires IsCleanItem(x)
    ensures Strip(" " + x) == x && Lower(x) == x
  {
    assert " " + x + [] == " " + x;
    StripPadded(" ", x, []);
    LowerOfLower(x);
  }

  lemma {:induction false} CleanItemsOfPadded(items: seq<string>)
    requires forall k :: 0 <= k < |items| ==> IsCleanItem(items[k])
    ensures CleanItems(Padded(items)) == items
  {
    if items != [] {
      var pieces := Padded(items);
      StripPaddedItem(items[0]);
      assert pieces[1..] == Padded(items[1..]);
      CleanItemsOfPadded(items[1..]);
      assert items == [items[0]] + items[1..];
    }
  }

  /** Clean items written out as `a, b, c` parse back to themselves. */
  lemma ParseCommaSpaceJoined(items: seq<string>)
    requires |items| >= 1
    requires forall k :: 0 <= k < |items| ==> IsCleanItem(items[k]) && ',' !in items[k]
    ensures ParseExclusions(Join([items[0]] + Padded(items[1..]), ',')) == items
  {
    var pieces := [items[0]] + Padded(items[1..]);
    SplitJoin(pieces, ',');
    CleanItemsAppend([items[0]], Padded(items[1..]));
    CleanItemsOfClean([items[0]]);
    CleanItemsOfPadded(items[1..]);
    assert items == [items[0]] + items[1..];
  }

  /** The exclusion list a poll uses: the parsed items, then the defaults when they are on. */
  function Exclusions(useDefaults: bool, raw: string): (items: seq<string>)
    ensures forall k :: 0 <= k < |items| ==> IsCleanItem(items[k])
    ensures forall x :: x in items <==> x in ParseExclusions(raw) || (useDefaults && x in DefaultExclusions)
  {
    DefaultsAreClean();
    ParseExclusions(raw) + if useDefaults then DefaultExclusions else []
  }

  /** The user's items first, in their order, then the defaults exactly, when they are on. */
  lemma ExclusionsLayout(useDefaults: bool, raw: string)
    ensures var items, user := Exclusions(useDefaults, raw), ParseExclusions(raw);
      && |items| == |user| + (if useDefaults then |DefaultExclusions| else 0)
      && items[..|user|] == user
      && items[|user|..] == (if useDefaults then DefaultExclusions else [])
  {
  }

  /**
   * `eid == item or eid.split(".")[0] == item or eid.startswith(item)`: the
   * three-way match is nothing but "the item is a prefix of the id".
   */
  predicate MatchesItem(eid: string, item: string)
    ensures MatchesItem(eid, item) <==> item <= eid
  {
    eid == item || Domain(eid) == item || item <= eid
  }

  /** An item without a dot also matches ids whose domain only begins with it. */
  lemma BareItemMatchesLongerDomain(item: string, rest: string)
    requires '.' !in item && rest != [] && rest[0] != '.'
    ensures MatchesItem(item + rest, item) && Domain(item + rest) != item
  {
    var eid := item + rest;
    assert item <= eid;
    assert eid[|item|] == rest[0];
  }

  /** `eid.startswith(tuple(prefixes))`. */
  predicate StartsWithAny(eid: string, prefixes: seq<string>)
  {
    exists k :: 0 <= k < |prefixes| && prefixes[k] <= eid
  }

  predicate IsUnavailableState(state: string)
  {
    state == StateUnavailable || state == StateUnknown
  }

  /**
   * Whether the unavailable sensor counts `e`: the specification of one loop
   * iteration, stated with the three-way match as the loop writes it.
   */
  predicate Counted(e: EntityState, ownId: string, excluded: seq<string>)
    ensures var eid := Lower(e.entityId);
      Counted(e, ownId, excluded) <==>
        && (e.state == StateUnavailable || e.state == StateUnknown)
        && eid != ownId
        && (forall k :: 0 <= k < |IgnoredPrefixes| ==> !(IgnoredPrefixes[k] <= eid))
        && (forall k :: 0 <= k < |excluded| ==> !MatchesItem(eid, excluded[k]))
  {
    var eid := Lower(e.entityId);
    && IsUnavailableState(e.state)
    && eid != ownId
    && !StartsWithAny(eid, IgnoredPrefixes)
    && !StartsWithAny(eid, excluded)
  }

  /** The lower-cased ids of the counted entities, in registry order. */
  function UnavailableIds(states: seq<EntityState>, ownId: string, excluded: seq<string>): (ids: seq<string>)
    ensures |ids| <= |states|
    ensures forall k :: 0 <= k < |ids| ==>
      && NoUpper(ids[k]) && ids[k] != ownId
      && !StartsWithAny(ids[k], IgnoredPrefixes) && !StartsWithAny(ids[k], excluded)
  {
    if states == [] then []
    else
      var last := states[|states| - 1];
      UnavailableIds(states[..|states| - 1], ownId, excluded)
        + if Counted(last, ownId, excluded) then [Lower(last.entityId)] else []
  }

  /** The ids of a registry split in two are those of the first part followed by those of the second. */
  lemma {:induction false} UnavailableIdsAppend(a: seq<EntityState>, b: seq<EntityState>, ownId: string, excluded: seq<string>)
    ensures UnavailableIds(a + b, ownId, excluded) == UnavailableIds(a, ownId, excluded) + UnavailableIds(b, ownId, excluded)
  {
    if b != [] {
      assert (a + b)[..|a + b| - 1] == a + b[..|b| - 1];
      UnavailableIdsAppend(a, b[..|b| - 1], ownId, excluded);
    } else {
      assert a + b == a;
    }
  }

  /** An id is listed exactly when some entity with that lower-cased id is counted. */
  lemma {:induction false} UnavailableIdsMembers(states: seq<EntityState>, ownId: string, excluded: seq<string>, x: string)
    ensures x in UnavailableIds(states, ownId, excluded) <==>
      exists i :: 0 <= i < |states| && Counted(states[i], ownId, excluded) && Lower(states[i].entityId) == x
  {
    if states != [] {
      var init := states[..|states| - 1];
      UnavailableIdsMembers(init, ownId, excluded, x);
      assert forall i :: 0 <= i < |init| ==> init[i] == states[i];
    }
  }

  /** With the default filters on, no id starting with a default item is ever counted. */
  lemma DefaultsHideTheirDomains(states: seq<EntityState>, ownId: string, raw: string, x: string)
    requires x in UnavailableIds(states, ownId, Exclusions(true, raw))
    ensures forall d :: d in DefaultExclusions ==> !(d <= x)
  {
    var excluded := Exclusions(true, raw);
    var n := |ParseExclusions(raw)|;
    forall d | d in DefaultExclusions
      ensures !(d <= x)
    {
      var j :| 0 <= j < |DefaultExclusions| && DefaultExclusions[j] == d;
      assert excluded[n + j] == d;
    }
  }

  /** `set(ids)`. */
  function ToSet(ids: seq<string>): (s: set<string>)
    ensures forall x :: x in s <==> x in ids
  {
    set x | x in ids
  }

  /** An `on` entity of the `update` domain: a pending update. */
  predicate IsPendingUpdate(e: EntityState)
    ensures IsPendingUpdate(e) <==> e.state == "on" && (e.entityId == "update" || "update." <= e.entityId)
  {
    DomainIs(e.entityId, "update");
    Domain(e.entityId) == "update" && e.state == "on"
  }

  /** `[e.entity_id for e in states if e.entity_id.split(".")[0] == "update" and e.state == "on"]`. */
  function CurrentUpdates(states: seq<EntityState>): (ids: seq<string>)
    ensures |ids| <= |states|
    ensures forall k :: 0 <= k < |ids| ==> Domain(ids[k]) == "update"
  {
    if states == [] then []
    else
      var last := states[|states| - 1];
      CurrentUpdates(states[..|states| - 1]) + if IsPendingUpdate(last) then [last.entityId] else []
  }

  /** An id is current exactly when some entity with that id is a pending update. */
  lemma {:induction false} CurrentUpdatesMembers(states: seq<EntityState>, x: string)
    ensures x in CurrentUpdates(states) <==>
      exists i :: 0 <= i < |states| && IsPendingUpdate(states[i]) && states[i].entityId == x
  {
    if states != [] {
      var init := states[..|states| - 1];
      CurrentUpdatesMembers(init, x);
      assert forall i :: 0 <= i < |init| ==> init[i] == states[i];
    }
  }

  /** The current updates of a registry split in two are those of the first part followed by those of the second. */
  lemma {:induction false} CurrentUpdatesAppend(a: seq<EntityState>, b: seq<EntityState>)
    ensures CurrentUpdates(a + b) == CurrentUpdates(a) + CurrentUpdates(b)
  {
    if b != [] {
      assert (a + b)[..|a + b| - 1] == a + b[..|b| - 1];
      CurrentUpdatesAppend(a, b[..|b| - 1]);
    } else {
      assert a + b == a;
    }
  }

  /** `[uid for uid in current if uid not in last]`. */
  function NewUpdates(current: seq<string>, last: set<string>): (added: seq<string>)
    ensures |added| <= |current|
    ensures forall x :: x in added <==> x in current && x !in last
  {
    if current == [] then []
    else (if current[0] !in last then [current[0]] else []) + NewUpdates(current[1..], last)
  }

  /** The new updates keep the order of the current ones. */
  lemma {:induction false} NewUpdatesAppend(a: seq<string>, b: seq<string>, last: set<string>)
    ensures NewUpdates(a + b, last) == NewUpdates(a, last) + NewUpdates(b, last)
  {
    if a != [] {
      assert (a + b)[0] == a[0] && (a + b)[1..] == a[1..] + b;
      NewUpdatesAppend(a[1..], b, last);
    } else {
      assert a + b == b;
    }
  }

  /** Nothing is new exactly when every current update was already remembered. */
  lemma NothingNewIffRemembered(current: seq<string>, last: set<string>)
    ensures NewUpdates(current, last) == [] <==> ToSet(current) <= last
  {
    if NewUpdates(current, last) != [] {
      assert NewUpdates(current, last)[0] in NewUpdates(current, last);
    }
  }

  /** A second poll over the same registry finds nothing new. */
  lemma RepeatPollFindsNothing(states: seq<EntityState>)
    ensures var current := CurrentUpdates(states);
      NewUpdates(current, ToSet(current)) == []
  {
    var current := CurrentUpdates(states);
    NothingNewIffRemembered(current, ToSet(current));
  }

  /** An update missing at the previous poll is new again when it comes back. */
  lemma ReappearedUpdateIsNew(previous: seq<EntityState>, states: seq<EntityState>, i: nat)
    requires i < |states| && IsPendingUpdate(states[i])
    requires states[i].entityId !in CurrentUpdates(previous)
    ensures states[i].entityId in NewUpdates(CurrentUpdates(states), ToSet(CurrentUpdates(previous)))
  {
    CurrentUpdatesMembers(states, states[i].entityId);
  }
}
