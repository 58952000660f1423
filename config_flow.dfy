/**
 * The integration's two forms: the user step that creates the single config
 * entry, and the options step that shows the current settings with the
 * notify services to choose from, or stores what was submitted.
 */
module ConfigFlow {
  import opened Wrappers
  import opened Entry
  import opened PyStr
  import opened StrOrder
  import Filters

  /** The default exclusion list as the options form shows it to the user. */
  const DefaultListStr := "sensor.backup, event, conversation, tts, update, person"

  const EntryTitle := "Useful for HA"
  const SingleInstanceAllowed := "single_instance_allowed"

  /** The data of a freshly created entry: every key present, at its literal default. */
  const DefaultData := Settings(Some(true), Some(true), Some(""), Some([]))

  /** The notify services the options form never offers. */
  const HiddenServices: seq<string> := ["persistent_notification", "notify", "send_message"]

  /** One choice of the notify-service selector. */
  datatype SelectOption = SelectOption(value: string, caption: string)

  /** What a flow step hands back to the host. */
  datatype FlowResult =
    | Abort(reason: string)
    | CreateEntry(title: string, data: Settings)
    | ShowForm(stepId: string, defaults: Resolved, notifyOptions: seq<SelectOption>, defaultList: string)
    /** The user step with input falls off its end and returns nothing. */
    | NoResult

  /**
   * `async_step_user`: a second instance is refused; otherwise, with no
   * input, the entry is created at once with the default data.
   */
  function StepUser(currentEntries: seq<ConfigEntry>, userInput: Option<Settings>): (r: FlowResult)
    ensures r.Abort? <==> currentEntries != []
    ensures r.Abort? ==> r.reason == SingleInstanceAllowed
    ensures r.CreateEntry? <==> currentEntries == [] && userInput.None?
    ensures r.CreateEntry? ==> r.title == EntryTitle && Resolve(ConfigEntry(r.data, NoSettings)) == Literals
    ensures r.CreateEntry? ==>
      && r.data.defaultFilters.Some? && r.data.persistentNotifications.Some?
      && r.data.excludedEntities.Some? && r.data.notifyService.Some?
    ensures r.NoResult? <==> currentEntries == [] && userInput.Some?
  {
    if currentEntries != [] then Abort(SingleInstanceAllowed)
    else if userInput.None? then CreateEntry(EntryTitle, DefaultData)
    else NoResult
  }

  /** `srv.replace("_", " ").title()`. */
  function Label(srv: string): (caption: string)
    ensures |caption| == |srv| && '_' !in caption
    ensures forall i :: 0 <= i < |srv| && srv[i] == '_' ==> caption[i] == ' '
    ensures forall i :: 0 <= i < |srv| && srv[i] != '_' ==> ToLower(caption[i]) == ToLower(srv[i])
  {
    var spaced := Replace(srv, '_', ' ');
    var caption := Title(spaced);
    assert forall i :: 0 <= i < |caption| ==> caption[i] != '_' by {
      forall i | 0 <= i < |caption|
        ensures caption[i] != '_'
      {
        if IsCased(spaced[i]) {
          assert ToLower(caption[i]) == ToLower(spaced[i]);
        }
      }
    }
    caption
  }

  /** The names that are not hidden, in their order. */
  function Visible(names: seq<string>): (shown: seq<string>)
    ensures forall k :: 0 <= k < |shown| ==> shown[k] in names && shown[k] !in HiddenServices
    ensures forall x :: multiset(shown)[x] == if x in HiddenServices then 0 else multiset(names)[x]
  {
    if names == [] then []
    else
      assert names == [names[0]] + names[1..];
      if names[0] in HiddenServices then Visible(names[1..])
      else [names[0]] + Visible(names[1..])
  }

  lemma {:induction false} VisibleKeepsSorted(names: seq<string>)
    requires Sorted(names)
    ensures Sorted(Visible(names))
  {
    if names != [] {
      assert Sorted(names[1..]);
      VisibleKeepsSorted(names[1..]);
      var rest := Visible(names[1..]);
      if names[0] !in HiddenServices {
        assert AllAtLeast(names[0], rest) by {
          forall k | 0 <= k < |rest|
            ensures Leq(names[0], rest[k])
          {
            var j :| 0 <= j < |names[1..]| && names[1..][j] == rest[k];
            assert names[j + 1] == rest[k];
          }
        }
        SortedCons(names[0], rest);
      }
    }
  }

  /** The service names offered: `sorted(...)` filtered of the hidden ones. */
  function OfferedServices(names: seq<string>): (offered: seq<string>)
    ensures Sorted(offered)
    ensures forall x :: multiset(offered)[x] == if x in HiddenServices then 0 else multiset(names)[x]
  {
    var sorted := Sort(names);
    VisibleKeepsSorted(sorted);
    Visible(sorted)
  }

  /**
   * The offered names are fixed by what they must be: any sorted list that
   * holds each visible name as often as the registry does is that list.
   */
  lemma OfferedServicesUnique(names: seq<string>, r: seq<string>)
    requires Sorted(r)
    requires forall x :: multiset(r)[x] == if x in HiddenServices then 0 else multiset(names)[x]
    ensures r == OfferedServices(names)
  {
    var offered := OfferedServices(names);
    assert forall x :: multiset(r)[x] == multiset(offered)[x];
    assert multiset(r) == multiset(offered);
    SortedUnique(r, offered);
  }

  /** One select option per offered name, labelled for display. */
  function Options(names: seq<string>): (options: seq<SelectOption>)
    ensures |options| == |names|
    ensures forall k :: 0 <= k < |names| ==> options[k].value == names[k] && '_' !in options[k].caption
  {
    seq(|names|, k requires 0 <= k < |names| => SelectOption(names[k], Label(names[k])))
  }

  /** `notify_options`, built from the service registry (domain to its services). */
  function NotifyOptions(services: map<string, seq<string>>): (options: seq<SelectOption>)
    ensures "notify" !in services ==> options == []
    ensures forall k :: 0 <= k < |options| ==>
      && "notify" in services && options[k].value in services["notify"]
      && options[k].value !in HiddenServices
      && options[k].caption == Label(options[k].value)
    ensures forall i, j :: 0 <= i < j < |options| ==> Leq(options[i].value, options[j].value)
  {
    if "notify" in services then
      var offered := OfferedServices(services["notify"]);
      var options := Options(offered);
      assert forall k :: 0 <= k < |offered| ==> offered[k] in multiset(services["notify"]);
      options
    else []
  }

  /** Every visible notify service of the registry is offered. */
  lemma NotifyOptionsComplete(services: map<string, seq<string>>, srv: string)
    requires "notify" in services && srv in services["notify"] && srv !in HiddenServices
    ensures exists k :: 0 <= k < |NotifyOptions(services)| && NotifyOptions(services)[k].value == srv
  {
    var offered := OfferedServices(services["notify"]);
    assert multiset(offered)[srv] == multiset(services["notify"])[srv] > 0;
    var k :| 0 <= k < |offered| && offered[k] == srv;
    assert NotifyOptions(services)[k].value == srv;
  }

  /**
   * `async_step_init` of the options flow: submitted options are stored as
   * they are; otherwise the form shows the resolved settings and the offered
   * notify services.
   */
  function StepInit(entry: ConfigEntry, userInput: Option<Settings>, services: map<string, seq<string>>): (r: FlowResult)
    ensures userInput.Some? ==> r == CreateEntry("", userInput.value)
    ensures userInput.None? ==>
      && r.ShowForm? && r.stepId == "init" && r.defaultList == DefaultListStr
      && r.defaults == Resolve(entry)
      && r.notifyOptions == NotifyOptions(services)
  {
    match userInput
    case Some(input) => CreateEntry("", input)
    case None => ShowForm("init", Resolve(entry), NotifyOptions(services), DefaultListStr)
  }

  /**
   * Submitting the form with every field at the value it shows, then
   * storing the result as the entry's options, leaves every setting as it was.
   */
  lemma UnchangedFormKeepsSettings(entry: ConfigEntry, services: map<string, seq<string>>)
    ensures var shown := StepInit(entry, None, services);
      var stored := StepInit(entry, Some(AsSettings(shown.defaults)), services);
      Resolve(ConfigEntry(entry.data, stored.data)) == Resolve(entry)
  {
    CompleteOptionsWin(entry.data, Resolve(entry));
  }

  /** The pieces `DefaultListStr` splits into on commas. */
  const DefaultPieces: seq<string> := ["sensor.backup", " event", " conversation", " tts", " update", " person"]

  lemma DefaultPiecesArePadded()
    ensures DefaultPieces == [Filters.DefaultExclusions[0]] + Filters.Padded(Filters.DefaultExclusions[1..])
  {
    var tail := Filters.Padded(Filters.DefaultExclusions[1..]);
    assert tail[0] == " event" && tail[1] == " conversation" && tail[2] == " tts";
    assert tail[3] == " update" && tail[4] == " person";
  }

  /** `DefaultListStr` spelled out one separator at a time. */
  lemma DefaultListSpelled()
    ensures "sensor.backup" + "," + " event" == "sensor.backup, event"
    ensures "sensor.backup, event" + "," + " conversation" == "sensor.backup, event, conversation"
    ensures "sensor.backup, event, conversation" + "," + " tts" == "sensor.backup, event, conversation, tts"
    ensures "sensor.backup, event, conversation, tts" + "," + " update"
      == "sensor.backup, event, conversation, tts, update"
    ensures "sensor.backup, event, conversation, tts, update" + "," + " person" == DefaultListStr
  {
  }

  lemma JoinDefaultPieces()
    ensures Join(DefaultPieces, ',') == DefaultListStr
  {
    var p := DefaultPieces;
    DefaultListSpelled();
    assert p[..1] + [p[1]] == p[..2] && p[..2] + [p[2]] == p[..3] && p[..3] + [p[3]] == p[..4];
    assert p[..4] + [p[4]] == p[..5] && p[..5] + [p[5]] == p;
    JoinSnoc(p[..1], p[1], ',');
    JoinSnoc(p[..2], p[2], ',');
    JoinSnoc(p[..3], p[3], ',');
    JoinSnoc(p[..4], p[4], ',');
    JoinSnoc(p[..5], p[5], ',');
  }

  /** The list shown on the form parses, by the sensor's rule, to the list the sensor appends. */
  lemma DefaultListParses()
    ensures Filters.ParseExclusions(DefaultListStr) == Filters.DefaultExclusions
  {
    Filters.DefaultsAreClean();
    DefaultPiecesArePadded();
    JoinDefaultPieces();
    Filters.ParseCommaSpaceJoined(Filters.DefaultExclusions);
  }
}
