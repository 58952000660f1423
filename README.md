# useful_ha in Dafny

A model of the Home Assistant integration `useful_ha` ("Useful for HA").
The integration adds two polling sensors and an options form.

- **Unavailable-entities sensor.** Each poll walks the host's state registry.
  It keeps the lower-cased ids of the entities whose state is `unavailable`
  or `unknown`, leaving out:
  - the sensor itself;
  - the `persistent_notification.`, `button.` and `scene.` entities;
  - every id matched by an exclusion item.

  The exclusion items come from a comma-separated setting, stripped and
  lower-cased. When the default filters are on, a fixed default list follows
  them. The sensor's state is the number of ids kept, and its `entities`
  attribute is the list itself.
- **Pending-updates sensor.** Each poll collects the `update.*` entities that
  are `on`. When one of them was not present at the previous poll, it sends
  a persistent notification (when enabled) and a call to every configured
  `notify` service. It then remembers the current set. Its state is the
  number of pending updates, and its `updates_list` attribute is their ids.
- **Both sensors** do nothing until their readiness gate opens. They start
  in the text state `Initialisation` and show a filled icon exactly when the
  count is above zero.
- **Config flow.** A single instance is allowed. The entry is created at
  once with default data. The options form shows the resolved settings and
  the notify services to choose from: sorted, with the internal services
  hidden, and labelled with underscores turned into spaces and title case.
  Submitted options are stored as they are.

Every setting is read as "the options value if present, else the data value
if present, else a literal default".

The modules are:

- `PyStr`: the Python `str` operations the code relies on.
- `StrOrder`: Python's string order and `sorted`.
- `Entry`: the config entry and that fallback.
- `Filters`: the pure comprehensions of `sensor.py`.
- `Notify`: the service calls.
- `Sensor`: the two sensor classes. Their polls are methods over mutable
  fields. A ghost log records the service calls sent and the notify
  services whose call failed.
- `ConfigFlow`: the two flow steps, as functions returning a flow result.

The host's registry is an input sequence of `(entity_id, state)` pairs. The
service registry is a map from domain to its service names. The template
rendering is a function parameter. Whether a service call fails is a
nondeterministic choice.

## Model

| member | source | states |
|---|---|---|
| Entry.Lookup | config_flow.py:59-64 | A setting is the options value when present; otherwise the data value when present; otherwise the literal default |
| Entry.Resolve | config_flow.py:59-64 | Each of the four settings is its options value when present, else its data value when present, else its literal default (`True`, `True`, `""`, `[]`), as read at sensor.py:83-84 and 144-145 too |
| Entry.CompleteOptionsWin | config_flow.py:59-64 | Options holding every key decide every setting, whatever the data holds |
| PyStr.Lower | sensor.py:85 | `lower()` keeps the length, leaves no upper-case letter, and changes nothing but upper-case letters |
| PyStr.Strip | sensor.py:85 | `strip()` leaves no whitespace at either end, is never longer, and is empty exactly when the text is all whitespace |
| PyStr.StripPadded | sensor.py:85 | Stripping whitespace around a stripped text gives that text back |
| PyStr.Split | sensor.py:85 | `split(sep)` gives at least one part, no part holds the separator, and joining the parts with it gives the text back |
| PyStr.SplitJoin | sensor.py:85 | Splitting the join of separator-free parts gives those parts back |
| PyStr.SplitAround | sensor.py:85 | Text split at one separator splits as its left side followed by its right side |
| PyStr.Domain | sensor.py:97 | `eid.split(".")[0]` is a dot-free prefix of the id, followed in the id by a dot unless it is the whole id |
| PyStr.DomainIs | sensor.py:137 | The domain is a given dot-free name exactly when the id is that name or starts with the name and a dot |
| PyStr.Replace | config_flow.py:50 | `replace` keeps the length, turns every target character into the replacement, and keeps every other character |
| PyStr.Title | config_flow.py:50 | `title()` keeps the length and every uncased character; a letter becomes upper case exactly when the character before it is uncased |
| StrOrder.Leq | config_flow.py:51 | Python's `str` order, which `sorted` uses: a prefix comes no later than the text it begins |
| StrOrder.LeqFirstDifference | config_flow.py:51 | `a <= b` exactly when `a` is a prefix of `b`, or `a` has the smaller code point at the first position where they differ |
| StrOrder.Sort | config_flow.py:51 | `sorted` returns an ascending permutation of its input |
| StrOrder.SortIsUnique | config_flow.py:51 | Any ascending permutation of the input is the one `sorted` returns |
| Filters.CleanItems | sensor.py:85 | The comprehension yields at most one item per piece, and every item is non-empty, stripped and free of upper-case letters |
| Filters.ParseExclusions | sensor.py:85 | Every parsed exclusion item is non-empty, stripped, free of upper-case letters and free of commas |
| Filters.CleanItemsAvoid | sensor.py:85 | A non-letter found in no piece is found in no item |
| Filters.BlankPieceSkipped | sensor.py:85 | A piece yields no item exactly when it is all whitespace |
| Filters.CleanItemsAppend | sensor.py:85 | The items of consecutive pieces come in the pieces' order |
| Filters.ParseAroundComma | sensor.py:85 | The items of the text before a comma come before those of the text after it |
| Filters.CleanItemsOfClean | sensor.py:85 | Pieces already in item form are kept as they are |
| Filters.ParseJoined | sensor.py:85 | Items joined with commas parse back to the same items |
| Filters.ParseIdempotent | sensor.py:85 | Re-parsing the comma-joined items of any setting gives the same items |
| Filters.CleanItemsOfPadded | sensor.py:85 | Items each preceded by one space are parsed back to the items |
| Filters.ParseCommaSpaceJoined | sensor.py:85 | Items written out as `a, b, c` parse back to the items |
| Filters.Exclusions | sensor.py:83-88 | Every exclusion item is clean; an item is excluded exactly when the user wrote it or the defaults are on and it is a default |
| Filters.ExclusionsLayout | sensor.py:87-88 | The list is the user's items in their order, then exactly the default list when the defaults are on and nothing when they are off |
| Filters.MatchesItem | sensor.py:97 | The three-way match holds exactly when the item is a prefix of the id |
| Filters.BareItemMatchesLongerDomain | sensor.py:97 | A dot-free item also matches an id whose domain only begins with it |
| Filters.Counted | sensor.py:93-98 | An entity is kept exactly when its state is `unavailable` or `unknown`, its lower-cased id is not the sensor's own, starts with none of the three ignored prefixes, and matches no exclusion item by the three-way match |
| Filters.UnavailableIds | sensor.py:90-99 | No more ids than entities; every id is lower case, not the sensor's own, has no ignored prefix and starts with no exclusion item |
| Filters.UnavailableIdsMembers | sensor.py:90-99 | An id is listed exactly when an entity with that lower-cased id is unavailable or unknown and passes every filter |
| Filters.UnavailableIdsAppend | sensor.py:91-99 | The ids follow registry order: a registry split in two gives the ids of the first part, then those of the second |
| Filters.DefaultsHideTheirDomains | sensor.py:87-97 | With the default filters on, no listed id starts with a default item |
| Filters.ToSet | sensor.py:180 | `set(ids)` holds exactly the ids |
| Filters.IsPendingUpdate | sensor.py:137 | An entity is a pending update exactly when it is `on` and its id is `update` or starts with `update.` |
| Filters.CurrentUpdates | sensor.py:135-138 | Every current update id has the domain `update` |
| Filters.CurrentUpdatesMembers | sensor.py:135-138 | An id is current exactly when an entity with that id is in domain `update` and `on` |
| Filters.CurrentUpdatesAppend | sensor.py:135-138 | Current updates follow registry order |
| Filters.NewUpdates | sensor.py:141 | An id is new exactly when it is current and was not remembered |
| Filters.NewUpdatesAppend | sensor.py:141 | New updates keep the order of the current ones |
| Filters.NothingNewIffRemembered | sensor.py:141-143 | Nothing is new exactly when every current update is remembered |
| Filters.RepeatPollFindsNothing | sensor.py:135-182 | After a poll remembers the current updates, a poll over the same registry finds nothing new |
| Filters.ReappearedUpdateIsNew | sensor.py:135-182 | An update absent at the previous poll is new when it appears again |
| Notify.PersistentCall | sensor.py:154-161 | The persistent notification is `persistent_notification.create`, carries its fixed title and the rendered text followed by the link to the updates page, and has no `data` |
| Notify.NotifyCall | sensor.py:164-176 | A notify call is `notify.<service>`, carries its fixed title and the rendered text as it is, and has the fixed `data` |
| Notify.NotifyCalls | sensor.py:170-176 | One call per configured service, in the configured order |
| Notify.Notifications | sensor.py:154-178 | One call for the persistent notification when enabled, plus one per service |
| Notify.NotificationsLayout | sensor.py:154-178 | The persistent notification comes first and only when enabled; then every service's call, in order |
| Sensor.CollectUnavailable | sensor.py:90-99 | The loop builds exactly the list of unavailable ids |
| Sensor.UnavailableSensor.constructor | sensor.py:20-24 | A new sensor is in state `Initialisation`, with no attributes, and not ready |
| Sensor.UnavailableSensor.Icon | sensor.py:65-74 | The icon is `mdi:alert-circle` exactly when the state is a count above zero, else `mdi:alert-circle-outline` |
| Sensor.UnavailableSensor.EnableMonitoring | sensor.py:37-41 | Opening the gate makes the sensor ready and changes nothing else |
| Sensor.UnavailableSensor.Update | sensor.py:76-102 | Before the gate opens nothing changes. Afterwards the state is the count of the unavailable ids under the resolved exclusions, and `entities` is that list |
| Sensor.UpdateSensor.constructor | sensor.py:110-112 | A new sensor is in state `Initialisation`, not ready, remembers no update and has sent nothing |
| Sensor.UpdateSensor.Icon | sensor.py:118-127 | The icon is `mdi:package-up` exactly when the state is a count above zero, else `mdi:package-variant` |
| Sensor.UpdateSensor.EnableMonitoring | sensor.py:37-41 | Opening the gate makes the sensor ready and changes nothing else |
| Sensor.UpdateSensor.NotifyAll | sensor.py:163-178 | Every configured service is called once, in order, whatever fails; only those services can be logged as failed |
| Sensor.UpdateSensor.Dispatch | sensor.py:154-178 | All notifications are sent, unless the persistent notification fails: then only it was sent |
| Sensor.UpdateSensor.Update | sensor.py:129-182 | Before the gate opens nothing changes and nothing is sent. Otherwise calls go out only when some update is new, and they are exactly the notifications. The remembered set, state and `updates_list` become the current updates, unless the persistent notification failed; then nothing is stored |
| ConfigFlow.StepUser | config_flow.py:13-26 | The flow aborts with `single_instance_allowed` exactly when an entry exists. Otherwise, without input, it creates "Useful for HA" with every key present and resolving to the literal defaults |
| ConfigFlow.Label | config_flow.py:50 | A label has the service name's length and no underscore. Underscores become spaces and every other character keeps its letter |
| ConfigFlow.Visible | config_flow.py:52 | The hidden services are dropped and every other name is kept as often as it occurs |
| ConfigFlow.VisibleKeepsSorted | config_flow.py:51-52 | Dropping the hidden services keeps a sorted list sorted |
| ConfigFlow.OfferedServices | config_flow.py:51-52 | The offered names are sorted; each non-hidden name appears as often as in the registry, and no hidden name appears |
| ConfigFlow.OfferedServicesUnique | config_flow.py:51-52 | Any sorted list with those counts is the offered list |
| ConfigFlow.Options | config_flow.py:49-53 | One option per offered name, with that name as value and an underscore-free label |
| ConfigFlow.NotifyOptions | config_flow.py:46-53 | Empty without a `notify` domain. Otherwise the values ascend, come from the `notify` services, are never hidden, and are labelled by `Label` |
| ConfigFlow.NotifyOptionsComplete | config_flow.py:46-53 | Every visible `notify` service is offered |
| ConfigFlow.StepInit | config_flow.py:38-73 | Submitted options are stored verbatim under an empty title. Otherwise the `init` form shows the resolved settings, the notify options and the default list text |
| ConfigFlow.UnchangedFormKeepsSettings | config_flow.py:38-64 | Submitting the form as shown and storing it as the options leaves every setting unchanged |
| ConfigFlow.DefaultListParses | config_flow.py:8 | The default list text shown on the form parses, by the sensor's rule, to exactly the list the sensor appends |

## Left out

- The `__init__.py` setup, reload listener and unload. They are host plumbing with no logic of their own.
- `async_setup_entry` in `sensor.py`. It only constructs the two sensors and hands them to the host.
- The 30-second delay before monitoring starts, and the choice between starting at once and waiting for the host-started event. Only the effect is modelled (`EnableMonitoring`). The refresh the host schedules after it is left to the host.
- The message template and its rendering. They are the host's templating engine. Rendering is a function parameter, and a rendering failure is not modelled.
- The voluptuous schema, the select selector and the form's UI details. `StepInit` keeps only what the form shows: the resolved defaults, the notify options and the default list text.
- `device_info`, `unique_id`, names and units. They are fixed metadata for the host.
- Logging. A failed notify call only adds its service to the ghost `failedServices` log.
- The shared base class. It is written out in both sensor classes, because the model has no inheritance.
- Settings of the wrong type, such as a number where text is expected. The settings record fixes each key's type, as the form schema does.
- `PyStr.Lower`, `PyStr.Title`: only ASCII letters are cased. Python's Unicode case mappings are not modelled. `PyStr.Strip` uses Python's full whitespace set.
- The service registry's dictionary is a map from domain to a list of service names. Only the names are used, and only after sorting.
- Sensor.UpdateSensor.NotifyAll: the model does not say which calls fail, only that each failure logs a configured service. Failure is a free choice per call.
- Sensor.UpdateSensor.Update: a failing persistent notification is modelled as ending the poll. The model does not carry the exception any further.
