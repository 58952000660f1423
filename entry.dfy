/** A value that may be absent, as a key that may be missing from a dictionary. */
module Wrappers {
  datatype Option<T> = None | Some(value: T)
}

/**
 * The integration's config entry: its `data` (written when the entry is
 * created) and its `options` (written by the options form), and how each
 * setting is read from them.
 */
module Entry {
  import opened Wrappers

  /**
   * The four keys the integration stores, each possibly absent. The form
   * schema fixes the type of each value.
   */
  datatype Settings = Settings(
    defaultFilters: Option<bool>,
    persistentNotifications: Option<bool>,
    excludedEntities: Option<string>,
    notifyService: Option<seq<string>>)

  /** An empty dictionary. */
  const NoSettings := Settings(None, None, None, None)

  datatype ConfigEntry = ConfigEntry(data: Settings, options: Settings)

  /** The settings the integration acts on, every key resolved. */
  datatype Resolved = Resolved(
    defaultFilters: bool,
    persistentNotifications: bool,
    excludedEntities: string,
    notifyService: seq<string>)

  /** The literal fallbacks written at every read of a setting. */
  const Literals := Resolved(true, true, "", [])

  /** `opts.get(key, data.get(key, literal))`. */
  function Lookup<T>(option: Option<T>, data: Option<T>, literal: T): (v: T)
    ensures option.Some? ==> v == option.value
    ensures option.None? && data.Some? ==> v == data.value
    ensures option.None? && data.None? ==> v == literal
  {
    match option
    case Some(o) => o
    case None => match data
      case Some(d) => d
      case None => literal
  }

  /** `v` is the options value when present, else the data value when present, else `literal`. */
  predicate Cascade<T(==)>(option: Option<T>, data: Option<T>, literal: T, v: T)
  {
    && (option.Some? ==> v == option.value)
    && (option.None? && data.Some? ==> v == data.value)
    && (option.None? && data.None? ==> v == literal)
  }

  /** Every setting of `entry`, resolved as the sensors and the options form read it. */
  function Resolve(entry: ConfigEntry): (r: Resolved)
    ensures var opts, data := entry.options, entry.data;
      && Cascade(opts.defaultFilters, data.defaultFilters, true, r.defaultFilters)
      && Cascade(opts.persistentNotifications, data.persistentNotifications, true, r.persistentNotifications)
      && Cascade(opts.excludedEntities, data.excludedEntities, "", r.excludedEntities)
      && Cascade(opts.notifyService, data.notifyService, [], r.notifyService)
  {
    var opts, data := entry.options, entry.data;
    Resolved(
      Lookup(opts.defaultFilters, data.defaultFilters, Literals.defaultFilters),
      Lookup(opts.persistentNotifications, data.persistentNotifications, Literals.persistentNotifications),
      Lookup(opts.excludedEntities, data.excludedEntities, Literals.excludedEntities),
      Lookup(opts.notifyService, data.notifyService, Literals.notifyService))
  }

  /** Every key present: the dictionary a complete options form submits. */
  function AsSettings(r: Resolved): (s: Settings)
  {
    Settings(Some(r.defaultFilters), Some(r.persistentNotifications), Some(r.excludedEntities), Some(r.notifyService))
  }

  /** Options that hold every key shadow the data completely. */
  lemma CompleteOptionsWin(data: Settings, r: Resolved)
    ensures Resolve(ConfigEntry(data, AsSettings(r))) == r
  {
  }
}
