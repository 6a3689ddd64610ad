/**
 * The settings cache of js/utils/dateUtils.js (`getCachedSettings`): the
 * first call loads the three settings from storage and registers two
 * listeners that later overwrite fields of the cached object in place, one
 * for `chrome.storage.onChanged` deltas and one for the page's custom
 * `settingsChanged` event. The two listeners decide differently whether a
 * delivered value is applied: a storage delta is applied whenever its key is
 * present, an event value only when it is truthy (`useUtcTime`: whenever it
 * is not undefined).
 *
 * The storage read is a parameter (the record it delivers); the listeners
 * are methods the browser calls.
 */
module SettingsCache {
  /** The JavaScript values a setting or an event detail can hold (no NaN, no functions). */
  datatype JsValue =
    | Undefined
    | Null
    | Bool(b: bool)
    | Number(n: int)
    | Str(s: string)
    | Object(fields: map<string, JsValue>)

  /** JavaScript truthiness. */
  predicate Truthy(v: JsValue) {
    match v
    case Undefined => false
    case Null => false
    case Bool(b) => b
    case Number(n) => n != 0
    case Str(s) => s != ""
    case Object(_) => true
  }

  /** `v[key]`: a missing property, or a property of a primitive, reads as undefined. */
  function Get(v: JsValue, key: string): JsValue {
    if v.Object? && key in v.fields then v.fields[key] else Undefined
  }

  /** One entry of the `changes` argument of `chrome.storage.onChanged`; a removed key has no newValue. */
  datatype StorageChange = StorageChange(oldValue: JsValue, newValue: JsValue)

  /** The three settings the cache holds. */
  datatype Settings = Settings(dateFormat: JsValue, timestampFormat: JsValue, useUtcTime: JsValue)

  /** What `getDateSettings` delivers when nothing has been stored yet. */
  const DefaultSettings: Settings := Settings(Str("default"), Str("seconds"), Bool(false))

  /** The storage listener of lines 30-44, as a function of the cached settings. */
  function StorageDelta(s: Settings, changes: map<string, StorageChange>, areaName: string): Settings {
    if areaName != "sync" then s
    else if "dateFormat" in changes || "timestampFormat" in changes || "useUtcTime" in changes then
      var s1 := if "dateFormat" in changes then s.(dateFormat := changes["dateFormat"].newValue) else s;
      var s2 := if "timestampFormat" in changes then s1.(timestampFormat := changes["timestampFormat"].newValue) else s1;
      if "useUtcTime" in changes then s2.(useUtcTime := changes["useUtcTime"].newValue) else s2
    else s
  }

  /** The `settingsChanged` listener of lines 47-59, as a function of the cached settings. */
  function EventDelta(s: Settings, detail: JsValue): Settings {
    if !Truthy(detail) then s
    else
      var s1 := if Truthy(Get(detail, "dateFormat")) then s.(dateFormat := Get(detail, "dateFormat")) else s;
      var s2 := if Truthy(Get(detail, "timestampFormat")) then s1.(timestampFormat := Get(detail, "timestampFormat")) else s1;
      if Get(detail, "useUtcTime") != Undefined then s2.(useUtcTime := Get(detail, "useUtcTime")) else s2
  }

  /** Deltas for another storage area ('local', 'managed', 'session') are ignored. */
  lemma OtherAreasIgnored(s: Settings, changes: map<string, StorageChange>, areaName: string)
    requires areaName != "sync"
    ensures StorageDelta(s, changes, areaName) == s
  {
  }

  /**
   * A sync delta sets each setting whose key it carries to the new value,
   * whatever that value is (undefined for a removed key, or a falsy value),
   * and leaves the others alone.
   */
  lemma StorageDeltaPerKey(s: Settings, changes: map<string, StorageChange>)
    ensures var r := StorageDelta(s, changes, "sync");
            r.dateFormat == (if "dateFormat" in changes then changes["dateFormat"].newValue else s.dateFormat)
            && r.timestampFormat == (if "timestampFormat" in changes then changes["timestampFormat"].newValue else s.timestampFormat)
            && r.useUtcTime == (if "useUtcTime" in changes then changes["useUtcTime"].newValue else s.useUtcTime)
  {
  }

  /** Delivering the same storage delta twice leaves the cache as delivering it once. */
  lemma StorageDeltaIdempotent(s: Settings, changes: map<string, StorageChange>, areaName: string)
    ensures StorageDelta(StorageDelta(s, changes, areaName), changes, areaName) == StorageDelta(s, changes, areaName)
  {
  }

  /**
   * The event listener sets the date and timestamp formats only to truthy
   * values, and `useUtcTime` to anything but undefined (so `false` and `null`
   * are applied); a falsy detail, or one that is not an object, changes nothing.
   */
  lemma EventDeltaPerKey(s: Settings, detail: JsValue)
    ensures var r := EventDelta(s, detail);
            r.dateFormat == (if Truthy(detail) && Truthy(Get(detail, "dateFormat")) then Get(detail, "dateFormat") else s.dateFormat)
            && r.timestampFormat == (if Truthy(detail) && Truthy(Get(detail, "timestampFormat")) then Get(detail, "timestampFormat") else s.timestampFormat)
            && r.useUtcTime == (if Truthy(detail) && Get(detail, "useUtcTime") != Undefined then Get(detail, "useUtcTime") else s.useUtcTime)
    ensures !detail.Object? ==> EventDelta(s, detail) == s
  {
  }

  /** Delivering the same event twice leaves the cache as delivering it once. */
  lemma EventDeltaIdempotent(s: Settings, detail: JsValue)
    ensures EventDelta(EventDelta(s, detail), detail) == EventDelta(s, detail)
  {
  }

  /**
   * The two listeners disagree on an empty format: a sync delta clearing the
   * date format to "" is applied, the same value in a settingsChanged event
   * is not. Both apply `useUtcTime: false`.
   */
  lemma EmptyFormatOnlyFromStorage(s: Settings)
    requires s.dateFormat != Str("")
    ensures StorageDelta(s, map["dateFormat" := StorageChange(s.dateFormat, Str(""))], "sync").dateFormat == Str("")
    ensures EventDelta(s, Object(map["dateFormat" := Str("")])).dateFormat == s.dateFormat
    ensures StorageDelta(s, map["useUtcTime" := StorageChange(s.useUtcTime, Bool(false))], "sync").useUtcTime == Bool(false)
    ensures EventDelta(s, Object(map["useUtcTime" := Bool(false)])).useUtcTime == Bool(false)
  {
    var d := Object(map["dateFormat" := Str("")]);
    assert Get(d, "dateFormat") == Str("");
    assert Get(d, "timestampFormat") == Undefined;
    assert Get(d, "useUtcTime") == Undefined;
    var u := Object(map["useUtcTime" := Bool(false)]);
    assert Get(u, "useUtcTime") == Bool(false);
  }

  /** A removed key (no newValue) leaves the setting undefined rather than restoring its default. */
  lemma RemovedKeyBecomesUndefined(s: Settings, oldValue: JsValue)
    ensures StorageDelta(s, map["timestampFormat" := StorageChange(oldValue, Undefined)], "sync").timestampFormat
            == Undefined
  {
  }

  /** The object `cachedSettings` refers to; the listeners overwrite its fields in place. */
  class SettingsObject {
    var dateFormat: JsValue
    var timestampFormat: JsValue
    var useUtcTime: JsValue

    function Value(): Settings
      reads this
    {
      Settings(dateFormat, timestampFormat, useUtcTime)
    }

    constructor (s: Settings)
      ensures Value() == s
    {
      dateFormat := s.dateFormat;
      timestampFormat := s.timestampFormat;
      useUtcTime := s.useUtcTime;
    }

    /** The body of the storage listener. */
    method ApplyStorageChange(changes: map<string, StorageChange>, areaName: string)
      modifies this
      ensures Value() == StorageDelta(old(Value()), changes, areaName)
    {
      if areaName != "sync" {
        return;
      }
      if "dateFormat" in changes || "timestampFormat" in changes || "useUtcTime" in changes {
        if "dateFormat" in changes {
          dateFormat := changes["dateFormat"].newValue;
        }
        if "timestampFormat" in changes {
          timestampFormat := changes["timestampFormat"].newValue;
        }
        if "useUtcTime" in changes {
          useUtcTime := changes["useUtcTime"].newValue;
        }
      }
    }

    /** The body of the settingsChanged listener. */
    method ApplySettingsEvent(detail: JsValue)
      modifies this
      ensures Value() == EventDelta(old(Value()), detail)
    {
      if Truthy(detail) {
        if Truthy(Get(detail, "dateFormat")) {
          dateFormat := Get(detail, "dateFormat");
        }
        if Truthy(Get(detail, "timestampFormat")) {
          timestampFormat := Get(detail, "timestampFormat");
        }
        if Get(detail, "useUtcTime") != Undefined {
          useUtcTime := Get(detail, "useUtcTime");
        }
      }
    }
  }

  /**
   * The module state: `cachedSettings` (null until the first load) and the
   * number of storage/event listener pairs registered so far.
   */
  class Cache {
    var cached: SettingsObject?
    var listenerPairs: nat

    /** The listeners exist exactly once the settings are loaded, and only one pair. */
    predicate Valid()
      reads this
    {
      listenerPairs == if cached == null then 0 else 1
    }

    constructor ()
      ensures cached == null && listenerPairs == 0 && Valid()
    {
      cached := null;
      listenerPairs := 0;
    }

    /**
     * `getCachedSettings()`, with `loaded` the record storage delivers:
     * loads and registers the listeners on the first call only; every call
     * returns the one cached object, so callers see later updates.
     */
    method GetCachedSettings(loaded: Settings) returns (r: SettingsObject)
      requires Valid()
      modifies this
      ensures Valid() && cached == r
      ensures old(cached) != null ==> r == old(cached) && listenerPairs == old(listenerPairs)
      ensures old(cached) == null ==> fresh(r) && r.Value() == loaded && listenerPairs == 1
      ensures r.Value() == if old(cached) == null then loaded else old(cached.Value())
    {
      if cached == null {
        cached := new SettingsObject(loaded);
        listenerPairs := listenerPairs + 1;
      }
      r := cached;
    }

    /** A `chrome.storage.onChanged` notification; before the first load no listener hears it. */
    method OnStorageChanged(changes: map<string, StorageChange>, areaName: string)
      requires Valid()
      modifies cached
      ensures Valid()
      ensures cached != null ==> cached.Value() == StorageDelta(old(cached.Value()), changes, areaName)
    {
      if cached != null {
        cached.ApplyStorageChange(changes, areaName);
      }
    }

    /** A `settingsChanged` event on the document; before the first load no listener hears it. */
    method OnSettingsChanged(detail: JsValue)
      requires Valid()
      modifies cached
      ensures Valid()
      ensures cached != null ==> cached.Value() == EventDelta(old(cached.Value()), detail)
    {
      if cached != null {
        cached.ApplySettingsEvent(detail);
      }
    }
  }

  /** Two calls: the second returns the object of the first, with the update made in between. */
  method LoadUpdateReload(cache: Cache, loaded: Settings, detail: JsValue, later: Settings)
      returns (first: SettingsObject, second: SettingsObject)
    requires cache.Valid() && cache.cached == null
    modifies cache
    ensures first == second && cache.listenerPairs == 1
    ensures second.Value() == EventDelta(loaded, detail)
  {
    first := cache.GetCachedSettings(loaded);
    cache.OnSettingsChanged(detail);
    second := cache.GetCachedSettings(later);
  }
}
