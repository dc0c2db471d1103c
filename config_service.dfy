/** The configuration cache: one shared `AppConfig` object, loaded from the
    store the first time it is asked for and replaced whenever a new
    configuration is saved. */
module ConfigService {
  import opened Results
  import opened Models

  /** The bucket object the configuration lives in. `blob` is the parsed
      document, or none when there is no object or it is not JSON; `writable`
      says whether the next upload succeeds. */
  class Store {
    var blob: Option<Json>
    var writable: bool

    constructor (blob0: Option<Json>, writable0: bool)
      ensures blob == blob0 && writable == writable0
    {
      blob := blob0;
      writable := writable0;
    }

    /** `load_config`: the stored document, or `{}` when it cannot be read. */
    method LoadConfig() returns (doc: Json)
      ensures doc == Loaded(blob)
    {
      doc := if blob.Some? then blob.value else JObj(map[]);
    }

    /** `save_config`: the document is stored, or the upload fails and the
        stored document stays as it was. */
    method SaveConfig(doc: Json) returns (ok: bool)
      modifies this
      ensures ok == old(writable) && writable == old(writable)
      ensures blob == if ok then Some(doc) else old(blob)
    {
      ok := writable;
      if ok {
        blob := Some(doc);
      }
    }
  }

  /** What `load_config` returns for a stored document. */
  function Loaded(blob: Option<Json>): Json {
    if blob.Some? then blob.value else JObj(map[])
  }

  /** The configuration a first load settles on: the stored one when it
      validates, the default otherwise. */
  function LoadedConfig(blob: Option<Json>): (c: ConfigData)
    ensures WellTyped(c)
  {
    DefaultIsValid();
    match Validate(Loaded(blob))
    case Some(c) => c
    case None => DefaultConfig
  }

  /** A missing or unreadable document yields the default configuration. */
  lemma MissingDocumentGivesDefault()
    ensures LoadedConfig(None) == DefaultConfig
  {
    DefaultIsValid();
  }

  /** A document saved by `save_app_config` loads as the same configuration. */
  lemma SavedDocumentLoads(c: ConfigData)
    requires WellTyped(c)
    ensures LoadedConfig(Some(Dump(c))) == c
  {
    DumpRoundTrip(c);
  }

  /** The save that `get_app_config` makes of the default failed. */
  datatype ConfigError = SaveFailed

  /** The module state of `config_service`: the cached configuration, if
      any, in front of the store. */
  class ConfigCache {
    var instance: AppConfig?
    const store: Store

    constructor (store0: Store)
      ensures instance == null && store == store0
    {
      instance := null;
      store := store0;
    }

    /** `get_app_config`: the cached object when there is one, without
        touching the store; otherwise the loaded configuration, or the
        default, which is cached before it is saved, so a failed save still
        leaves it cached. */
    method GetAppConfig() returns (r: Result<AppConfig, ConfigError>)
      modifies this, store
      ensures instance != null
      ensures old(instance) != null ==>
                instance == old(instance) && r == Ok(instance) && unchanged(store)
      ensures old(instance) == null ==>
                fresh(instance) && fresh(instance.onCallSchedule)
                && Snapshot(instance) == LoadedConfig(old(store.blob))
                && store.writable == old(store.writable)
      ensures old(instance) == null && Validate(Loaded(old(store.blob))).Some? ==>
                r == Ok(instance) && store.blob == old(store.blob)
      ensures old(instance) == null && Validate(Loaded(old(store.blob))).None? ==>
                (if old(store.writable)
                 then r == Ok(instance) && store.blob == Some(Dump(DefaultConfig))
                 else r == Err(SaveFailed) && store.blob == old(store.blob))
    {
      if instance == null {
        var doc := store.LoadConfig();
        var loaded := Validate(doc);
        if loaded.Some? {
          instance := new AppConfig(loaded.value);
        } else {
          instance := new AppConfig(DefaultConfig);
          var ok := store.SaveConfig(Dump(Snapshot(instance)));
          if !ok {
            return Err(SaveFailed);
          }
        }
      }
      return Ok(instance);
    }

    /** `save_app_config`: the configuration is written to the store first and
        becomes the cached object only when the write succeeds. */
    method SaveAppConfig(config: AppConfig) returns (r: Result<(), ConfigError>)
      modifies this, store
      ensures store.writable == old(store.writable)
      ensures old(store.writable) ==>
                r.Ok? && store.blob == Some(Dump(Snapshot(config))) && instance == config
      ensures !old(store.writable) ==>
                r == Err(SaveFailed) && store.blob == old(store.blob) && instance == old(instance)
    {
      var ok := store.SaveConfig(Dump(Snapshot(config)));
      if !ok {
        return Err(SaveFailed);
      }
      instance := config;
      return Ok(());
    }
  }

  /** A successful `save_app_config(c)` makes the next `get_app_config()`
      return `c`, and the store then holds what reads back as `c`. */
  method SaveThenGet(cache: ConfigCache, config: AppConfig) returns (r: Result<AppConfig, ConfigError>)
    requires cache.store.writable && WellTyped(Snapshot(config))
    modifies cache, cache.store
    ensures r == Ok(config)
    ensures LoadedConfig(cache.store.blob) == Snapshot(config)
  {
    var saved := cache.SaveAppConfig(config);
    r := cache.GetAppConfig();
    SavedDocumentLoads(Snapshot(config));
  }
}
