/**
 * The sealed configuration store of an adapter: a map from config name to value
 * that accepts any name until it is sealed, and afterwards only names that were
 * already present.
 */
module ConfigStore {
  import opened Wrappers

  type Key = string

  /** The values a config entry can hold: a string, a number, a boolean, null or undefined. */
  datatype ConfigValue =
    | StringValue(s: string)
    | NumberValue(n: real)
    | BooleanValue(b: bool)
    | NullValue
    | UndefinedValue

  type Config = map<Key, ConfigValue>

  /** The error `setConfig` throws for a name that was not set before sealing. */
  datatype ConfigError = NotSetBeforeSealed(name: Key)

  /**
   * `getConfig(name)`: a written name reads back its value, and a name that was
   * never written reads as undefined, so a defined reading means the name is
   * present. Names inherited from `Object.prototype` are outside this model.
   */
  function Get(config: Config, name: Key): (v: ConfigValue)
    ensures name in config ==> v == config[name]
    ensures v != UndefinedValue ==> name in config
  {
    if name in config then config[name] else UndefinedValue
  }

  /**
   * `setConfig(name, value)` on a store in the given sealed state. It throws exactly
   * when the store is sealed and the name is new; otherwise the name reads back as
   * the value, every other name reads as before, and the key set grows by at most
   * that name.
   */
  function Set(config: Config, sealed: bool, name: Key, value: ConfigValue): (r: Result<Config, ConfigError>)
    ensures r.Failure? <==> sealed && name !in config
    ensures r.Failure? ==> r.error == NotSetBeforeSealed(name)
    ensures r.Success? ==> r.value.Keys == config.Keys + {name}
    ensures r.Success? ==> Get(r.value, name) == value
    ensures r.Success? ==> forall other :: other != name ==> Get(r.value, other) == Get(config, other)
  {
    if sealed && name !in config then Failure(NotSetBeforeSealed(name))
    else Success(config[name := value])
  }

  /** One `setConfig` call. */
  datatype Write = Write(name: Key, value: ConfigValue)

  /**
   * The store after a series of `setConfig` calls made in order, where a call that
   * throws is caught by its caller and leaves the store as it was.
   */
  function WriteAll(config: Config, sealed: bool, writes: seq<Write>): Config
    decreases |writes|
  {
    if writes == [] then config
    else
      var next := match Set(config, sealed, writes[0].name, writes[0].value)
        case Success(c) => c
        case Failure(_) => config;
      WriteAll(next, sealed, writes[1..])
  }

  /** Once sealed, no series of writes can add or remove a name. */
  lemma {:induction false} SealedKeySetIsFixed(config: Config, writes: seq<Write>)
    ensures WriteAll(config, true, writes).Keys == config.Keys
    decreases |writes|
  {
    if writes != [] {
      var next := match Set(config, true, writes[0].name, writes[0].value)
        case Success(c) => c
        case Failure(_) => config;
      SealedKeySetIsFixed(next, writes[1..]);
    }
  }

  /**
   * A name that was absent at seal time stays unwritable whatever was written
   * after sealing.
   */
  lemma SealedRejectsNewNames(config: Config, writes: seq<Write>, name: Key, value: ConfigValue)
    requires name !in config
    ensures Set(WriteAll(config, true, writes), true, name, value) == Failure(NotSetBeforeSealed(name))
  {
    SealedKeySetIsFixed(config, writes);
  }

  /**
   * For names that were present at seal time, sealing changes nothing: any number
   * of writes to them succeeds, and the store ends exactly as an unsealed store
   * given the same writes.
   */
  lemma {:induction false} SealedAcceptsExistingNames(config: Config, writes: seq<Write>)
    requires forall i :: 0 <= i < |writes| ==> writes[i].name in config
    ensures WriteAll(config, true, writes) == WriteAll(config, false, writes)
    decreases |writes|
  {
    if writes != [] {
      var w := writes[0];
      assert Set(config, true, w.name, w.value) == Set(config, false, w.name, w.value);
      var next := config[w.name := w.value];
      assert next.Keys == config.Keys;
      SealedAcceptsExistingNames(next, writes[1..]);
    }
  }

  /** Before sealing every write succeeds: the store ends holding every name written. */
  lemma {:induction false} UnsealedAcceptsAll(config: Config, writes: seq<Write>)
    ensures forall i :: 0 <= i < |writes| ==> writes[i].name in WriteAll(config, false, writes)
    ensures config.Keys <= WriteAll(config, false, writes).Keys
    decreases |writes|
  {
    if writes != [] {
      var next := config[writes[0].name := writes[0].value];
      UnsealedAcceptsAll(next, writes[1..]);
      forall i | 0 <= i < |writes|
        ensures writes[i].name in WriteAll(config, false, writes)
      {
        if i > 0 {
          assert writes[i] == writes[1..][i - 1];
        }
      }
    }
  }
}
