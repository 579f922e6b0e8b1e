/**
 The configuration file's contents: a flat JSON object whose `token` entry is
 the bot credential and whose other entries map an alias to a recipient id.
 */
module ConfigFile {
  import opened Wrappers

  /** The JSON values an entry can hold. `Null` is JSON `null`, which Python
      reads back as `None`. */
  datatype Value = Null | Str(s: string) | Int(i: int)

  type Config = map<string, Value>

  /** The reserved key holding the bot credential. */
  const TokenKey: string := "token"

  /** Python's `config.get(key, None)`: a missing key and a `null` entry both read as `None`. */
  function PyGet(config: Config, key: string): (v: Value)
    ensures v != Null <==> Resolves(config, key)
    ensures Resolves(config, key) ==> v == config[key]
  {
    if key in config then config[key] else Null
  }

  /** `key` looks up to something other than `None`. */
  predicate Resolves(config: Config, key: string)
  {
    key in config && config[key] != Null
  }

  /** The configuration the collector starts from: what was loaded, or `{}`
      when loading raised. */
  function Existing(loaded: Option<Config>): Config
  {
    match loaded
    case Some(c) => c
    case None => map[]
  }

  /** The recipient ids the collector gathered, as the JSON integers `json.dump` writes. */
  function IdValues(pending: map<string, int>): (m: Config)
    ensures m.Keys == pending.Keys
    ensures forall a :: a in pending ==> m[a] == Int(pending[a])
  {
    map a | a in pending :: Int(pending[a])
  }

  /** The configuration `configure` writes: the loaded one (or `{}`), then
      `token` set to the new credential, then every collected alias on top,
      so an alias named `token` overrides the credential. */
  function Merge(loaded: Option<Config>, token: string, pending: map<string, int>): (r: Config)
    ensures r.Keys == Existing(loaded).Keys + {TokenKey} + pending.Keys
    ensures forall a :: a in pending ==> r[a] == Int(pending[a])
    ensures TokenKey !in pending ==> r[TokenKey] == Str(token)
    ensures forall k :: k in Existing(loaded) && k != TokenKey && k !in pending ==> r[k] == Existing(loaded)[k]
  {
    Existing(loaded) + map[TokenKey := Str(token)] + IdValues(pending)
  }
}
