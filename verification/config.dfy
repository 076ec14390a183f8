/** `ConfigManager` (src/config/ConfigManager.cpp, ConfigManager.hpp): the
    settings object the whole application reads, and `load`, which fills it
    from a JSON configuration file. */
module Config {
  import opened Base
  import opened Codecs
  import opened Storage
  import Hex

  const MasterKeyBytes := 32
  const DefaultIterations := 100000

  /** The `db` member, when it is an object. */
  function DbObject(o: map<string, Json>): (r: Option<map<string, Json>>)
    ensures r.Some? <==> "db" in o && o["db"].JObject?
    ensures r.Some? ==> o["db"] == JObject(r.value)
  {
    if "db" in o && o["db"].JObject? then Some(o["db"].members) else None
  }

  /** The iteration count after reading `o`: a present `pbkdf2_iterations`
      that is a positive whole number is used, any other present value
      gives the default, and an absent one keeps `prior`. */
  function IterationsAfter(o: map<string, Json>, prior: int): (r: int)
    ensures "pbkdf2_iterations" !in o ==> r == prior
    ensures "pbkdf2_iterations" in o ==> r > 0
    ensures "pbkdf2_iterations" in o && IntOr(o, "pbkdf2_iterations", DefaultIterations) > 0
            ==> r == IntOr(o, "pbkdf2_iterations", DefaultIterations)
    ensures "pbkdf2_iterations" in o && !o["pbkdf2_iterations"].JNumber? ==> r == DefaultIterations
    ensures "pbkdf2_iterations" in o && IntOr(o, "pbkdf2_iterations", DefaultIterations) <= 0 ==> r == DefaultIterations
  {
    if "pbkdf2_iterations" in o then
      var v := IntOr(o, "pbkdf2_iterations", DefaultIterations);
      if v <= 0 then DefaultIterations else v
    else prior
  }

  /** The database settings `load` may replace. */
  datatype DbSettings = DbSettings(host: string, port: int, name: string, user: string, password: string)

  /** Everything `load` can change. */
  datatype Settings = Settings(master: Bytes, iterations: int, db: DbSettings)

  ghost predicate ValidSettings(s: Settings) {
    (|s.master| == 0 || |s.master| == MasterKeyBytes) && s.iterations > 0
  }

  /** The database settings after reading the `db` object `db`, each field
      with its fallback when absent or of the wrong type. */
  function DbFrom(db: map<string, Json>): (r: DbSettings)
    ensures r.host == if "host" in db && db["host"].JString? then db["host"].s else "localhost"
    ensures ("port" in db && db["port"].JNumber? && db["port"].n == db["port"].n.Floor as real
             && IntMin <= db["port"].n.Floor <= IntMax) ==> r.port == db["port"].n.Floor
    ensures !("port" in db && db["port"].JNumber?) ==> r.port == 5432
    ensures r.name == if "name" in db && db["name"].JString? then db["name"].s else "jumandgi"
    ensures r.user == if "user" in db && db["user"].JString? then db["user"].s else "jumandgi_user"
    ensures r.password == if "password" in db && db["password"].JString? then db["password"].s else "changeme"
  {
    DbSettings(StringOr(db, "host", "localhost"), IntOr(db, "port", 5432),
               StringOr(db, "name", "jumandgi"), StringOr(db, "user", "jumandgi_user"),
               StringOr(db, "password", "changeme"))
  }

  /** The result of `load` on a file with `contents` (`None` when it cannot
      be opened), starting from the settings `prior`; `LoadOutcomeSpec`
      states what it means. */
  function LoadOutcome(contents: Option<Bytes>, json: JsonText, prior: Settings): (bool, Settings)
  {
    match ObjectOf(contents, json)
    case None => (false, prior)
    case Some(o) =>
      var mk := StringOr(o, "master_key_hex", "");
      if mk == "" then (false, prior)
      else
        var db := if DbObject(o).Some? then DbFrom(DbObject(o).value) else prior.db;
        var key := Hex.Decode(mk);
        var ok := key.Some? && |key.value| == MasterKeyBytes;
        (ok, Settings(if ok then key.value else [], IterationsAfter(o, prior.iterations), db))
  }

  /** What `load` does to the settings: nothing when the file, the object
      or the key text is missing; otherwise the iteration count and the
      database settings are taken from the file and the key decides the
      verdict, a refused key being cleared. Valid settings stay valid. */
  lemma LoadOutcomeSpec(contents: Option<Bytes>, json: JsonText, prior: Settings)
    ensures var r := LoadOutcome(contents, json, prior);
      && (ValidSettings(prior) ==> ValidSettings(r.1))
      && (r.0 ==> |r.1.master| == MasterKeyBytes)
      // a key text is accepted only when it has exactly 64 digits
      && (r.0 ==> ObjectOf(contents, json).Some?
                  && |StringOr(ObjectOf(contents, json).value, "master_key_hex", "")| == 2 * MasterKeyBytes)
      && (ObjectOf(contents, json).None? ==> r == (false, prior))
      && (ObjectOf(contents, json).Some?
          && StringOr(ObjectOf(contents, json).value, "master_key_hex", "") == ""
          ==> r == (false, prior))
      && (ObjectOf(contents, json).Some?
          && StringOr(ObjectOf(contents, json).value, "master_key_hex", "") != ""
          ==> var o := ObjectOf(contents, json).value;
              var key := Hex.Decode(StringOr(o, "master_key_hex", ""));
              && (r.0 <==> key.Some? && |key.value| == MasterKeyBytes)
              && r.1.master == (if r.0 then key.value else [])
              && r.1.iterations == IterationsAfter(o, prior.iterations)
              && r.1.db == (if DbObject(o).Some? then DbFrom(DbObject(o).value) else prior.db))
  {
  }

  class ConfigManager {
    var master: Bytes
    var iterations: int
    var dbHost: string
    var dbPort: int
    var dbName: string
    var dbUser: string
    var dbPassword: string
    /** `m_storageRoot`; `storageRoot()` and `storagePath()` are declared but
        their definitions are not part of this model. */
    const storageRoot: string

    function Current(): Settings
      reads this
    {
      Settings(master, iterations, Db())
    }

    /** The master key is either absent or exactly 32 bytes, and the
        iteration count is positive. */
    ghost predicate Valid()
      reads this
    {
      ValidSettings(Current())
    }

    /** The defaults of the header: no master key, 100000 iterations and
        the built-in database settings. */
    constructor (storageRoot: string)
      ensures Valid()
      ensures Current() == Settings([], DefaultIterations,
                                    DbSettings("127.0.0.1", 5432, "edudesk", "edudesk", "edudesk_pass"))
      ensures this.storageRoot == storageRoot
    {
      master := [];
      iterations := DefaultIterations;
      dbHost := "127.0.0.1";
      dbPort := 5432;
      dbName := "edudesk";
      dbUser := "edudesk";
      dbPassword := "edudesk_pass";
      this.storageRoot := storageRoot;
    }

    function Db(): DbSettings
      reads this
    {
      DbSettings(dbHost, dbPort, dbName, dbUser, dbPassword)
    }

    /** The `pbkdf2_iterations` step of `load`. */
    method ReadIterations(o: map<string, Json>)
      modifies this`iterations
      ensures iterations == IterationsAfter(o, old(iterations))
    {
      if "pbkdf2_iterations" in o {
        iterations := IntOr(o, "pbkdf2_iterations", DefaultIterations);
        if iterations <= 0 {
          iterations := DefaultIterations;
        }
      }
    }

    /** The `db` step of `load`. */
    method ReadDb(o: map<string, Json>)
      modifies this`dbHost, this`dbPort, this`dbName, this`dbUser, this`dbPassword
      ensures Db() == if DbObject(o).Some? then DbFrom(DbObject(o).value) else old(Db())
    {
      if "db" in o && o["db"].JObject? {
        var db := o["db"].members;
        dbHost := StringOr(db, "host", "localhost");
        dbPort := IntOr(db, "port", 5432);
        dbName := StringOr(db, "name", "jumandgi");
        dbUser := StringOr(db, "user", "jumandgi_user");
        dbPassword := StringOr(db, "password", "changeme");
      }
    }

    /** `load(path)`: reads the file, gives up early on a missing file, a
        non-object or an empty key text, assigns the iteration count and the
        database settings, and only then decodes and checks the master key. */
    method Load(fs: FileStore, json: JsonText, path: string) returns (ok: bool)
      requires Valid()
      modifies this
      ensures Valid()
      ensures ok == LoadOutcome(fs.Read(path), json, old(Current())).0
      ensures Current() == LoadOutcome(fs.Read(path), json, old(Current())).1
    {
      ghost var prior := Current();
      LoadOutcomeSpec(fs.Read(path), json, prior);
      var data := fs.Read(path);
      if data.None? {
        return false;
      }
      var doc := json.parse(data.value);
      if !doc.JObject? {
        return false;
      }
      var o := doc.members;
      var mk := StringOr(o, "master_key_hex", "");
      if mk == "" {
        return false;
      }

      ReadIterations(o);
      ReadDb(o);

      master := Hex.HexToBytes(mk);
      ghost var key := Hex.Decode(mk);
      assert key.Some? ==> master == key.value;
      assert key.None? ==> master == [];
      if |master| != MasterKeyBytes {
        master := [];
        return false;
      }
      ok := true;
    }
  }

  /** A configuration whose `master_key_hex` is the `hexEncode` of a
      32-byte key loads, and the key it loads is that key. */
  lemma {:induction false} EncodedKeyLoads(key: Bytes, contents: Option<Bytes>, json: JsonText, prior: Settings)
    requires |key| == MasterKeyBytes
    requires ObjectOf(contents, json).Some?
    requires StringOr(ObjectOf(contents, json).value, "master_key_hex", "") == Hex.Encode(key)
    ensures LoadOutcome(contents, json, prior).0
    ensures LoadOutcome(contents, json, prior).1.master == key
  {
    Hex.DecodeEncode(key);
  }
}
