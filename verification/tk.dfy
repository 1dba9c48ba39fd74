/** Store selection (`pyapps/trapper-keeper/trapper_keeper/tk.py`).

    `DbTypes` is a `StrEnum`, so a member compares equal to its lower-case
    name and `get_store` is a dispatch on that string. A store is described by
    the handle it would be opened with; opening it is `BoltKv.Open` or
    `KeepassStore.Open`. */
module Tk {
  import opened Wrappers
  import opened FileSystem

  datatype DbType = Bolt | Kp | Sqlite {
    /** The value `auto()` gives a `StrEnum` member. */
    function Value(): string {
      match this
        case Bolt => "bolt"
        case Kp => "kp"
        case Sqlite => "sqlite"
    }
  }

  /** The settings `get_store` reads. */
  datatype TkSettings = TkSettings(db: Path, token: Path, key: Path, chezmoiDb: Path)

  datatype Handle =
    | BoltHandle(path: Path, readonly: bool)
    | KeepassHandle(db: Path, token: Path, key: Option<Path>)

  /** A keyword argument: its name and its value. */
  type Kwargs = seq<(string, Path)>

  /** The parameters of `KeepassStore.__init__` and of `create_kp_db`. */
  const KeepassParams: seq<string> := ["fp_kp_db", "fp_token", "fp_key"]

  function Lookup(kwargs: Kwargs, name: string): (r: Option<Path>)
    ensures r.Some? <==> exists i :: 0 <= i < |kwargs| && kwargs[i].0 == name
    ensures r.Some? ==> (name, r.value) in kwargs
  {
    if |kwargs| == 0 then None
    else if kwargs[0].0 == name then Some(kwargs[0].1)
    else Lookup(kwargs[1..], name)
  }

  /** Python's binding of keyword arguments to `(fp_kp_db, fp_token,
      fp_key=None)`: an unknown name or a missing required one is a TypeError. */
  function BindKeepass(kwargs: Kwargs): (r: Result<Handle>)
    ensures r.Ok? <==>
      (forall i :: 0 <= i < |kwargs| ==> kwargs[i].0 in KeepassParams)
      && Lookup(kwargs, "fp_kp_db").Some? && Lookup(kwargs, "fp_token").Some?
    ensures r.Err? ==> r.error.TypeError?
    ensures r.Ok? ==>
      && r.value.KeepassHandle?
      && ("fp_kp_db", r.value.db) in kwargs && ("fp_token", r.value.token) in kwargs
      && (r.value.key.Some? <==> Lookup(kwargs, "fp_key").Some?)
  {
    if exists i :: 0 <= i < |kwargs| && kwargs[i].0 !in KeepassParams then
      Err(TypeError("unexpected keyword argument"))
    else match (Lookup(kwargs, "fp_kp_db"), Lookup(kwargs, "fp_token"))
      case (Some(db), Some(token)) => Ok(KeepassHandle(db, token, Lookup(kwargs, "fp_key")))
      case _ => Err(TypeError("missing required argument"))
  }

  /** The keyword arguments that describe a KeePass handle. */
  function KwargsOf(h: Handle): (r: Kwargs)
    requires h.KeepassHandle?
    ensures forall i :: 0 <= i < |r| ==> r[i].0 in KeepassParams
  {
    [("fp_kp_db", h.db), ("fp_token", h.token)] + (if h.key.Some? then [("fp_key", h.key.value)] else [])
  }

  /** Binding inverts `KwargsOf`. */
  lemma BindKwargsOf(h: Handle)
    requires h.KeepassHandle?
    ensures BindKeepass(KwargsOf(h)) == Ok(h)
  {
    var kw := KwargsOf(h);
    assert kw[0] == ("fp_kp_db", h.db) && kw[1] == ("fp_token", h.token);
    assert Lookup(kw, "fp_kp_db") == Some(h.db);
    assert Lookup(kw, "fp_token") == Some(h.token);
    if h.key.Some? {
      assert kw[2] == ("fp_key", h.key.value);
      assert Lookup(kw, "fp_key") == Some(h.key.value);
    } else {
      assert |kw| == 2;
      assert Lookup(kw, "fp_key") == None;
    }
  }

  /** `_get_tk_store` as written: `kp_fp`, `kp_key` and `kp_token` are not
      parameters of the constructor, so the call raises TypeError. */
  function TkStoreAsWritten(settings: TkSettings): (r: Result<Handle>)
    ensures r.Err? && r.error.TypeError?
  {
    BindKeepass([("kp_fp", settings.db), ("kp_key", settings.key), ("kp_token", settings.token)])
  }

  /** `_get_tk_store` with the constructor's own parameter names: the store on
      the db, token and key settings. */
  function TkStore(settings: TkSettings): (r: Result<Handle>)
    ensures r == Ok(KeepassHandle(settings.db, settings.token, Some(settings.key)))
  {
    var h := KeepassHandle(settings.db, settings.token, Some(settings.key));
    BindKwargsOf(h);
    BindKeepass(KwargsOf(h))
  }

  /** `_get_chezmoi_store(settings, readonly=True)`. */
  function ChezmoiStore(settings: TkSettings, readonly: bool): (r: Handle)
    ensures r.BoltHandle? && r.path == settings.chezmoiDb && r.readonly == readonly
  {
    BoltHandle(settings.chezmoiDb, readonly)
  }

  /** `get_store(settings, db_type)`. */
  function GetStore(settings: TkSettings, tag: string): (r: Result<Handle>)
    ensures r.Ok? <==> tag == Bolt.Value() || tag == Kp.Value()
    ensures r.Err? ==> r.error == ValueError("Unsupported db_type: " + tag)
    ensures tag == Bolt.Value() ==> r == Ok(BoltHandle(settings.chezmoiDb, true))
    ensures tag == Kp.Value() ==> r == Ok(KeepassHandle(settings.db, settings.token, Some(settings.key)))
  {
    if tag == Bolt.Value() then Ok(ChezmoiStore(settings, true))
    else if tag == Kp.Value() then TkStore(settings)
    else Err(ValueError("Unsupported db_type: " + tag))
  }

  /** Every bolt store `get_store` hands out is read-only. */
  lemma BoltStoresReadOnly(settings: TkSettings, tag: string)
    requires GetStore(settings, tag).Ok? && GetStore(settings, tag).value.BoltHandle?
    ensures GetStore(settings, tag).value.readonly
  {
  }

  /** SQLITE is a declared member that `get_store` does not support. */
  lemma SqliteUnsupported(settings: TkSettings)
    ensures GetStore(settings, Sqlite.Value()) == Err(ValueError("Unsupported db_type: sqlite"))
  {
  }
}
