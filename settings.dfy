/** The JSON-backed settings stores: the flat store (`key -> value`) and the
    two-level parameter store (`parameter -> key -> value`). Each store keeps
    its mapping in memory and writes the whole of it to `<directory>/<name>.json`
    after every change; the stores of the user 'default' refuse changes. */
module Settings {
  import opened Common
  import opened Disk

  /** The privileged template user whose settings are read-only. */
  const DefaultUser := "default"

  function FileName(name: string): string
  {
    name + ".json"
  }

  /** Different stores have different files. */
  lemma FileNameInjective(a: string, b: string)
    ensures FileName(a) == FileName(b) ==> a == b
  {
    assert FileName(a)[..|a|] == a && FileName(b)[..|b|] == b;
  }

  /** `self.user == 'default'` */
  predicate IsDefault(user: Option<string>)
  {
    user == Some(DefaultUser)
  }

  /** The top-level JSON object of a store's file; a missing file reads as `{}`
      (the store creates it), anything but a JSON object fails to load. */
  function LoadDocument(f: Folder, dir: Path, name: string): Option<map<string, Value>>
  {
    match ReadFile(f, dir, FileName(name))
    case None => Some(map[])
    case Some(JsonFile(Dict(m))) => Some(m)
    case Some(_) => None
  }

  /** The disk after a store is opened: a missing file is created holding `{}`. */
  function OpenedDisk(f: Folder, dir: Path, name: string): Folder
  {
    if ReadFile(f, dir, FileName(name)).None? then WriteFile(f, dir, FileName(name), JsonFile(Dict(map[])))
    else f
  }

  /** Number of writes opening a store does. */
  function OpenWrites(f: Folder, dir: Path, name: string): nat
  {
    if ReadFile(f, dir, FileName(name)).None? then 1 else 0
  }

  /** `self.data.get(par, {})` of a parameter store. */
  function Params(data: map<string, map<string, Value>>, par: string): map<string, Value>
  {
    if par in data then data[par] else map[]
  }

  /** The document of a parameter store: every parameter is a JSON object. */
  function ParameterDocument(data: map<string, map<string, Value>>): Value
  {
    Dict(map p | p in data :: Dict(data[p]))
  }

  /** A parameter store loads only if every top-level value is a JSON object
      (the source walks each one with `.items()` while loading). */
  function LoadParameters(f: Folder, dir: Path, name: string): Option<map<string, map<string, Value>>>
  {
    match LoadDocument(f, dir, name)
    case None => None
    case Some(m) =>
      if forall p :: p in m ==> m[p].Dict? then Some(map p | p in m :: m[p].entries) else None
  }

  /** Loading a parameter store's file gives back the mapping it holds. */
  lemma LoadParametersDocument(f: Folder, dir: Path, name: string)
    requires LoadParameters(f, dir, name).Some?
    ensures ReadFile(f, dir, FileName(name)).Some? ==>
              ReadFile(f, dir, FileName(name)) == Some(JsonFile(ParameterDocument(LoadParameters(f, dir, name).value)))
  {
    if ReadFile(f, dir, FileName(name)).Some? {
      var m := LoadDocument(f, dir, name).value;
      assert ParameterDocument(LoadParameters(f, dir, name).value).entries == m;
    }
  }

  /** What a parameter store saves is what it loads again when reopened. */
  lemma {:induction false} ParameterRoundTrip(f: Folder, dir: Path, name: string, data: map<string, map<string, Value>>)
    requires ReadFile(f, dir, FileName(name)) == Some(JsonFile(ParameterDocument(data)))
    ensures LoadParameters(f, dir, name) == Some(data)
  {
    var m := LoadDocument(f, dir, name).value;
    assert forall p :: p in m ==> m[p].Dict?;
    var back := map p | p in m :: m[p].entries;
    assert back.Keys == data.Keys;
    assert back == data;
  }

  /** Flat settings store (`UserSettings`): `key -> value`. */
  class UserSettings {
    const fs: FileSystem
    const directory: Path
    const name: string
    const user: Option<string>
    var data: map<string, Value>

    /** The store's file holds exactly the in-memory mapping. */
    ghost predicate Saved()
      reads this, fs
    {
      ReadFile(fs.root, directory, FileName(name)) == Some(JsonFile(Dict(data)))
    }

    /** One write happened: the store's file now holds the current mapping, the rest of the disk is as before. */
    twostate predicate SavedNow()
      reads this, fs
    {
      fs.root == WriteFile(old(fs.root), directory, FileName(name), JsonFile(Dict(data)))
      && fs.writes == old(fs.writes) + 1
    }

    /** Opens the store: creates the file holding `{}` when missing, then loads it. */
    constructor (fs: FileSystem, directory: Path, name: string, user: Option<string>)
      requires LoadDocument(fs.root, directory, name).Some?
      modifies fs
      ensures this.fs == fs && this.directory == directory && this.name == name && this.user == user
      ensures data == LoadDocument(old(fs.root), directory, name).value
      ensures fs.root == OpenedDisk(old(fs.root), directory, name)
      ensures fs.writes == old(fs.writes) + OpenWrites(old(fs.root), directory, name)
      ensures Saved()
    {
      this.fs := fs;
      this.directory := directory;
      this.name := name;
      this.user := user;
      data := map[];
      new;
      if ReadFile(fs.root, directory, FileName(name)).None? {
        Save();
      }
      data := LoadDocument(fs.root, directory, name).value;
    }

    /** Writes the whole mapping to the store's file. */
    method Save()
      modifies fs
      ensures SavedNow() && Saved()
    {
      fs.Write(directory, FileName(name), JsonFile(Dict(data)));
    }

    /** `get(key, if_missing)`; reading is allowed for every user. */
    function Get(key: string, ifMissing: Value): Value
      reads this
    {
      if key in data then data[key] else ifMissing
    }

    function GetKeys(): set<string>
      reads this
    {
      data.Keys
    }

    function GetSettings(): map<string, Value>
      reads this
    {
      data
    }

    /** `setdefault(key, value)`: refused for the default user; a key holding a
        truthy value is returned untouched and nothing is written; otherwise
        the stored value (a falsy one kept, a missing one set to `value`) is
        returned and the mapping saved. */
    method SetDefault(key: string, value: Value, save: bool) returns (r: Result<Value>)
      modifies this, fs
      ensures IsDefault(user) ==> r == Err(DefaultUserImmutable) && data == old(data) && DiskUnchanged(fs)
      ensures !IsDefault(user) && key in old(data) ==> r == Ok(old(data)[key]) && data == old(data)
      ensures !IsDefault(user) && key !in old(data) ==> r == Ok(value) && data == old(data)[key := value]
      ensures !IsDefault(user) && key in old(data) && Truthy(old(data)[key]) ==> DiskUnchanged(fs)
      ensures !IsDefault(user) && !(key in old(data) && Truthy(old(data)[key])) ==>
                if save then SavedNow() && Saved() else DiskUnchanged(fs)
    {
      if IsDefault(user) {
        return Err(DefaultUserImmutable);
      }
      if key in data && Truthy(data[key]) {
        return Ok(data[key]);
      }
      if key !in data {
        data := data[key := value];
      }
      r := Ok(data[key]);
      if save {
        Save();
      }
    }

    /** `set(key, value)`: silently ignored for the default user. */
    method Set(key: string, value: Value, save: bool)
      modifies this, fs
      ensures IsDefault(user) ==> data == old(data) && DiskUnchanged(fs)
      ensures !IsDefault(user) ==> data == old(data)[key := value]
      ensures !IsDefault(user) ==> if save then SavedNow() && Saved() else DiskUnchanged(fs)
    {
      if IsDefault(user) {
        return;
      }
      data := data[key := value];
      if save {
        Save();
      }
    }

    /** `remove(key)`: deletes one key and saves; nothing happens (and nothing
        is written) for the default user or an absent key. */
    method Remove(key: string)
      modifies this, fs
      ensures IsDefault(user) || key !in old(data) ==> data == old(data) && DiskUnchanged(fs)
      ensures !IsDefault(user) && key in old(data) ==> data == old(data) - {key} && SavedNow() && Saved()
    {
      if IsDefault(user) {
        return;
      }
      if key in data {
        data := data - {key};
        Save();
      }
    }

    /** `reset()`: empties the store and saves; ignored for the default user. */
    method Reset()
      modifies this, fs
      ensures IsDefault(user) ==> data == old(data) && DiskUnchanged(fs)
      ensures !IsDefault(user) ==> data == map[] && SavedNow() && Saved()
    {
      if IsDefault(user) {
        return;
      }
      data := map[];
      Save();
    }
  }

  /** Two-level settings store (`UserSettingsParameter`): `par -> key -> value`. */
  class UserSettingsParameter {
    const fs: FileSystem
    const directory: Path
    const name: string
    const user: Option<string>
    var data: map<string, map<string, Value>>

    ghost predicate Saved()
      reads this, fs
    {
      ReadFile(fs.root, directory, FileName(name)) == Some(JsonFile(ParameterDocument(data)))
    }

    twostate predicate SavedNow()
      reads this, fs
    {
      fs.root == WriteFile(old(fs.root), directory, FileName(name), JsonFile(ParameterDocument(data)))
      && fs.writes == old(fs.writes) + 1
    }

    constructor (fs: FileSystem, directory: Path, name: string, user: Option<string>)
      requires LoadParameters(fs.root, directory, name).Some?
      modifies fs
      ensures this.fs == fs && this.directory == directory && this.name == name && this.user == user
      ensures data == LoadParameters(old(fs.root), directory, name).value
      ensures fs.root == OpenedDisk(old(fs.root), directory, name)
      ensures fs.writes == old(fs.writes) + OpenWrites(old(fs.root), directory, name)
      ensures Saved()
    {
      this.fs := fs;
      this.directory := directory;
      this.name := name;
      this.user := user;
      data := map[];
      new;
      if ReadFile(fs.root, directory, FileName(name)).None? {
        assert ParameterDocument(data) == Dict(map[]);
        Save();
      }
      LoadParametersDocument(fs.root, directory, name);
      data := LoadParameters(fs.root, directory, name).value;
    }

    method Save()
      modifies fs
      ensures SavedNow() && Saved()
    {
      fs.Write(directory, FileName(name), JsonFile(ParameterDocument(data)));
    }

    /** `get(par, key)`: `None` when the parameter or the key is missing. */
    function Get(par: string, key: string): Value
      reads this
    {
      var entries := Params(data, par);
      if key in entries then entries[key] else Null
    }

    /** `get_settings(par)`: one parameter's mapping (`{}` when missing), or the
        whole store when `par` is not given or is the empty (falsy) string. */
    function GetSettings(par: Option<string>): (r: Value)
      reads this
    {
      if par.Some? && par.value != "" then Dict(Params(data, par.value)) else ParameterDocument(data)
    }

    /** `setdefault(par, key, value)`: ignored (returning `None`) for the default
        user; otherwise creates `par` on demand, keeps an existing value under
        `key` or stores `value`, saves, and returns what is stored. */
    method SetDefault(par: string, key: string, value: Value, save: bool) returns (r: Value)
      modifies this, fs
      ensures IsDefault(user) ==> r == Null && data == old(data) && DiskUnchanged(fs)
      ensures !IsDefault(user) ==>
                && r == (if key in Params(old(data), par) then Params(old(data), par)[key] else value)
                && data == old(data)[par := Params(old(data), par)[key := r]]
                && Get(par, key) == r
                && (if save then SavedNow() && Saved() else DiskUnchanged(fs))
    {
      if IsDefault(user) {
        return Null;
      }
      var entries := Params(data, par);
      r := if key in entries then entries[key] else value;
      data := data[par := entries[key := r]];
      if save {
        Save();
      }
    }

    /** `set(par, key, value)`: ignored for the default user; otherwise creates
        `par` on demand, stores `value` under `key` and saves. */
    method Set(par: string, key: string, value: Value, save: bool)
      modifies this, fs
      ensures IsDefault(user) ==> data == old(data) && DiskUnchanged(fs)
      ensures !IsDefault(user) ==>
                && data == old(data)[par := Params(old(data), par)[key := value]]
                && Get(par, key) == value
                && (forall p, k :: (p, k) != (par, key) ==> Get(p, k) == old(Get(p, k)))
                && (if save then SavedNow() && Saved() else DiskUnchanged(fs))
    {
      if IsDefault(user) {
        return;
      }
      data := data[par := Params(data, par)[key := value]];
      if save {
        Save();
      }
    }

    /** `remove(par)` inherited from the flat store: drops a whole parameter. */
    method Remove(par: string)
      modifies this, fs
      ensures IsDefault(user) || par !in old(data) ==> data == old(data) && DiskUnchanged(fs)
      ensures !IsDefault(user) && par in old(data) ==> data == old(data) - {par} && SavedNow() && Saved()
    {
      if IsDefault(user) {
        return;
      }
      if par in data {
        data := data - {par};
        Save();
      }
    }

    /** `reset()` inherited from the flat store. */
    method Reset()
      modifies this, fs
      ensures IsDefault(user) ==> data == old(data) && DiskUnchanged(fs)
      ensures !IsDefault(user) ==> data == map[] && SavedNow() && Saved()
    {
      if IsDefault(user) {
        return;
      }
      data := map[];
      Save();
    }
  }
}
