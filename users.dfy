/** Users and the user manager (`User`, `UserManager`): every user is a folder
    under the current users directory holding that user's settings stores; the
    manager keeps the users of that directory, the settings every user of a
    directory is given, the process-wide application settings and the active
    user, whose name is kept in the marker file '.active'. */
module Users {
  import opened Common
  import opened Disk
  import opened Strings
  import opened Settings
  import opened Priority
  import opened App
  import opened Registry

  /** The marker file naming the active user. */
  const MarkerName := ".active"
  /** The store of the application settings, in the users root directory. */
  const AppSettingsName := "app_settings"

  /** One settings store of a user. */
  datatype Store =
    | BasicStore(basic: UserSettings)
    | ParameterStore(parameter: UserSettingsParameter)
    | PriorityStore(priority: UserSettingsPriorityList)

  function KindOf(s: Store): Kind
  {
    match s
    case BasicStore(_) => Basic
    case ParameterStore(_) => Parameter
    case PriorityStore(_) => PriorityList
  }

  function StoreObject(s: Store): object
  {
    match s
    case BasicStore(b) => b
    case ParameterStore(p) => p
    case PriorityStore(q) => q
  }

  function StoreKinds(m: map<string, Store>): map<string, Kind>
  {
    map n | n in m :: KindOf(m[n])
  }

  /** Whether a store of this kind opens on the file found in folder `dir`. */
  predicate Loadable(f: Folder, dir: Path, kind: Kind, name: string)
  {
    match kind
    case Basic => LoadDocument(f, dir, name).Some?
    case Parameter => LoadParameters(f, dir, name).Some?
    case PriorityList => LoadPriority(f, dir, name).Some?
  }

  /** Store `s` was opened on disk `f` as `dir/name` for `user`: it holds what the
      file held and the file now holds what the store holds. */
  ghost predicate Opened(s: Store, fs: FileSystem, f: Folder, dir: Path, name: string, user: Option<string>)
    reads StoreObject(s), fs
  {
    match s
    case BasicStore(b) =>
      && b.fs == fs && b.directory == dir && b.name == name && b.user == user
      && LoadDocument(f, dir, name).Some? && b.data == LoadDocument(f, dir, name).value && b.Saved()
    case ParameterStore(p) =>
      && p.fs == fs && p.directory == dir && p.name == name && p.user == user
      && LoadParameters(f, dir, name).Some? && p.data == LoadParameters(f, dir, name).value && p.Saved()
    case PriorityStore(q) =>
      && q.fs == fs && q.directory == dir && q.name == name && q.user == user
      && LoadPriority(f, dir, name).Some? && (q.others, q.priorityList) == LoadPriority(f, dir, name).value
      && q.Saved()
  }

  function StoreFs(s: Store): FileSystem
  {
    match s
    case BasicStore(b) => b.fs
    case ParameterStore(p) => p.fs
    case PriorityStore(q) => q.fs
  }

  /** Store `s` is the store `name` of user `user`, kept in folder `dir` of
      disk `fs`. */
  predicate OwnedBy(s: Store, fs: FileSystem, dir: Path, name: string, user: string)
  {
    match s
    case BasicStore(b) => b.fs == fs && b.directory == dir && b.name == name && b.user == Some(user)
    case ParameterStore(p) => p.fs == fs && p.directory == dir && p.name == name && p.user == Some(user)
    case PriorityStore(q) => q.fs == fs && q.directory == dir && q.name == name && q.user == Some(user)
  }

  /** In folder tree `f`, the file of store `s` holds what the store holds
      (a priority store's other entries never include the list itself). */
  ghost predicate StoreSavedIn(s: Store, f: Folder)
    reads StoreObject(s)
  {
    match s
    case BasicStore(b) => ReadFile(f, b.directory, FileName(b.name)) == Some(JsonFile(Dict(b.data)))
    case ParameterStore(p) => ReadFile(f, p.directory, FileName(p.name)) == Some(JsonFile(ParameterDocument(p.data)))
    case PriorityStore(q) =>
      && ReadFile(f, q.directory, FileName(q.name)) == Some(JsonFile(PriorityDocument(q.others, q.priorityList)))
      && PriorityListKey !in q.others
  }

  /** Store `s` holds what the file `dir/name` loads as in folder tree `f`. */
  ghost predicate LoadedFrom(s: Store, f: Folder, dir: Path, name: string)
    reads StoreObject(s)
  {
    match s
    case BasicStore(b) => LoadDocument(f, dir, name) == Some(b.data)
    case ParameterStore(p) => LoadParameters(f, dir, name) == Some(p.data)
    case PriorityStore(q) => LoadPriority(f, dir, name) == Some((q.others, q.priorityList))
  }

  /** Loading the file `dir/name` as a store of `kind` gives the same answer
      in folder trees `f` and `g`. */
  predicate SameLoad(f: Folder, g: Folder, dir: Path, kind: Kind, name: string)
  {
    match kind
    case Basic => LoadDocument(f, dir, name) == LoadDocument(g, dir, name)
    case Parameter => LoadParameters(f, dir, name) == LoadParameters(g, dir, name)
    case PriorityList => LoadPriority(f, dir, name) == LoadPriority(g, dir, name)
  }

  /** A saved store loads back as itself. */
  lemma SavedLoads(s: Store, f: Folder, fs: FileSystem, dir: Path, name: string, user: string)
    requires OwnedBy(s, fs, dir, name, user) && StoreSavedIn(s, f)
    ensures LoadedFrom(s, f, dir, name)
  {
    match s
    case BasicStore(b) =>
    case ParameterStore(p) => ParameterRoundTrip(f, dir, name, p.data);
    case PriorityStore(q) => PriorityRoundTrip(f, dir, name, q.others, q.priorityList);
  }

  /** Opening a store leaves its file loading as it did before. */
  lemma OpenedSameLoad(s: Store, fs: FileSystem, f: Folder, dir: Path, name: string, user: string)
    requires Opened(s, fs, f, dir, name, Some(user)) && StoreSavedIn(s, fs.root)
    ensures SameLoad(fs.root, f, dir, KindOf(s), name)
  {
    SavedLoads(s, fs.root, fs, dir, name, user);
  }

  /** Loading `dir/name` gives the same answer in two folder trees that hold
      the same file there. */
  lemma SameFileSameLoad(f: Folder, g: Folder, dir: Path, kind: Kind, name: string)
    requires ReadFile(f, dir, FileName(name)) == ReadFile(g, dir, FileName(name))
    ensures SameLoad(f, g, dir, kind, name)
  {
  }

  /** A store that holds what its file loads as in `f` holds what it loads as
      in `g`, when the two load the same. */
  lemma LoadedMoved(s: Store, f: Folder, g: Folder, dir: Path, name: string)
    requires LoadedFrom(s, f, dir, name) && SameLoad(f, g, dir, KindOf(s), name)
    ensures LoadedFrom(s, g, dir, name)
  {
  }

  /** A name registered under one kind in the first `i + 1` entries is
      registered under that kind in the first `i`. */
  lemma OneKindPrefix(es: seq<(Kind, string)>, i: nat, t: string)
    requires i < |es| && OneKind(es[..i + 1], t)
    ensures OneKind(es[..i], t)
  {
    forall j, k | 0 <= j < i && 0 <= k < i && es[..i][j].1 == t && es[..i][k].1 == t
      ensures es[..i][j].0 == es[..i][k].0
    {
      assert es[..i][j] == es[..i + 1][j] && es[..i][k] == es[..i + 1][k];
    }
  }

  /** A name opened again under one kind had that kind already. */
  lemma OneKindAgain(es: seq<(Kind, string)>, i: nat)
    requires i < |es| && es[i].1 in Schema(es[..i]) && OneKind(es[..i + 1], es[i].1)
    ensures Schema(es[..i])[es[i].1] == es[i].0
  {
    var t := es[i].1;
    SchemaEntry(es[..i], t);
    var j :| 0 <= j < i && es[..i][j] == (Schema(es[..i])[t], t);
    assert es[..i + 1][j] == es[..i][j] && es[..i + 1][i] == es[i];
  }

  /** `LoadStep` for one name `t`. */
  lemma LoadStepAt(es: seq<(Kind, string)>, i: nat, dir: Path, f0: Folder, pre: Folder, post: Folder, t: string)
    requires i < |es| && t in Schema(es[..i + 1]) && OneKind(es[..i + 1], t)
    requires t in Schema(es[..i]) && OneKind(es[..i], t) ==> SameLoad(pre, f0, dir, Schema(es[..i])[t], t)
    requires t !in Schema(es[..i]) ==> ReadFile(pre, dir, FileName(t)) == ReadFile(f0, dir, FileName(t))
    requires t != es[i].1 ==> ReadFile(post, dir, FileName(t)) == ReadFile(pre, dir, FileName(t))
    requires SameLoad(post, pre, dir, es[i].0, es[i].1)
    ensures SameLoad(post, f0, dir, Schema(es[..i + 1])[t], t)
  {
    SchemaStep(es, i);
    OneKindPrefix(es, i, t);
    if t == es[i].1 {
      if t in Schema(es[..i]) {
        OneKindAgain(es, i);
      } else {
        SameFileSameLoad(pre, f0, dir, es[i].0, t);
      }
    } else {
      SameFileSameLoad(post, pre, dir, Schema(es[..i])[t], t);
    }
  }

  /** One more store `es[i]` opened in folder `dir`: if only its file changed
      and it loads as before, every name registered under one kind loads as
      it did at the start, and files of names not yet opened are untouched. */
  lemma LoadStep(es: seq<(Kind, string)>, i: nat, grown: seq<(Kind, string)>, dir: Path, f0: Folder, pre: Folder, post: Folder)
    requires i < |es| && grown == es[..i + 1]
    requires forall t :: t in Schema(es[..i]) && OneKind(es[..i], t) ==> SameLoad(pre, f0, dir, Schema(es[..i])[t], t)
    requires forall m :: m !in Schema(es[..i]) ==> ReadFile(pre, dir, FileName(m)) == ReadFile(f0, dir, FileName(m))
    requires forall m :: m != FileName(es[i].1) ==> ReadFile(post, dir, m) == ReadFile(pre, dir, m)
    requires SameLoad(post, pre, dir, es[i].0, es[i].1)
    ensures forall t :: t in Schema(grown) && OneKind(grown, t) ==> SameLoad(post, f0, dir, Schema(grown)[t], t)
    ensures forall m :: m !in Schema(grown) ==> ReadFile(post, dir, FileName(m)) == ReadFile(f0, dir, FileName(m))
  {
    SchemaStep(es, i);
    forall t | t in Schema(grown) && OneKind(grown, t)
      ensures SameLoad(post, f0, dir, Schema(grown)[t], t)
    {
      FileNameInjective(t, es[i].1);
      LoadStepAt(es, i, dir, f0, pre, post, t);
    }
    forall m | m !in Schema(grown)
      ensures ReadFile(post, dir, FileName(m)) == ReadFile(f0, dir, FileName(m))
    {
      FileNameInjective(m, es[i].1);
    }
  }

  /** When every store of a map is saved in `f` and `f` loads each name of
      `es` registered under one kind as `f0` does, those stores hold what
      their files held in `f0`. */
  lemma LoadedFromAll(settings: map<string, Store>, fs: FileSystem, dir: Path, user: string,
                      es: seq<(Kind, string)>, base: map<string, Kind>, f: Folder, f0: Folder)
    requires forall t :: t in settings ==> OwnedBy(settings[t], fs, dir, t, user) && StoreSavedIn(settings[t], f)
    requires StoreKinds(settings) == base + Schema(es)
    requires forall t :: t in Schema(es) && OneKind(es, t) ==> SameLoad(f, f0, dir, Schema(es)[t], t)
    ensures forall t :: t in Schema(es) && OneKind(es, t) ==> t in settings && LoadedFrom(settings[t], f0, dir, t)
  {
    forall t | t in Schema(es) && OneKind(es, t)
      ensures t in settings && LoadedFrom(settings[t], f0, dir, t)
    {
      assert t in StoreKinds(settings);
      SavedLoads(settings[t], f, fs, dir, t, user);
      LoadedMoved(settings[t], f, f0, dir, t);
    }
  }

  /** Opens the store `name` of the given kind in folder `dir` for `user`;
      only that store's file may change. */
  method OpenStore(fs: FileSystem, dir: Path, kind: Kind, name: string, user: string) returns (s: Store)
    requires IsDir(fs.root, dir) && Loadable(fs.root, dir, kind, name)
    modifies fs
    ensures fresh(StoreObject(s)) && KindOf(s) == kind
    ensures Opened(s, fs, old(fs.root), dir, name, Some(user))
    ensures OwnedBy(s, fs, dir, name, user) && StoreSavedIn(s, fs.root)
    ensures ChangedOnlyIn(old(fs.root), fs.root, dir)
    ensures forall m :: m != FileName(name) ==> ReadFile(fs.root, dir, m) == ReadFile(old(fs.root), dir, m)
  {
    ghost var before := fs.root;
    match kind {
      case Basic =>
        var b := new UserSettings(fs, dir, name, Some(user));
        s := BasicStore(b);
        WriteChangesOnlyFile(before, dir, FileName(name), JsonFile(Dict(map[])));
      case Parameter =>
        var p := new UserSettingsParameter(fs, dir, name, Some(user));
        s := ParameterStore(p);
        WriteChangesOnlyFile(before, dir, FileName(name), JsonFile(Dict(map[])));
      case PriorityList =>
        var q := new UserSettingsPriorityList(fs, dir, name, Some(user));
        s := PriorityStore(q);
        WriteChangesOnlyFile(before, dir, FileName(name), JsonFile(PriorityDocument(q.others, q.priorityList)));
    }
  }

  /** A store object is neither a disk nor a user. */
  lemma NoStoreIsDiskOrUser(settings: map<string, Store>, fs: FileSystem, u: User)
    ensures forall t :: t in settings ==> StoreObject(settings[t]) != fs && StoreObject(settings[t]) != u
  {
  }

  /** No store of a user in `users` is disk `fs`. */
  lemma NoUserStoreIsDisk(users: map<string, User>, fs: FileSystem)
    ensures forall m, s :: m in users && s in users[m].settings ==> StoreObject(users[m].settings[s]) != fs
  {
  }

  /** Opening store `key` in folder `dir` keeps every other store of the
      same user owned and saved, and the new map holds the opened store. */
  lemma OwnedAfterOpen(settings: map<string, Store>, fs: FileSystem, dir: Path, user: string,
                       key: string, s: Store, updated: map<string, Store>, f: Folder, g: Folder)
    requires updated == settings[key := s]
    requires forall t :: t in settings ==> OwnedBy(settings[t], fs, dir, t, user) && StoreSavedIn(settings[t], f)
    requires forall m :: m != FileName(key) ==> ReadFile(g, dir, m) == ReadFile(f, dir, m)
    requires OwnedBy(s, fs, dir, key, user) && StoreSavedIn(s, g)
    ensures forall t :: t in updated ==> OwnedBy(updated[t], fs, dir, t, user) && StoreSavedIn(updated[t], g)
  {
    forall t | t in settings && t != key
      ensures StoreSavedIn(settings[t], g)
    {
      FileNameInjective(t, key);
      assert StoreSavedIn(settings[t], f);
    }
  }

  /** A user: a named folder and the settings stores opened in it. */
  class User {
    const name: string
    const fs: FileSystem
    const directory: Path
    var settings: map<string, Store>

    /** Every store is this user's own: opened for this user, under its name,
        in the user's folder, and its file holds what the store holds. */
    ghost predicate Owned()
      reads this, fs, set s | s in settings :: StoreObject(settings[s])
    {
      OwnedIn(fs.root)
    }

    /** `Owned`, with the stores' files read from folder tree `f`. */
    ghost predicate OwnedIn(f: Folder)
      reads this, set s | s in settings :: StoreObject(settings[s])
    {
      forall s :: s in settings ==> OwnedBy(settings[s], fs, directory, s, name) && StoreSavedIn(settings[s], f)
    }

    /** Creates the user's folder when it does not exist yet. */
    constructor (fs: FileSystem, usersDirectory: Path, name: string)
      requires IsDir(fs.root, usersDirectory)
      modifies fs
      ensures this.name == name && this.fs == fs && directory == usersDirectory + [name] && settings == map[]
      ensures Owned()
      ensures name in Subdirs(old(fs.root), usersDirectory) ==> fs.root == old(fs.root) && fs.writes == old(fs.writes)
      ensures name !in Subdirs(old(fs.root), usersDirectory) ==>
                && fs.root == PutFolder(old(fs.root), usersDirectory, name, EmptyFolder)
                && Added(old(fs.root), fs.root, usersDirectory, name, EmptyFolder)
                && fs.writes == old(fs.writes) + 1
      ensures IsDir(fs.root, directory)
    {
      this.name := name;
      this.fs := fs;
      directory := usersDirectory + [name];
      settings := map[];
      new;
      FolderAtChild(fs.root, usersDirectory, name);
      if !IsDir(fs.root, directory) {
        fs.Put(usersDirectory, name, EmptyFolder);
      }
    }

    /** `add_user_settings(type, name=...)`: opens the store `name` of the
        given kind in the user's folder and keeps it under that name, replacing
        an earlier store of the same name. A file that does not load as that
        kind of store fails and changes nothing. */
    method AddUserSettings(kind: Kind, settingsName: string) returns (o: Outcome)
      requires IsDir(fs.root, directory) && Owned()
      modifies this, fs
      ensures Owned()
      ensures o == (if Loadable(old(fs.root), directory, kind, settingsName) then Pass else Fail(InvalidSettingsFormat))
      ensures o.Fail? ==> settings == old(settings) && fs.root == old(fs.root) && fs.writes == old(fs.writes)
      ensures o.Pass? ==>
                && settingsName in settings
                && settings == old(settings)[settingsName := settings[settingsName]]
                && KindOf(settings[settingsName]) == kind
                && fresh(StoreObject(settings[settingsName]))
                && Opened(settings[settingsName], fs, old(fs.root), directory, settingsName, Some(name))
      ensures StoreKinds(settings) == if o.Pass? then StoreKinds(old(settings))[settingsName := kind] else StoreKinds(old(settings))
      ensures ChangedOnlyIn(old(fs.root), fs.root, directory)
      ensures forall m :: m != FileName(settingsName) ==> ReadFile(fs.root, directory, m) == ReadFile(old(fs.root), directory, m)
    {
      if !Loadable(fs.root, directory, kind, settingsName) {
        return Fail(InvalidSettingsFormat);
      }
      ghost var before, kept := fs.root, settings;
      assert forall t :: t in kept ==> OwnedBy(kept[t], fs, directory, t, name) && StoreSavedIn(kept[t], before);
      NoStoreIsDiskOrUser(kept, fs, this);
      var s := OpenStore(fs, directory, kind, settingsName, name);
      settings := settings[settingsName := s];
      OwnedAfterOpen(kept, fs, directory, name, settingsName, s, settings, before, fs.root);
      o := Pass;
    }

    /** Opens every registered store in order (the inner loop of
        `set_users_directory`), stopping at the first that does not load. */
    method AddRegisteredSettings(es: seq<(Kind, string)>) returns (o: Outcome)
      requires IsDir(fs.root, directory) && Owned()
      modifies this, fs
      ensures Owned()
      ensures o.Pass? || o == Fail(InvalidSettingsFormat)
      ensures o.Pass? ==> StoreKinds(settings) == StoreKinds(old(settings)) + Schema(es)
      ensures o.Pass? ==>
                forall t :: t in Schema(es) && OneKind(es, t) ==>
                  t in settings && LoadedFrom(settings[t], old(fs.root), directory, t)
      ensures ChangedOnlyIn(old(fs.root), fs.root, directory)
    {
      var i := 0;
      assert es[..0] == [];
      while i < |es|
        invariant 0 <= i <= |es|
        invariant StoreKinds(settings) == StoreKinds(old(settings)) + Schema(es[..i])
        invariant ChangedOnlyIn(old(fs.root), fs.root, directory)
        invariant IsDir(fs.root, directory) && Owned()
        invariant forall t :: t in Schema(es[..i]) && OneKind(es[..i], t) ==>
                    SameLoad(fs.root, old(fs.root), directory, Schema(es[..i])[t], t)
        invariant forall m :: m !in Schema(es[..i]) ==>
                    ReadFile(fs.root, directory, FileName(m)) == ReadFile(old(fs.root), directory, FileName(m))
      {
        ghost var pre := fs.root;
        o := AddUserSettings(es[i].0, es[i].1);
        ChangedOnlyInTrans(old(fs.root), pre, fs.root, directory);
        if o.Fail? {
          return;
        }
        OpenedSameLoad(settings[es[i].1], fs, pre, directory, es[i].1, name);
        LoadStep(es, i, es[..i + 1], directory, old(fs.root), pre, fs.root);
        SchemaStep(es, i);
        UnionUpdate(StoreKinds(old(settings)), Schema(es[..i]), es[i].1, es[i].0);
        i := i + 1;
      }
      assert es[..|es|] == es;
      LoadedFromAll(settings, fs, directory, name, es, StoreKinds(old(settings)), fs.root, old(fs.root));
      o := Pass;
    }
  }

  /** The marker holds text (it is only ever written as text). */
  predicate MarkerIsText(marker: Option<File>)
  {
    marker.None? || marker.value.TextFile?
  }

  /** `_get_active_user`: the host name when there is no marker, otherwise the
      marker's first line with surrounding whitespace stripped. */
  function ActiveUserName(marker: Option<File>, hostname: string): string
    requires MarkerIsText(marker)
  {
    match marker
    case None => hostname
    case Some(TextFile(text)) => Strip(FirstLine(text))
  }

  /** A marker written for `name` reads back as `name` exactly when `name` has
      no line break and no surrounding whitespace. */
  lemma MarkerRoundTrip(name: string, hostname: string)
    ensures ActiveUserName(Some(TextFile(name)), hostname) == name <==> !HasLineBreak(name) && IsStripped(name)
  {
    var line := FirstLine(name);
    FirstLineShape(name);
    StripFixed(line);
    if Strip(line) == name {
      assert |line| == |name|;
      assert line == name;
    }
  }

  /** Every string before `b` in Python's order, strictly increasing. */
  predicate StrictlySorted(xs: seq<string>)
  {
    forall i, j :: 0 <= i < j < |xs| ==> Less(xs[i], xs[j])
  }

  /** Puts `x` into a strictly increasing list that lacks it. */
  function InsertSorted(xs: seq<string>, x: string): (r: seq<string>)
    requires StrictlySorted(xs) && x !in xs
    ensures StrictlySorted(r)
    ensures forall y :: y in r <==> y in xs || y == x
    ensures |r| == |xs| + 1
    decreases |xs|
  {
    if xs == [] then [x]
    else if Less(x, xs[0]) then
      LessAfter(xs, x);
      [x] + xs
    else
      LessTotal(x, xs[0]);
      assert StrictlySorted(xs[1..]) by {
        forall i, j | 0 <= i < j < |xs[1..]| ensures Less(xs[1..][i], xs[1..][j]) {
          assert xs[1..][i] == xs[i + 1] && xs[1..][j] == xs[j + 1];
        }
      }
      var t := InsertSorted(xs[1..], x);
      HeadBelow(xs, x, t);
      [xs[0]] + t
  }

  lemma LessAfter(xs: seq<string>, x: string)
    requires StrictlySorted(xs) && xs != [] && Less(x, xs[0])
    ensures StrictlySorted([x] + xs)
  {
    var r := [x] + xs;
    forall i, j | 0 <= i < j < |r| ensures Less(r[i], r[j]) {
      assert r[j] == xs[j - 1];
      if i == 0 {
        if j > 1 {
          LessTransitive(x, xs[0], xs[j - 1]);
        }
      } else {
        assert r[i] == xs[i - 1];
      }
    }
  }

  lemma HeadBelow(xs: seq<string>, x: string, t: seq<string>)
    requires StrictlySorted(xs) && xs != [] && Less(xs[0], x)
    requires StrictlySorted(t) && forall y :: y in t <==> y in xs[1..] || y == x
    ensures StrictlySorted([xs[0]] + t)
  {
    var r := [xs[0]] + t;
    forall i, j | 0 <= i < j < |r| ensures Less(r[i], r[j]) {
      assert r[j] == t[j - 1];
      if i == 0 {
        assert t[j - 1] in t;
        if t[j - 1] != x {
          var k :| 0 <= k < |xs[1..]| && xs[1..][k] == t[j - 1];
          assert xs[k + 1] == t[j - 1];
        }
      } else {
        assert r[i] == t[i - 1];
      }
    }
  }

  /** Two strictly increasing lists with the same elements are the same list:
      `sorted` of a set of names has one possible result. */
  lemma {:induction false} SortedUnique(a: seq<string>, b: seq<string>)
    requires StrictlySorted(a) && StrictlySorted(b)
    requires forall y :: y in a <==> y in b
    ensures a == b
    decreases |a|
  {
    if a != [] {
      assert a[0] in a;
    }
    if b != [] {
      assert b[0] in b;
    }
    if a != [] && b != [] {
      if a[0] != b[0] {
        assert a[0] in b;
        var j :| 0 <= j < |b| && b[j] == a[0];
        assert b[0] in a;
        var i :| 0 <= i < |a| && a[i] == b[0];
        assert Less(b[0], a[0]) && Less(a[0], b[0]);
        LessAsymmetric(a[0], b[0]);
      }
      forall y ensures y in a[1..] <==> y in b[1..] {
        if y in a[1..] {
          var i :| 0 <= i < |a[1..]| && a[1..][i] == y;
          assert Less(a[0], a[i + 1]);
          LessIrreflexive(y);
          assert y in b;
          var j :| 0 <= j < |b| && b[j] == y;
          assert j != 0;
          assert b[1..][j - 1] == y;
        }
        if y in b[1..] {
          var j :| 0 <= j < |b[1..]| && b[1..][j] == y;
          assert Less(b[0], b[j + 1]);
          LessIrreflexive(y);
          assert y in a;
          var i :| 0 <= i < |a| && a[i] == y;
          assert i != 0;
          assert a[1..][i - 1] == y;
        }
      }
      assert StrictlySorted(a[1..]) by {
        forall i, j | 0 <= i < j < |a[1..]| ensures Less(a[1..][i], a[1..][j]) {
          assert a[1..][i] == a[i + 1] && a[1..][j] == a[j + 1];
        }
      }
      assert StrictlySorted(b[1..]) by {
        forall i, j | 0 <= i < j < |b[1..]| ensures Less(b[1..][i], b[1..][j]) {
          assert b[1..][i] == b[i + 1] && b[1..][j] == b[j + 1];
        }
      }
      SortedUnique(a[1..], b[1..]);
      assert a == [a[0]] + a[1..] && b == [b[0]] + b[1..];
    }
  }

  /** The registrations recorded for a users directory (`get(dir, {})`). */
  function Regs(d: map<Path, seq<Registration>>, dir: Path): seq<Registration>
  {
    if dir in d then d[dir] else []
  }

  /** User `u` is the folder `n` of `dir` and holds one store per name of
      `kinds`, of that kind. */
  ghost predicate Built(u: User, n: string, fs: FileSystem, dir: Path, kinds: map<string, Kind>)
    reads u
  {
    u.name == n && u.fs == fs && u.directory == dir + [n] && StoreKinds(u.settings) == kinds
  }

  /** A change confined to folder `p` keeps the stores of every user whose
      folder is not `p` saved. */
  lemma OwnedKept(users: map<string, User>, p: Path, f: Folder, g: Folder)
    requires ChangedOnlyIn(f, g, p)
    requires forall m :: m in users ==> users[m].directory != p
    requires forall m, s :: m in users && s in users[m].settings ==>
               && OwnedBy(users[m].settings[s], users[m].fs, users[m].directory, s, users[m].name)
               && StoreSavedIn(users[m].settings[s], f)
    ensures forall m :: m in users ==> users[m].OwnedIn(g)
  {
    forall m, s | m in users && s in users[m].settings ensures StoreSavedIn(users[m].settings[s], g) {
      assert StoreSavedIn(users[m].settings[s], f);
    }
  }

  /** Path `q` is the folder of one of the users `names` of `dir`. */
  predicate UserFolder(q: Path, dir: Path, names: set<string>)
  {
    |q| == |dir| + 1 && q[..|dir|] == dir && q[|dir|] in names
  }

  /** The stores of user `u` that `es` registers under one kind hold what
      their files held in folder tree `f`. */
  ghost predicate HoldsLoaded(u: User, es: seq<(Kind, string)>, f: Folder)
    reads u, set s | s in u.settings :: StoreObject(u.settings[s])
  {
    forall t :: t in Schema(es) && OneKind(es, t) ==> t in u.settings && LoadedFrom(u.settings[t], f, u.directory, t)
  }

  /** `HoldsLoaded` depends only on the files of the user's own folder. */
  lemma HoldsLoadedMoved(u: User, es: seq<(Kind, string)>, f: Folder, g: Folder)
    requires HoldsLoaded(u, es, f)
    requires forall m :: ReadFile(f, u.directory, m) == ReadFile(g, u.directory, m)
    ensures HoldsLoaded(u, es, g)
  {
    forall t | t in Schema(es) && OneKind(es, t) ensures LoadedFrom(u.settings[t], g, u.directory, t) {
      SameFileSameLoad(f, g, u.directory, KindOf(u.settings[t]), t);
      LoadedMoved(u.settings[t], f, g, u.directory, t);
    }
  }

  /** A user for the existing sub-folder `n` of `dir`, given the stores `es`
      in order; only the user's own folder changes. */
  method BuildUser(fs: FileSystem, dir: Path, n: string, es: seq<(Kind, string)>) returns (u: User, o: Outcome)
    requires IsDir(fs.root, dir) && n in Subdirs(fs.root, dir)
    modifies fs
    ensures fresh(u) && u.name == n && u.fs == fs && u.directory == dir + [n]
    ensures ChangedOnlyIn(old(fs.root), fs.root, dir + [n])
    ensures Untouched(old(fs.root), fs.root, dir)
    ensures o.Pass? || o == Fail(InvalidSettingsFormat)
    ensures o.Pass? ==> Built(u, n, fs, dir, Schema(es)) && u.Owned() && HoldsLoaded(u, es, old(fs.root))
  {
    ghost var before := fs.root;
    assert map[] + Schema(es) == Schema(es);
    u := new User(fs, dir, n);
    assert StoreKinds(u.settings) == map[];
    o := u.AddRegisteredSettings(es);
    UntouchedAfter(before, before, fs.root, dir, u.directory);
  }

  /** `BuildUser` beside the users `others` already built: their stores keep
      holding what their files held in `f0`, and so do the new user's when its
      folder's files are still those of `f0`. */
  method BuildBeside(fs: FileSystem, dir: Path, n: string, es: seq<(Kind, string)>,
                     ghost others: map<string, User>, ghost f0: Folder)
      returns (u: User, o: Outcome)
    requires IsDir(fs.root, dir) && n in Subdirs(fs.root, dir)
    requires forall m, t :: m in others && t in Schema(es) && OneKind(es, t) ==>
               t in others[m].settings && LoadedFrom(others[m].settings[t], f0, others[m].directory, t)
    requires forall m :: ReadFile(fs.root, dir + [n], m) == ReadFile(f0, dir + [n], m)
    modifies fs
    ensures fresh(u) && u.name == n && u.fs == fs && u.directory == dir + [n]
    ensures ChangedOnlyIn(old(fs.root), fs.root, dir + [n])
    ensures Untouched(old(fs.root), fs.root, dir)
    ensures o.Pass? || o == Fail(InvalidSettingsFormat)
    ensures o.Pass? ==> Built(u, n, fs, dir, Schema(es)) && u.Owned() && HoldsLoaded(u, es, f0)
    ensures forall m, t :: m in others && t in Schema(es) && OneKind(es, t) ==>
              t in others[m].settings && LoadedFrom(others[m].settings[t], f0, others[m].directory, t)
  {
    ghost var before := fs.root;
    NoUserStoreIsDisk(others, fs);
    u, o := BuildUser(fs, dir, n, es);
    forall m, t | m in others && t in Schema(es) && OneKind(es, t)
      ensures t in others[m].settings && LoadedFrom(others[m].settings[t], f0, others[m].directory, t)
    {
      assert others[m].settings == old(others[m].settings);
      var s := others[m].settings[t];
      assert unchanged(StoreObject(s));
      assert old(LoadedFrom(s, f0, others[m].directory, t));
    }
    if o.Pass? {
      HoldsLoadedMoved(u, es, before, f0);
    }
  }

  /** One user of an existing sub-folder `n` of `dir`, given the stores `es`
      in order; only the user's own folder changes, and the users `others`
      already built keep their stores saved and holding what they held. */
  method LoadUser(fs: FileSystem, dir: Path, n: string, es: seq<(Kind, string)>,
                  ghost others: map<string, User>, ghost f0: Folder)
      returns (u: User, o: Outcome)
    requires IsDir(fs.root, dir) && n in Subdirs(fs.root, dir) && n !in others
    requires forall m :: m in others ==> others[m].directory == dir + [m] && others[m].OwnedIn(fs.root)
    requires forall m, t :: m in others && t in Schema(es) && OneKind(es, t) ==>
               t in others[m].settings && LoadedFrom(others[m].settings[t], f0, others[m].directory, t)
    requires forall m :: ReadFile(fs.root, dir + [n], m) == ReadFile(f0, dir + [n], m)
    modifies fs
    ensures fresh(u) && u.name == n && u.fs == fs && u.directory == dir + [n]
    ensures ChangedOnlyIn(old(fs.root), fs.root, dir + [n])
    ensures Untouched(old(fs.root), fs.root, dir)
    ensures o.Pass? || o == Fail(InvalidSettingsFormat)
    ensures o.Pass? ==> Built(u, n, fs, dir, Schema(es)) && u.Owned() && HoldsLoaded(u, es, f0)
    ensures forall m :: m in others ==> others[m].OwnedIn(fs.root)
    ensures forall m, t :: m in others && t in Schema(es) && OneKind(es, t) ==>
              t in others[m].settings && LoadedFrom(others[m].settings[t], f0, others[m].directory, t)
  {
    ghost var before := fs.root;
    assert forall m, s :: m in others && s in others[m].settings ==>
             && OwnedBy(others[m].settings[s], others[m].fs, others[m].directory, s, others[m].name)
             && StoreSavedIn(others[m].settings[s], before);
    NoUserStoreIsDisk(others, fs);
    u, o := BuildBeside(fs, dir, n, es, others, f0);
    forall m | m in others ensures others[m].directory != dir + [n] {
      assert (dir + [m])[|dir|] != (dir + [n])[|dir|];
    }
    OwnedKept(others, dir + [n], before, fs.root);
  }

  /** One more user folder `dir + [n]` changed: files outside the users'
      folders are still as in `f0`. */
  lemma FrameStep(f0: Folder, pre: Folder, post: Folder, dir: Path, n: string, names: set<string>)
    requires forall q, m :: !UserFolder(q, dir, names) ==> ReadFile(pre, q, m) == ReadFile(f0, q, m)
    requires ChangedOnlyIn(pre, post, dir + [n])
    ensures forall q, m :: !UserFolder(q, dir, names + {n}) ==> ReadFile(post, q, m) == ReadFile(f0, q, m)
  {
    forall q, m | !UserFolder(q, dir, names + {n}) ensures ReadFile(post, q, m) == ReadFile(f0, q, m) {
      assert q != dir + [n];
    }
  }

  /** A user for every sub-folder of `dir`, each given the stores `es` in
      order; a store that does not load stops the walk. Only files in the
      users' own folders change, and every store registered under one kind
      holds what its file held before the walk. */
  method LoadAll(fs: FileSystem, dir: Path, es: seq<(Kind, string)>, ghost f0: Folder)
      returns (loaded: map<string, User>, o: Outcome)
    requires IsDir(fs.root, dir)
    requires forall q, m :: ReadFile(fs.root, q, m) == ReadFile(f0, q, m)
    modifies fs
    ensures Untouched(old(fs.root), fs.root, dir)
    ensures forall q, m :: !UserFolder(q, dir, loaded.Keys) ==> ReadFile(fs.root, q, m) == ReadFile(f0, q, m)
    ensures o.Pass? || o == Fail(InvalidSettingsFormat)
    ensures forall n :: n in loaded ==> fresh(loaded[n]) && loaded[n].name == n && loaded[n].fs == fs && loaded[n].directory == dir + [n]
    ensures o.Pass? ==>
              && loaded.Keys == Subdirs(old(fs.root), dir)
              && forall n :: n in loaded ==>
                   && Built(loaded[n], n, fs, dir, Schema(es)) && loaded[n].OwnedIn(fs.root)
                   && HoldsLoaded(loaded[n], es, f0)
  {
    var names := Subdirs(fs.root, dir);
    var todo := names;
    loaded := map[];
    while todo != {}
      invariant todo <= names && loaded.Keys == names - todo
      invariant Untouched(old(fs.root), fs.root, dir)
      invariant forall q, m :: !UserFolder(q, dir, loaded.Keys) ==> ReadFile(fs.root, q, m) == ReadFile(f0, q, m)
      invariant forall n :: n in loaded ==> fresh(loaded[n]) && Built(loaded[n], n, fs, dir, Schema(es))
      invariant forall n :: n in loaded ==> loaded[n].OwnedIn(fs.root)
      invariant forall n, t :: n in loaded && t in Schema(es) && OneKind(es, t) ==>
                  t in loaded[n].settings && LoadedFrom(loaded[n].settings[t], f0, loaded[n].directory, t)
      decreases todo
    {
      var n :| n in todo;
      todo := todo - {n};
      ghost var pre, done := fs.root, loaded.Keys;
      assert forall m :: ReadFile(pre, dir + [n], m) == ReadFile(f0, dir + [n], m) by {
        assert !UserFolder(dir + [n], dir, done);
      }
      var u;
      u, o := LoadUser(fs, dir, n, es, loaded, f0);
      UntouchedTrans(old(fs.root), pre, fs.root, dir);
      FrameStep(f0, pre, fs.root, dir, n, done);
      loaded := loaded[n := u];
      if o.Fail? {
        return;
      }
    }
    o := Pass;
  }

  /** A new user `name` in `dir`: its folder is a copy of the folder of
      `source` when one is given, an empty folder otherwise, and is added to
      `dir` in one write. */
  method NewUser(fs: FileSystem, dir: Path, name: string, source: Option<string>) returns (u: User)
    requires IsDir(fs.root, dir) && name !in Subdirs(fs.root, dir)
    requires source.Some? ==> source.value in Subdirs(fs.root, dir)
    modifies fs
    ensures fresh(u) && u.name == name && u.fs == fs && u.directory == dir + [name] && u.settings == map[]
    ensures FolderAt(fs.root, dir + [name])
            == (if source.Some? then FolderAt(old(fs.root), dir + [source.value]) else Some(EmptyFolder))
    ensures IsDir(fs.root, dir + [name]) && Subdirs(fs.root, dir) == Subdirs(old(fs.root), dir) + {name}
    ensures forall m :: ReadFile(fs.root, dir, m) == ReadFile(old(fs.root), dir, m)
    ensures forall n :: n != name ==> FolderAt(fs.root, dir + [n]) == FolderAt(old(fs.root), dir + [n])
    ensures forall q :: IsDir(old(fs.root), q) ==> IsDir(fs.root, q)
    ensures fs.root == PutFolder(old(fs.root), dir, name,
                                 if source.Some? then FolderAt(old(fs.root), dir + [source.value]).value else EmptyFolder)
    ensures fs.writes == old(fs.writes) + 1
  {
    FolderAtChild(fs.root, dir, name);
    if source.Some? {
      FolderAtChild(fs.root, dir, source.value);
      var copy := FolderAt(fs.root, dir + [source.value]).value;
      fs.Put(dir, name, copy);
      FolderAtChild(fs.root, dir, name);
    }
    u := new User(fs, dir, name);
  }

  lemma KeysUpdate<K, V>(m: map<K, V>, k: K, v: V)
    ensures m[k := v].Keys == m.Keys + {k}
  {
  }

  /** A store object is never the manager, so updating the manager leaves
      every user's stores alone. */
  lemma NoStoreIsManager(loaded: map<string, User>, m: UserManager)
    ensures forall n, s :: n in loaded && s in loaded[n].settings ==>
              StoreObject(loaded[n].settings[s]) != m && StoreObject(loaded[n].settings[s]) != m.fs
  {
  }

  class UserManager {
    const fs: FileSystem
    const usersRootDirectory: Path
    const appRootDirectory: string
    const appSettings: AppSettings
    var currentUserDirectory: Option<Path>
    var directoryUserSettings: map<Path, seq<Registration>>
    var users: map<string, User>
    var user: Option<User>

    /** How the parts fit together: the application settings sit in the users
        root directory and belong to no user; every known user is the folder
        of its name in the current users directory. */
    ghost predicate Wired()
      reads this, fs
    {
      && appSettings.store.fs == fs && appSettings.store.directory == usersRootDirectory
      && appSettings.store.name == AppSettingsName && appSettings.store.user == None
      && appSettings.appRootDirectory == appRootDirectory
      && IsDir(fs.root, usersRootDirectory)
      && (currentUserDirectory.None? ==> users == map[])
      && (currentUserDirectory.Some? ==>
            forall n :: n in users ==>
              users[n].name == n && users[n].fs == fs && users[n].directory == currentUserDirectory.value + [n])
    }

    /** A users directory is set, it exists, its sub-folders are exactly the
        known users, and its marker (if any) is text. */
    ghost predicate Valid()
      reads this, fs
    {
      && Wired()
      && currentUserDirectory.Some?
      && IsDir(fs.root, currentUserDirectory.value)
      && users.Keys == Subdirs(fs.root, currentUserDirectory.value)
      && MarkerIsText(ReadFile(fs.root, currentUserDirectory.value, MarkerName))
    }

    ghost function Marker(): Option<File>
      reads this, fs
      requires currentUserDirectory.Some?
    {
      ReadFile(fs.root, currentUserDirectory.value, MarkerName)
    }

    /** Opens the application settings ('app_settings' in the users root
        directory, owned by no user); no users directory is set yet. */
    constructor (fs: FileSystem, usersRootDirectory: Path, appRootDirectory: string)
      requires LoadParameters(fs.root, usersRootDirectory, AppSettingsName).Some?
      requires DirectoriesAreScalars(LoadParameters(fs.root, usersRootDirectory, AppSettingsName).value)
      modifies fs
      ensures Wired() && appSettings.Valid()
      ensures this.fs == fs && this.usersRootDirectory == usersRootDirectory && this.appRootDirectory == appRootDirectory
      ensures currentUserDirectory == None && directoryUserSettings == map[] && users == map[] && user == None
      ensures appSettings.store.data == LoadParameters(old(fs.root), usersRootDirectory, AppSettingsName).value
      ensures fs.root == OpenedDisk(old(fs.root), usersRootDirectory, AppSettingsName)
    {
      this.fs := fs;
      this.usersRootDirectory := usersRootDirectory;
      this.appRootDirectory := appRootDirectory;
      currentUserDirectory := None;
      directoryUserSettings := map[];
      users := map[];
      user := None;
      if ReadFile(fs.root, usersRootDirectory, FileName(AppSettingsName)).None? {
        WriteMakesDir(fs.root, usersRootDirectory, FileName(AppSettingsName), JsonFile(Dict(map[])));
      }
      appSettings := new AppSettings(fs, usersRootDirectory, appRootDirectory, AppSettingsName, None);
    }

    /** `set_users_directory`: makes `dir` the current users directory (creating
        it when missing), builds a user for every sub-folder with every store
        registered for `dir`, then tries to make the marker's user (or the
        host's) active. That last step's failure is swallowed and leaves `user`
        as it was. A store file that does not load stops the whole operation. */
    method SetUsersDirectory(dir: Path, hostname: string) returns (o: Outcome)
      requires Wired()
      requires IsDir(fs.root, dir) || (dir != [] && IsDir(fs.root, dir[..|dir| - 1]))
      requires MarkerIsText(ReadFile(fs.root, dir, MarkerName))
      modifies this, fs
      ensures Wired() && currentUserDirectory == Some(dir)
      ensures directoryUserSettings == old(directoryUserSettings)
      ensures o.Pass? || o == Fail(InvalidSettingsFormat)
      ensures o.Pass? ==>
                && Valid()
                && users.Keys == Subdirs(old(fs.root), dir)
                && (forall n :: n in users ==>
                      fresh(users[n]) && StoreKinds(users[n].settings) == Schema(Entries(Regs(directoryUserSettings, dir))))
                && (forall n :: n in users ==> users[n].Owned())
                && (forall n :: n in users ==> HoldsLoaded(users[n], Entries(Regs(directoryUserSettings, dir)), old(fs.root)))
                && var active := ActiveUserName(ReadFile(old(fs.root), dir, MarkerName), hostname);
                   if active in users then user == Some(users[active]) && Marker() == Some(TextFile(active))
                   else user == old(user) && Marker() == ReadFile(old(fs.root), dir, MarkerName)
      ensures forall q, m :: !IsPrefix(dir, q) ==> ReadFile(fs.root, q, m) == ReadFile(old(fs.root), q, m)
    {
      o := Rebuild(dir);
      if o.Fail? {
        return;
      }
      TryActiveUser(hostname, Entries(Regs(directoryUserSettings, dir)), old(fs.root));
      assert forall q :: !IsPrefix(dir, q) ==> q != dir;
      o := Pass;
    }

    /** The loop of `set_users_directory`: `dir` becomes current (created when
        missing) and every sub-folder of it becomes a user holding every store
        registered for `dir`, loaded from the disk as it was on entry. */
    method Rebuild(dir: Path) returns (o: Outcome)
      requires Wired()
      requires IsDir(fs.root, dir) || (dir != [] && IsDir(fs.root, dir[..|dir| - 1]))
      requires MarkerIsText(ReadFile(fs.root, dir, MarkerName))
      modifies this, fs
      ensures Wired() && currentUserDirectory == Some(dir)
      ensures user == old(user) && directoryUserSettings == old(directoryUserSettings)
      ensures o.Pass? || o == Fail(InvalidSettingsFormat)
      ensures o.Pass? ==>
                && Valid()
                && users.Keys == Subdirs(old(fs.root), dir)
                && Marker() == ReadFile(old(fs.root), dir, MarkerName)
                && (forall n :: n in users ==>
                      fresh(users[n]) && StoreKinds(users[n].settings) == Schema(Entries(Regs(directoryUserSettings, dir))))
                && (forall n :: n in users ==>
                      users[n].Owned() && HoldsLoaded(users[n], Entries(Regs(directoryUserSettings, dir)), old(fs.root)))
      ensures forall q, m :: !IsPrefix(dir, q) ==> ReadFile(fs.root, q, m) == ReadFile(old(fs.root), q, m)
    {
      OpenUsersDirectory(dir);
      o := LoadUsers(old(fs.root));
    }

    /** The guarded call at the end of `set_users_directory`: tries to make the
        marker's user (or the host's) active and swallows the unknown-user
        failure, leaving `user` and the marker as they were. The users' stores
        keep what they loaded, and nothing outside the users directory's own
        files changes. */
    method TryActiveUser(hostname: string, ghost es: seq<(Kind, string)>, ghost f0: Folder)
      requires Valid()
      requires forall n :: n in users ==> users[n].Owned() && HoldsLoaded(users[n], es, f0)
      requires forall n :: n in users ==> StoreKinds(users[n].settings) == Schema(es)
      modifies this, fs
      ensures Valid()
      ensures currentUserDirectory == old(currentUserDirectory) && directoryUserSettings == old(directoryUserSettings)
      ensures users == old(users)
      ensures forall n :: n in users ==> users[n].Owned() && HoldsLoaded(users[n], es, f0)
      ensures forall n :: n in users ==> StoreKinds(users[n].settings) == Schema(es)
      ensures var active := ActiveUserName(old(Marker()), hostname);
              if active in users then user == Some(users[active]) && Marker() == Some(TextFile(active))
              else user == old(user) && fs.root == old(fs.root)
      ensures ChangedOnlyIn(old(fs.root), fs.root, currentUserDirectory.value)
    {
      NoStoreIsManager(users, this);
      ghost var before := fs.root;
      label Loaded:
      var o := SetActiveUser(hostname);
      forall n | n in users ensures users[n].settings == old@Loaded(users[n].settings) {
      }
      forall n, t | n in users && t in Schema(es) && OneKind(es, t)
        ensures t in users[n].settings && LoadedFrom(users[n].settings[t], f0, users[n].directory, t)
      {
        var s := users[n].settings[t];
        assert unchanged@Loaded(StoreObject(s));
        assert old@Loaded(LoadedFrom(s, f0, users[n].directory, t));
      }
      forall n | n in users ensures HoldsLoaded(users[n], es, f0) {
      }
      var dir := currentUserDirectory.value;
      if o.Pass? {
        WriteChangesOnlyIn(before, dir, MarkerName, TextFile(ActiveUserName(ReadFile(before, dir, MarkerName), hostname)));
      }
    }

    /** The first steps of `set_users_directory`: `dir` becomes current,
        created empty when missing, and the users map is cleared. Creating
        the folder adds no sub-folder and no marker to it. */
    method OpenUsersDirectory(dir: Path)
      requires Wired()
      requires IsDir(fs.root, dir) || (dir != [] && IsDir(fs.root, dir[..|dir| - 1]))
      modifies this, fs
      ensures Wired() && currentUserDirectory == Some(dir) && users == map[]
      ensures user == old(user) && directoryUserSettings == old(directoryUserSettings)
      ensures IsDir(fs.root, dir)
      ensures Subdirs(fs.root, dir) == Subdirs(old(fs.root), dir)
      ensures forall q, m :: ReadFile(fs.root, q, m) == ReadFile(old(fs.root), q, m)
      ensures old(IsDir(fs.root, dir)) ==> fs.root == old(fs.root) && fs.writes == old(fs.writes)
      ensures !old(IsDir(fs.root, dir)) ==>
                && fs.root == PutFolder(old(fs.root), dir[..|dir| - 1], dir[|dir| - 1], EmptyFolder)
                && fs.writes == old(fs.writes) + 1
    {
      currentUserDirectory := Some(dir);
      users := map[];
      if !IsDir(fs.root, dir) {
        var parent, last := dir[..|dir| - 1], dir[|dir| - 1];
        assert dir == parent + [last];
        FolderAtChild(fs.root, parent, last);
        forall q, m ensures ReadFile(PutFolder(fs.root, parent, last, EmptyFolder), q, m) == ReadFile(fs.root, q, m) {
          PutEmptyKeepsFiles(fs.root, parent, last, q, m);
        }
        fs.Put(parent, last, EmptyFolder);
      }
      assert Subdirs(fs.root, dir) == Subdirs(old(fs.root), dir);
      assert IsDir(fs.root, usersRootDirectory);
    }

    /** The users of the current users directory, rebuilt from its sub-folders,
        each given every store registered for the directory, in order. */
    method LoadUsers(ghost f0: Folder) returns (o: Outcome)
      requires Wired() && currentUserDirectory.Some? && IsDir(fs.root, currentUserDirectory.value)
      requires forall q, m :: ReadFile(fs.root, q, m) == ReadFile(f0, q, m)
      requires users == map[] && MarkerIsText(Marker())
      modifies this, fs
      ensures Wired()
      ensures currentUserDirectory == old(currentUserDirectory) && user == old(user)
      ensures directoryUserSettings == old(directoryUserSettings)
      ensures o.Pass? || o == Fail(InvalidSettingsFormat)
      ensures o.Pass? ==>
                && Valid()
                && users.Keys == Subdirs(old(fs.root), currentUserDirectory.value)
                && Marker() == old(Marker())
                && (forall n :: n in users ==>
                      fresh(users[n])
                      && StoreKinds(users[n].settings) == Schema(Entries(Regs(directoryUserSettings, currentUserDirectory.value))))
                && (forall n :: n in users ==> users[n].Owned())
                && (forall n :: n in users ==>
                      HoldsLoaded(users[n], Entries(Regs(directoryUserSettings, currentUserDirectory.value)), f0))
      ensures forall q, m :: !UserFolder(q, currentUserDirectory.value, users.Keys) ==>
                ReadFile(fs.root, q, m) == ReadFile(f0, q, m)
    {
      var dir := currentUserDirectory.value;
      var loaded;
      loaded, o := LoadAll(fs, dir, Entries(Regs(directoryUserSettings, dir)), f0);
      if o.Fail? {
        users := loaded;
        return;
      }
      assert forall n :: n in loaded ==> loaded[n].Owned();
      Adopt(loaded, Entries(Regs(directoryUserSettings, dir)), f0);
    }

    /** The users map becomes `loaded`; the users' stores are left alone. */
    method Adopt(loaded: map<string, User>, ghost es: seq<(Kind, string)>, ghost f0: Folder)
      requires forall n :: n in loaded ==> loaded[n].Owned() && HoldsLoaded(loaded[n], es, f0)
      modifies this
      ensures users == loaded
      ensures currentUserDirectory == old(currentUserDirectory) && user == old(user)
      ensures directoryUserSettings == old(directoryUserSettings)
      ensures forall n :: n in users ==> users[n].Owned() && HoldsLoaded(users[n], es, f0)
    {
      NoStoreIsManager(loaded, this);
      users := loaded;
    }

    /** `set_user`: an unknown name fails unless `createIfMissing` asks for a
        new user; the user becomes active and the marker names it. */
    method SetUser(name: string, createIfMissing: bool) returns (o: Outcome)
      requires Valid()
      modifies this, fs
      ensures Valid()
      ensures currentUserDirectory == old(currentUserDirectory) && directoryUserSettings == old(directoryUserSettings)
      ensures o == if name in old(users) || createIfMissing then Pass else Fail(UnknownUser)
      ensures o.Fail? ==> users == old(users) && user == old(user) && fs.root == old(fs.root) && fs.writes == old(fs.writes)
      ensures o.Pass? ==> name in users && user == Some(users[name]) && Marker() == Some(TextFile(name))
      ensures name in old(users) ==>
                && users == old(users)
                && fs.root == WriteFile(old(fs.root), currentUserDirectory.value, MarkerName, TextFile(name))
                && fs.writes == old(fs.writes) + 1
      ensures name !in old(users) && createIfMissing ==>
                && users == old(users)[name := users[name]]
                && fresh(users[name]) && users[name].settings == map[]
                && FolderAt(fs.root, currentUserDirectory.value + [name]) == Some(EmptyFolder)
                && fs.root == WriteFile(PutFolder(old(fs.root), currentUserDirectory.value, name, EmptyFolder),
                                        currentUserDirectory.value, MarkerName, TextFile(name))
                && fs.writes == old(fs.writes) + 2
    {
      if name !in users {
        if createIfMissing {
          var added := AddUser(name, None);
        } else {
          return Fail(UnknownUser);
        }
      }
      Activate(name);
      o := Pass;
    }

    /** The known user `name` becomes active and the marker names it. */
    method Activate(name: string)
      requires Valid() && name in users
      modifies this, fs
      ensures Valid()
      ensures currentUserDirectory == old(currentUserDirectory) && directoryUserSettings == old(directoryUserSettings)
      ensures users == old(users) && user == Some(users[name]) && Marker() == Some(TextFile(name))
      ensures fs.root == WriteFile(old(fs.root), currentUserDirectory.value, MarkerName, TextFile(name))
      ensures fs.writes == old(fs.writes) + 1
      ensures forall q :: !IsPrefix(q, currentUserDirectory.value) ==> FolderAt(fs.root, q) == FolderAt(old(fs.root), q)
    {
      user := Some(users[name]);
      SaveActiveUser(name);
    }

    /** `_save_active_user`: writes the name into the marker. */
    method SaveActiveUser(name: string)
      requires Valid()
      modifies fs
      ensures Valid()
      ensures Marker() == Some(TextFile(name))
      ensures fs.root == WriteFile(old(fs.root), currentUserDirectory.value, MarkerName, TextFile(name))
      ensures fs.writes == old(fs.writes) + 1
      ensures forall q :: !IsPrefix(q, currentUserDirectory.value) ==> FolderAt(fs.root, q) == FolderAt(old(fs.root), q)
    {
      var dir := currentUserDirectory.value;
      ghost var before := fs.root;
      WriteChangesOnlyIn(fs.root, dir, MarkerName, TextFile(name));
      forall q | !IsPrefix(q, dir) ensures FolderAt(WriteFile(before, dir, MarkerName, TextFile(name)), q) == FolderAt(before, q) {
        WriteOutside(before, dir, MarkerName, TextFile(name), q);
      }
      fs.Write(dir, MarkerName, TextFile(name));
    }

    /** `get_user_list`: the user names in increasing order. */
    method GetUserList() returns (r: seq<string>)
      ensures StrictlySorted(r)
      ensures forall n :: n in r <==> n in users
      ensures |r| == |users|
    {
      r := [];
      var todo := users.Keys;
      while todo != {}
        invariant todo <= users.Keys
        invariant StrictlySorted(r)
        invariant forall n :: n in r <==> n in users && n !in todo
        invariant |r| + |todo| == |users|
        decreases todo
      {
        var n :| n in todo;
        r := InsertSorted(r, n);
        todo := todo - {n};
      }
    }

    /** `add_user`: a new user, either empty or as a copy of the folder of
        `fromUser` (a missing or empty `fromUser` means no copy). */
    method AddUser(name: string, fromUser: Option<string>) returns (o: Outcome)
      requires Valid()
      modifies this, fs
      ensures Valid()
      ensures currentUserDirectory == old(currentUserDirectory) && user == old(user)
      ensures directoryUserSettings == old(directoryUserSettings)
      ensures var cloning := fromUser.Some? && fromUser.value != "";
              o == if name in old(users) then Fail(UserAlreadyExists)
                   else if cloning && fromUser.value !in old(users) then Fail(UnknownSourceUser)
                   else Pass
      ensures o.Fail? ==> users == old(users) && fs.root == old(fs.root) && fs.writes == old(fs.writes)
      ensures o.Pass? ==>
                var dir := currentUserDirectory.value;
                var cloning := fromUser.Some? && fromUser.value != "";
                && name in users && users == old(users)[name := users[name]]
                && fresh(users[name]) && users[name].settings == map[]
                && FolderAt(fs.root, dir + [name])
                   == (if cloning then FolderAt(old(fs.root), dir + [fromUser.value]) else Some(EmptyFolder))
                && Subdirs(fs.root, dir) == Subdirs(old(fs.root), dir) + {name}
                && (forall m :: ReadFile(fs.root, dir, m) == ReadFile(old(fs.root), dir, m))
                && (forall n :: n != name ==> FolderAt(fs.root, dir + [n]) == FolderAt(old(fs.root), dir + [n]))
                && (cloning ==> FolderAt(old(fs.root), dir + [fromUser.value]).Some?)
                && fs.root == PutFolder(old(fs.root), dir, name,
                                        if cloning then FolderAt(old(fs.root), dir + [fromUser.value]).value else EmptyFolder)
                && fs.writes == old(fs.writes) + 1
    {
      var dir := currentUserDirectory.value;
      if name in users {
        return Fail(UserAlreadyExists);
      }
      var cloning := fromUser.Some? && fromUser.value != "";
      if cloning && fromUser.value !in users {
        return Fail(UnknownSourceUser);
      }
      ghost var root0, keys0 := fs.root, users.Keys;
      var u := NewUser(fs, dir, name, if cloning then fromUser else None);
      assert IsDir(root0, usersRootDirectory);
      ghost var users0 := users;
      KeysUpdate(users, name, u);
      users := users[name := u];
      forall n | n in users
        ensures users[n].name == n && users[n].fs == fs && users[n].directory == dir + [n]
      {
        if n != name {
          assert users[n] == users0[n];
        }
      }
      o := Pass;
    }

    /** `add_user_settings(users_directory, settings_type, settings_name)`:
        records the store for every user of that directory; a type other than
        'basic', 'parameter' or 'prioritylist' is dropped, though the
        directory's entry is still created. */
    method AddUserSettings(usersDirectory: Path, settingsType: string, settingsName: string)
      modifies this
      ensures directoryUserSettings == old(directoryUserSettings)[usersDirectory :=
                match ParseKind(settingsType)
                case None => Regs(old(directoryUserSettings), usersDirectory)
                case Some(k) => Register(Regs(old(directoryUserSettings), usersDirectory), k, settingsName)]
      ensures users == old(users) && user == old(user) && currentUserDirectory == old(currentUserDirectory)
    {
      var regs := Regs(directoryUserSettings, usersDirectory);
      match ParseKind(settingsType) {
        case None =>
        case Some(k) => regs := Register(regs, k, settingsName);
      }
      directoryUserSettings := directoryUserSettings[usersDirectory := regs];
    }

    /** `get_default_user_settings(settings, key)`: `get(key)` on the store
        `settings` of the user 'default'; nothing (`None`) when there is no
        such user or store, or when the store is a parameter store (its `get`
        needs two arguments, and the error is swallowed). */
    method GetDefaultUserSettings(settings: string, key: string) returns (r: Value)
      ensures DefaultUser !in users || settings !in users[DefaultUser].settings ==> r == Null
      ensures DefaultUser in users && settings in users[DefaultUser].settings ==>
                match users[DefaultUser].settings[settings]
                case BasicStore(b) => r == b.Get(key, Null)
                case PriorityStore(q) => r == q.Get(key, Null)
                case ParameterStore(_) => r == Null
    {
      if DefaultUser !in users {
        return Null;
      }
      var u := users[DefaultUser];
      if settings !in u.settings {
        return Null;
      }
      match u.settings[settings] {
        case BasicStore(b) => r := b.Get(key, Null);
        case PriorityStore(q) => r := q.Get(key, Null);
        case ParameterStore(_) => r := Null;
      }
    }

    /** `_get_active_user(user_directory)`: the user named by the marker of
        `userDirectory`, or of the current users directory when none is given. */
    method GetActiveUser(userDirectory: Option<Path>, hostname: string) returns (r: string)
      requires userDirectory.Some? || currentUserDirectory.Some?
      requires MarkerIsText(ReadFile(fs.root, if userDirectory.Some? then userDirectory.value else currentUserDirectory.value, MarkerName))
      ensures var d := if userDirectory.Some? then userDirectory.value else currentUserDirectory.value;
              r == ActiveUserName(ReadFile(fs.root, d, MarkerName), hostname)
      ensures ReadFile(fs.root, if userDirectory.Some? then userDirectory.value else currentUserDirectory.value, MarkerName).None? ==>
                r == hostname
    {
      var d := if userDirectory.Some? then userDirectory.value else currentUserDirectory.value;
      r := ActiveUserName(ReadFile(fs.root, d, MarkerName), hostname);
    }

    /** `set_active_user`: makes the marker's user (or the host's) active. */
    method SetActiveUser(hostname: string) returns (o: Outcome)
      requires Valid()
      modifies this, fs
      ensures Valid()
      ensures currentUserDirectory == old(currentUserDirectory) && directoryUserSettings == old(directoryUserSettings)
      ensures users == old(users)
      ensures var active := ActiveUserName(old(Marker()), hostname);
              && o == (if active in users then Pass else Fail(UnknownUser))
              && (o.Pass? ==>
                    && user == Some(users[active]) && Marker() == Some(TextFile(active))
                    && fs.root == WriteFile(old(fs.root), currentUserDirectory.value, MarkerName, TextFile(active))
                    && fs.writes == old(fs.writes) + 1)
              && (o.Fail? ==> user == old(user) && fs.root == old(fs.root) && fs.writes == old(fs.writes))
      ensures (forall n :: n in users ==> old(users[n].Owned())) ==> forall n :: n in users ==> users[n].Owned()
    {
      var active := GetActiveUser(None, hostname);
      o := SetUser(active, false);
      NoStoreIsManager(users, this);
      forall n | n in users && old(users[n].Owned()) ensures users[n].OwnedIn(old(fs.root)) {
      }
      var dir := currentUserDirectory.value;
      if o.Pass? {
        WriteChangesOnlyIn(old(fs.root), dir, MarkerName, TextFile(active));
      }
      forall n | n in users ensures users[n].directory != dir {
        assert |users[n].directory| != |dir|;
      }
      if forall n :: n in users ==> users[n].OwnedIn(old(fs.root)) {
        OwnedKept(users, dir, old(fs.root), fs.root);
      }
    }

    /** `set_default_user` */
    method SetDefaultUser() returns (o: Outcome)
      requires Valid()
      modifies this, fs
      ensures Valid() && users == old(users)
      ensures o == (if DefaultUser in users then Pass else Fail(UnknownUser))
      ensures o.Pass? ==>
                && user == Some(users[DefaultUser]) && Marker() == Some(TextFile(DefaultUser))
                && fs.root == WriteFile(old(fs.root), currentUserDirectory.value, MarkerName, TextFile(DefaultUser))
                && fs.writes == old(fs.writes) + 1
      ensures o.Fail? ==> user == old(user) && fs.root == old(fs.root) && fs.writes == old(fs.writes)
    {
      o := SetUser(DefaultUser, false);
    }

    /** `get_app_settings(par, key, default_value)`: the application setting,
        stored first when missing. */
    method GetAppSettings(par: string, key: string, defaultValue: Value) returns (r: Value)
      requires Wired() && appSettings.Valid()
      requires par == DirectoryParameter ==> IsScalar(defaultValue)
      modifies appSettings.store, fs
      ensures Wired() && appSettings.Valid()
      ensures r == appSettings.Get(par, key)
      ensures var old_ := Params(old(appSettings.store.data), par);
              appSettings.store.data == old(appSettings.store.data)[par := old_[key :=
                if key in old_ then old_[key] else Stored(par, defaultValue, appRootDirectory)]]
      ensures appSettings.store.SavedNow()
    {
      WriteKeepsDirs(fs.root, usersRootDirectory, FileName(AppSettingsName),
                     JsonFile(ParameterDocument(appSettings.store.data)), usersRootDirectory);
      r := appSettings.SetDefault(par, key, defaultValue, true);
      WriteMakesDir(old(fs.root), usersRootDirectory, FileName(AppSettingsName),
                    JsonFile(ParameterDocument(appSettings.store.data)));
    }

    /** `set_app_settings(par, key, value)` */
    method SetAppSettings(par: string, key: string, value: Value)
      requires Wired() && appSettings.Valid()
      requires par == DirectoryParameter ==> IsScalar(value)
      modifies appSettings.store, fs
      ensures Wired() && appSettings.Valid()
      ensures appSettings.store.data == old(appSettings.store.data)[par :=
                Params(old(appSettings.store.data), par)[key := Stored(par, value, appRootDirectory)]]
      ensures appSettings.store.SavedNow()
      ensures par != DirectoryParameter ==> appSettings.Get(par, key) == value
      ensures par == DirectoryParameter && value.Text? && !Contains(value.s, Token) ==> appSettings.Get(par, key) == value
    {
      appSettings.Set(par, key, value, true);
      WriteMakesDir(old(fs.root), usersRootDirectory, FileName(AppSettingsName),
                    JsonFile(ParameterDocument(appSettings.store.data)));
    }
  }

  /** After a clone, a write into the new user's folder leaves the source
      user's folder as it was: the copy shares nothing with the original. */
  lemma CloneIndependent(f: Folder, dir: Path, source: string, clone: string, name: string, file: File)
    requires source != clone
    ensures FolderAt(WriteFile(f, dir + [clone], name, file), dir + [source]) == FolderAt(f, dir + [source])
  {
    var q, p := dir + [source], dir + [clone];
    assert |q| == |p| && q[|dir|] != p[|dir|];
    assert p[..|q|] == p;
    WriteOutside(f, dir + [clone], name, file, dir + [source]);
  }

  /** A new clone holds exactly what the source user's folder held. */
  lemma CloneCopies(f: Folder, dir: Path, source: string, clone: string)
    requires IsDir(f, dir) && IsDir(f, dir + [source])
    ensures FolderAt(PutFolder(f, dir, clone, FolderAt(f, dir + [source]).value), dir + [clone]) == FolderAt(f, dir + [source])
  {
    PutFolderAt(f, dir, clone, FolderAt(f, dir + [source]).value);
  }
}
