# Settings persistence of SHARKtools, modelled in Dafny

This project models the settings core of SHARKtools (`core/user.py`). The core is a small, hierarchical key-value store kept in JSON files. A users directory holds one folder per user. Each user folder holds that user's settings stores, one `<name>.json` file each. The marker file `.active` names the active user. The users root directory also holds the process-wide application settings (`app_settings.json`).

The model has eight modules:

- `Common`: JSON values, `Option`, the error kinds, and `Outcome`/`Result`.
- `Disk`: the file system as a value-typed folder tree, owned by one `FileSystem` object. It has `Write` (open for writing, creating missing folders) and `Put` (`os.mkdir` and `shutil.copytree`). It also carries lemmas about what each of these changes and what it leaves alone.
- `Strings`: the Python string operations the core relies on. These are `str.replace`, `in`, `strip`, `readline`, the case-insensitive `startswith('chl')` test, `str()` of a scalar, and the ordering `sorted` uses.
- `Settings`: the flat store `UserSettings` (`key -> value`) and the two-level store `UserSettingsParameter` (`par -> key -> value`). Both are classes. Each method updates `data` in place and saves the whole mapping, and the user `default` is read-only.
- `App`: `AppSettings`, a parameter store whose values under `directory` are stored relative to the install root (the token `root`). It holds the round-trip lemmas for that conversion.
- `Priority`: `UserSettingsPriorityList`, with `set_priority` (move to front) and `get_priority` (the three-tier choice).
- `Registry`: the settings registered per users directory (`directory_user_settings`), and which store each user ends up with.
- `Users`: `User` and `UserManager`. They rebuild the users of a directory, add and clone users, choose the active user through the `.active` marker, and give access to the application settings.

Errors the source raises as exceptions become `Fail(...)` outcomes or `Err(...)` results. The host name and the disk are parameters.

## Model

| member | source | states |
|---|---|---|
| Disk.ReadAfterWrite | core/user.py:235-236 | after a store file is written, reading it gives the written document and every other file of every folder reads as before |
| Disk.WriteKeepsDirs | core/user.py:235-236 | writing a file into an existing folder creates no folder and changes no folder listing |
| Disk.WriteChangesOnlyIn | core/user.py:235-236 | such a write changes nothing but the files of that one folder |
| Disk.WriteChangesOnlyFile | core/user.py:235-236 | a save into an existing folder changes its own file and no other file of that folder, and nothing outside the folder |
| Disk.WriteMakesDir | core/user.py:181-185 | after a write the file's folder exists (`os.makedirs` followed by the save) |
| Disk.WriteTwice | core/user.py:476-477 | a second save of the same file fully overrides the first |
| Disk.WriteOutside | core/user.py:141-144 | a write leaves every folder outside its own path, with its whole subtree, as it was |
| Disk.FolderAtChild | core/user.py:42-44 | a folder `p/x` exists exactly when `p` exists and lists `x` among its sub-folders, and it is that sub-folder |
| Disk.PutFolderAt | core/user.py:82-84 | after `mkdir`/`copytree` the new folder is exactly the placed folder, and the parent keeps its files and gains one name |
| Disk.PutFolderKeepsDirs | core/user.py:152-153 | creating a folder under a new name keeps every existing folder |
| Disk.PutFolderSiblings | core/user.py:82-84 | creating a folder leaves every other sub-folder of the parent unchanged |
| Disk.PutFolderAdds | core/user.py:82-84 | creating a folder adds exactly one sub-folder name, keeps the parent's files, the siblings and every existing folder |
| Disk.PutEmptyKeepsFiles | core/user.py:37-38 | creating an empty folder under a new name changes no file anywhere |
| Disk.FileSystem.Write | core/user.py:235-236 | the disk becomes the old disk with the file written, the file reads back, its folder exists, one more write |
| Disk.FileSystem.Put | core/user.py:82-84 | the disk gains the new folder as described by `Added`, one more write |
| Strings.ReplaceAbsent | core/user.py:383-389 | `replace` of a pattern that does not occur returns the string unchanged |
| Strings.StripFixed | core/user.py:138 | `strip()` leaves a string unchanged exactly when it has no whitespace at either end, and never lengthens it |
| Strings.FirstLineShape | core/user.py:138 | the line `readline` returns is a prefix of the text, equal to it exactly when the text has no line break |
| Strings.LessIrreflexive | core/user.py:73-74 | no name sorts before itself |
| Strings.LessTotal | core/user.py:73-74 | of two different names one sorts before the other |
| Strings.LessTransitive | core/user.py:73-74 | the string order `sorted` uses is transitive |
| Strings.LessAsymmetric | core/user.py:73-74 | two names never sort before each other |
| Settings.LoadParametersDocument | core/user.py:189-197 | a loadable parameter file holds the document of the mapping it loads as |
| Settings.ParameterRoundTrip | core/user.py:189-197 | a parameter store file written by `save` loads again as the same two-level mapping |
| Settings.UserSettings.constructor | core/user.py:173-187 | opening a store creates a missing file holding `{}` (one write) and loads the file's mapping; the file then holds `data` |
| Settings.UserSettings.Save | core/user.py:216-237 | one write, after which the file holds exactly the in-memory mapping |
| Settings.UserSettings.SetDefault | core/user.py:251-268 | `default` user: fails with `DefaultUserImmutable` and writes nothing; a truthy stored value is returned with no write; a falsy stored value is returned and saved; a missing key gets `value`, which is returned and saved |
| Settings.UserSettings.Set | core/user.py:270-284 | `default` user: no change, no write; otherwise `data` becomes `data[key := value]` (every other key unchanged) and is saved when asked |
| Settings.UserSettings.Remove | core/user.py:293-298 | deletes exactly `key` and saves; no change and no write for `default` or an absent key |
| Settings.UserSettings.Reset | core/user.py:300-304 | empties `data` and saves; no change and no write for `default` |
| Settings.UserSettingsParameter.constructor | core/user.py:308-309 | opens like the flat store and loads the two-level mapping |
| Settings.UserSettingsParameter.Save | core/user.py:216-237 | one write, after which the file holds the document of `data` |
| Settings.UserSettingsParameter.SetDefault | core/user.py:311-325 | `default` user: returns `None`, no change, no write; otherwise the parameter is created on demand, an existing value is kept and returned, a missing one is set to `value`; `get(par, key)` then returns the result |
| Settings.UserSettingsParameter.Set | core/user.py:327-341 | `default` user: no change, no write; otherwise `get(par, key) == value`, every other `(par, key)` reads as before, saved when asked |
| Settings.UserSettingsParameter.Remove | core/user.py:293-298 | the inherited `remove` drops exactly one parameter and saves; no-op for `default` or an absent parameter |
| Settings.UserSettingsParameter.Reset | core/user.py:300-304 | the inherited `reset` empties the store and saves; no-op for `default` |
| App.EmptyRootRoundTrip | core/user.py:383-389 | with an empty install root, storing a path and reading it back gives the path again |
| App.RootRoundTrip | core/user.py:383-389 | a path without the text `root` survives storing and reading back, whatever the install root |
| App.RoundTripLossy | core/user.py:383-389 | a path containing `root` does not survive: `/root` stored under install root `/a` reads back as `//a` |
| App.Relocated | core/user.py:383-389 | a path under install root `r1`, stored and then read by an installation at `r2`, reads as the same relative path under `r2` |
| App.ToRoot | core/user.py:387-389 | `_convert_path_to_root` replaces every occurrence of the install root by `root`; what it means for stored paths is stated by `App.EmptyRootRoundTrip`, `App.RootRoundTrip`, `App.RoundTripLossy` and `App.Relocated` |
| App.ToPath | core/user.py:383-385 | `_convert_root_to_path` replaces every occurrence of `root` by the install root; the same four lemmas state when it undoes `App.ToRoot` and when it does not |
| App.AppSettings.constructor | core/user.py:379-381 | opens the parameter store with the given install root and owner |
| App.AppSettings.SetDefault | core/user.py:391-412 | a directory value is stored with the install root replaced by `root`, other values verbatim; an existing value is kept; the result is the stored value expanded again, equal to `get(par, key)` |
| App.AppSettings.Set | core/user.py:414-432 | stores the converted value and saves; a non-directory value reads back as given; a directory text without `root` reads back as the same text (before `Path` normalisation) |
| App.AppSettings.Get | core/user.py:434-444 | `get(par, key)`, with directory values expanded against the install root; what it returns after a write is stated by the contracts of `App.AppSettings.Set` and `App.AppSettings.SetDefault` |
| Priority.RemoveFirst | core/user.py:482-483 | `pop(index(x))`: one element shorter when `x` occurs, unchanged otherwise, and the multiset loses one `x`; which element goes and that the rest keep their order are `Priority.RemoveFirstAt` and `Priority.RemoveFirstKeepsOthers` |
| Priority.RemoveFirstAt | core/user.py:482-483 | on any list, `pop(index(x))` removes exactly the first occurrence of `x`: the list becomes the items before it followed by the items after it |
| Priority.RemoveFirstKeepsOthers | core/user.py:482-483 | on any list, duplicates included, removing the first `x` keeps every item other than `x` in its relative order |
| Priority.RemoveFirstIsWithout | core/user.py:482-483 | on a list without duplicates, removing the first occurrence of `x` removes every occurrence and keeps the order of the rest |
| Priority.MoveToFrontShape | core/user.py:482-484 | after `set_priority(x)` the list starts with `x`, grows by one only when `x` was absent, and loses no element |
| Priority.MoveToFrontKeepsOthers | core/user.py:482-484 | on any list, duplicates included, the items behind the new head, other than `x`, are the old items other than `x` in their order |
| Priority.MoveToFrontNoDuplicates | core/user.py:482-484 | on a list without duplicates, `set_priority(x)` keeps it without duplicates, and the rest of the list is the old list without `x`, in its order |
| Priority.MoveToFront | core/user.py:482-484 | the list after `set_priority(x)` starts with `x` and keeps its length when `x` was already in it; its multiset is `Priority.MoveToFrontShape`, and the order of the other items is `Priority.MoveToFrontKeepsOthers` |
| Priority.FirstStoredIndex | core/user.py:488-490 | the index of the first stored item that is a candidate; no earlier stored item is one |
| Priority.FirstChlIndex | core/user.py:492-493 | the index of the first candidate starting with `chl` in any case; no earlier candidate does |
| Priority.ResolveSpec | core/user.py:487-496 | the answer is always a candidate: the earliest stored match if there is one; else the first `chl` candidate, promoted; else the first candidate; only a `chl` candidate is promoted |
| Priority.Resolve | core/user.py:487-496 | the chosen item is a candidate, and it is promoted only when it was not in the stored list (the three tiers are `Priority.ResolveSpec`) |
| Priority.ResolveExamples | core/user.py:487-496 | stored `["b","a"]` with candidates `["a","c"]` gives `"a"`; an empty list with `["salinity","chlorophyll_a"]` gives `"chlorophyll_a"`, promoted so that the list becomes `["chlorophyll_a"]`; with no match and no `chl` candidate the first candidate is returned, not promoted |
| Priority.PriorityRoundTrip | core/user.py:473-477 | a priority store file written by `save` loads again as the same list and the same other entries |
| Priority.UserSettingsPriorityList.constructor | core/user.py:473-477 | opens like the flat store, keeps the loaded list (empty when missing) and saves, for every user |
| Priority.UserSettingsPriorityList.Save | core/user.py:216-237 | one write, after which the file holds the other entries and the list |
| Priority.UserSettingsPriorityList.SetPriority | core/user.py:479-485 | `default` user: no change, no write; otherwise the list becomes `MoveToFront(list, item)` and is saved; a list without duplicates stays so, with `item` at its head |
| Priority.UserSettingsPriorityList.GetPriority | core/user.py:487-496 | the answer is `Resolve(list, cands)` and is a candidate; the list changes (to `MoveToFront`, saved) only when a `chl` candidate is promoted by a non-default user; otherwise nothing is written; no duplicates are introduced |
| Registry.RegisterInserts | core/user.py:90-102 | a registration adds exactly one `(type, name)` entry, at the end of its type's group (a new type goes last) |
| Registry.RegisterDistinct | core/user.py:91-102 | registering keeps one group per type |
| Registry.SchemaInsert | core/user.py:54-58 | one more opened store names a store; other names keep their kind; it keeps its own kind unless a later store of the same name has another kind |
| Registry.RegisterSchema | core/user.py:90-102 | after a registration every user of the directory gets the name, every other name keeps its kind, and the name has the registered kind unless it is also registered under another type |
| Registry.FirstTypeOrderWins | core/user.py:53-58 | registering ('basic','a'), ('parameter','a'), ('basic','a') leaves 'a' a parameter store: the order of the type groups decides, not the order of the calls |
| Registry.Register | core/user.py:90-102 | `add_user_settings` on the directory's registrations; stated by `Registry.RegisterInserts` (exactly one entry, at the end of its type's group), `Registry.RegisterDistinct` and `Registry.RegisterSchema` |
| Users.User.constructor | core/user.py:148-153 | the user's folder is `dir/name`; it is created (one write, nothing else changed) only when missing |
| Users.User.AddUserSettings | core/user.py:159-166 | a loadable file: the store is opened for this user in the user's folder, holding the file's contents, and replaces any earlier store of that name, with the given kind; only that store's file changes, so every other store stays owned and saved; an unloadable file fails with nothing changed |
| Users.OwnedAfterOpen | core/user.py:159-166 | opening store `key` keeps every other store of the user owned and saved (their files are untouched), and the updated map holds the opened store owned and saved |
| Users.User.AddRegisteredSettings | core/user.py:54-58 | opening the entries in order gives the kinds `Schema(entries)` on top of the earlier stores; every store stays the user's own (its folder, name and owner) and saved; every name registered under one kind holds what its file held before the walk; only files of the user's folder change |
| Users.LoadStep | core/user.py:57-58 | after one more store is opened, every name opened so far under one kind still loads as it did before the walk, and the files of names not yet opened are untouched |
| Users.LoadedFromAll | core/user.py:54-58 | once the walk is done, every store registered under one kind holds what its file held before the walk |
| Users.MarkerRoundTrip | core/user.py:129-144 | a marker written for `name` reads back as `name` exactly when `name` has no line break and no surrounding whitespace |
| Users.ActiveUserName | core/user.py:129-139 | `_get_active_user` on the marker and the host name; stated by `Users.MarkerRoundTrip` (a written name reads back exactly when it has no line break and no surrounding whitespace) and by `Users.UserManager.GetActiveUser` |
| Users.InsertSorted | core/user.py:73-74 | inserting into a strictly increasing list gives a strictly increasing list of the old names plus the new one |
| Users.SortedUnique | core/user.py:73-74 | two strictly increasing lists with the same names are equal, so `sorted` has one answer |
| Users.LoadUser | core/user.py:52-58 | a user is built for an existing sub-folder and given the registered stores, each owned by that user, in its folder, under its name, and saved; each store registered under one kind holds what its file held before the rebuild; only the user's own folder changes, and the users already built keep their stores saved and holding what they loaded |
| Users.BuildUser | core/user.py:52-58 | a user for an existing sub-folder, with the folder of its name and the registered stores, every store owned and saved, and each store registered under one kind holding what its file held before; only the user's own folder changes and the users directory keeps its folders and files |
| Users.BuildBeside | core/user.py:52-58 | building one more user leaves the stores of the users already built holding what their files held, and the new user's stores hold what its folder held before the rebuild |
| Users.OpenStore | core/user.py:159-165 | the store of the given kind is opened in the folder for the user, holding the file's contents, and saved; only its own file may change |
| Users.LoadAll | core/user.py:42-58 | one user per sub-folder of the directory, each with the folder of its name and, when no store fails, the kinds `Schema(entries)` with every store owned and saved and every store registered under one kind holding what its file held before the walk; the directory keeps its folders and files, and no file outside the users' own folders changes |
| Users.NewUser | core/user.py:82-88 | the disk becomes exactly the old one with the new folder placed: a copy of the source user's folder, or an empty folder; the directory gains exactly that name; files, sibling folders and all other folders are kept; one write |
| Users.UserManager.constructor | core/user.py:19-33 | no users directory is set, no users, no active user; `app_settings` is opened in the users root directory with no owner |
| Users.UserManager.SetUsersDirectory | core/user.py:35-62 | the directory becomes current (created when missing), its users are exactly its sub-folders, each fresh with the registered stores, every store owned by its user (so the stores of `default` are read-only), in the user's folder and saved, and every store registered under one kind holds what its file held before the call; the marker's (or host's) user becomes active with the marker rewritten, or, when unknown, `user` stays as it was and the marker is untouched; no file outside the directory's subtree changes; an unloadable store fails |
| Users.UserManager.Rebuild | core/user.py:36-58 | the directory becomes current and its users are exactly its sub-folders, each fresh, with its stores owned, saved and holding what their files held before; the marker and `user` are as before, and no file outside the directory's subtree changes |
| Users.UserManager.TryActiveUser | core/user.py:59-62 | the marker's (or host's) user becomes active with the marker rewritten; an unknown user is swallowed, leaving `user` and the disk as they were; the users' stores stay owned and keep what they loaded; only files of the users directory itself change |
| Users.UserManager.OpenUsersDirectory | core/user.py:35-39 | the directory becomes current and the users are cleared; when it exists the disk is unchanged, when missing it is placed empty under its parent with one write; every file reads as before, and its sub-folders and marker are as before |
| Users.UserManager.LoadUsers | core/user.py:39-58 | the users are exactly the sub-folders of the directory, each fresh with the stores of `Schema(Entries(...))`, every store owned by its user, in the user's folder and saved, and every store registered under one kind holding what its file held before; the marker and `user` are unchanged, and no file outside the users' own folders changes |
| Users.UserManager.Adopt | core/user.py:53 | the users map becomes the rebuilt users, whose stores stay owned and keep what they loaded; the directory, its registrations and `user` are unchanged |
| Users.UserManager.SetUser | core/user.py:64-71 | an unknown name fails with `UnknownUser` (nothing changed) unless `createIfMissing`, which adds a fresh user with an empty folder and keeps every existing user; on success `user` is that user and the marker holds its name; for a known user the disk is exactly the old one with the marker written (one write), for a created one the old one with the empty folder added and the marker written (two writes) |
| Users.UserManager.Activate | core/user.py:70-71 | the known user becomes active and the disk is exactly the old one with the marker written, with one write; the users are unchanged |
| Users.UserManager.SaveActiveUser | core/user.py:141-144 | the marker holds the name, and no folder outside the users directory changes |
| Users.UserManager.GetUserList | core/user.py:73-74 | strictly increasing, holding exactly the user names |
| Users.UserManager.AddUser | core/user.py:76-88 | a duplicate fails with `UserAlreadyExists`, a missing source with `UnknownSourceUser` (checked in that order, nothing changed); otherwise exactly one fresh user is added, and the disk is exactly the old one with its folder placed, a copy of the source's folder or empty (one write) |
| Users.UserManager.AddUserSettings | core/user.py:90-102 | the directory's entry is created; 'basic', 'parameter' and 'prioritylist' are registered by `Register`, any other type is dropped |
| Users.UserManager.GetDefaultUserSettings | core/user.py:104-111 | `get(key)` of the named store of user `default`; `None` when there is no such user or store, or for a parameter store |
| Users.UserManager.GetActiveUser | core/user.py:129-139 | the marker's first line stripped, or the host name when there is no marker |
| Users.UserManager.SetActiveUser | core/user.py:122-124 | the resolved user becomes active when it is known, and the disk is exactly the old one with the marker written (one write); otherwise it fails with nothing changed; every user's stores stay saved |
| Users.UserManager.SetDefaultUser | core/user.py:119-120 | user `default` becomes active when it exists, and the disk is exactly the old one with the marker written (one write); otherwise it fails with nothing changed |
| Users.UserManager.GetAppSettings | core/user.py:113-114 | `setdefault` on the application settings, saved; the result equals `get(par, key)` afterwards |
| Users.UserManager.SetAppSettings | core/user.py:116-117 | `set` on the application settings, saved; non-directory values read back as given, and directory texts without `root` read back as the same text (before `Path` normalisation) |
| Users.CloneIndependent | core/user.py:82-84 | after a clone, writing into the clone's folder leaves the source user's folder as it was |
| Users.CloneCopies | core/user.py:82-84 | a fresh clone holds exactly what the source user's folder held |

## Left out

- JSON text encoding and decoding are not modelled: a store file holds a decoded JSON value. JSON numbers are modelled as integers only.
- The datetime conversions (`datestring_to_datetime`, `datetime_to_datestring`, at core/user.py:199-209, 363-375 and 457-469) are foreign library calls and are left out. So is `path_to_string` (core/user.py:211-214), since the model has no `Path` values.
- The `time_string_format` argument and extra keyword arguments of stores are left out.
- Logging (`gui_logger.debug`) is left out.
- `socket.gethostname()` becomes the parameter `hostname`.
- Path objects, absolute paths and `os.path.join` are left out. A path is a sequence of folder names, and a user or store name is a single path component.
- A file and a folder may share a name in the model. A real file system forbids that.
- The order of `iterdir` and of the `users` and `data` dictionaries is left out: users are loaded in an arbitrary order, and the result does not depend on it. The order of the types in `directory_user_settings` is kept, as the `Registration` sequence (see `Registry.FirstTypeOrderWins`).
- Concurrency, file modification times and other processes writing to disk are left out. `writes` counts writes instead.
- `User.AddUserSettings` takes a valid kind. In the source an unknown type crashes, because `obj` is unbound.
- `User.AddUserSettings` does not model name collisions with the user's own attributes (`setattr(self, obj.name, obj)`; a store called `name` fails, `_name` or `user_directory` are overwritten). Stores form a map of their own.
- `Users.UserManager.GetDefaultUserSettings`: `getattr` of a non-store attribute (such as `user_directory`) yields `None` in the source through the swallowed error. The model also returns `None`, since such names are not stores.
- `Users.UserManager.SetUsersDirectory` ties a store to its file before the call only for names registered under one kind. A name registered under two kinds is opened twice, and the second store loads the file as the first one left it (created holding `{}`, or saved again by a priority list). For such a name the model states its kind and that it is owned and saved, not its contents.
- `Users.UserManager.SetUsersDirectory` requires the parent of a missing directory to exist, as `os.mkdir` does. A failing `mkdir` (an exception) is not modelled.
- `Users.UserManager.SetUsersDirectory`: when a store file fails to load, the source raises with the users map half rebuilt. The model returns `Fail(InvalidSettingsFormat)`, and its contract states only `Wired()` and the current directory for that case.
- The `.active` marker is required to be text (`MarkerIsText`). A binary marker, which would make `readline` fail, is not modelled.
- `Users.UserManager.constructor` requires `app_settings` to load as a parameter store, with scalar values under `directory`. A malformed file raises in the source and is not modelled.
- App.AppSettings.Get: the `Path` wrapping of directory values (core/user.py:384) is not modelled. `get`, `setdefault` and `get_app_settings` return the expanded text. The source returns a normalised `Path`, so `'/data/'` reads back as `/data`, `''` as `.` and `a//b` as `a/b`.
- `App.AppSettings.Set` and `App.AppSettings.SetDefault` require a directory value to be a scalar, because `str()` of a list or dictionary is not modelled.
- Priority-list loading is stricter than the source. A `priority_list` entry that is not a list of strings makes the store fail to load (`LoadPriority` is `None`), where the source would carry the odd value along.
- `UserSettingsPriorityList` does not model its inherited flat `set`, `setdefault`, `remove` and `reset`. Only `get`, `set_priority` and `get_priority` are modelled.
- The flat `get_keys`/`get_settings` and the parameter `get`/`get_settings` are plain reads of `data`. They are modelled as functions without contracts of their own.
- A failed active-user resolution in `set_users_directory` leaves `self.user` as it was (core/user.py:59-62). `SetUsersDirectory` ensures `user == old(user)` on that path.
