/** The process-wide application settings (`AppSettings`): a parameter store
    whose values under the parameter 'directory' are kept relative to the
    install root. On the way in every occurrence of the install root is
    replaced by the token 'root'; on the way out every 'root' is replaced by
    the install root. */
module App {
  import opened Common
  import opened Disk
  import opened Strings
  import opened Settings

  const Token := "root"
  const DirectoryParameter := "directory"

  /** `_convert_path_to_root` */
  function ToRoot(path: string, appRoot: string): string
  {
    Replace(path, appRoot, Token)
  }

  /** `_convert_root_to_path` */
  function ToPath(stored: string, appRoot: string): string
  {
    Replace(stored, Token, appRoot)
  }

  /** The value stored for `value` under `par`: directory values become text
      relative to the install root (`str(value)` first), others are kept. */
  function Stored(par: string, value: Value, appRoot: string): Value
    requires par == DirectoryParameter ==> IsScalar(value)
  {
    if par == DirectoryParameter then Text(ToRoot(PyStr(value), appRoot)) else value
  }

  /** The value handed out for a stored `value` under `par`. */
  function Expanded(par: string, value: Value, appRoot: string): Value
    requires par == DirectoryParameter ==> IsScalar(value)
  {
    if par == DirectoryParameter then Text(ToPath(PyStr(value), appRoot)) else value
  }

  /** Every value under 'directory' is a scalar, so `str()` of it is defined. */
  predicate DirectoriesAreScalars(data: map<string, map<string, Value>>)
  {
    DirectoryParameter in data ==>
      forall k :: k in data[DirectoryParameter] ==> IsScalar(data[DirectoryParameter][k])
  }

  lemma {:induction false} ReplaceEmptyStartsWithRep(s: string, rep: string)
    ensures |Replace(s, [], rep)| >= |rep| && Replace(s, [], rep)[..|rep|] == rep
  {
  }

  /** With an empty install root every path survives the round trip. */
  lemma {:induction false} EmptyRootRoundTrip(p: string)
    ensures ToPath(ToRoot(p, []), []) == p
    decreases |p|
  {
    if p == [] {
      assert ToRoot(p, []) == Token;
      assert Token[..4] == Token && Token[4..] == [];
    } else {
      var x := ToRoot(p[1..], []);
      ReplaceEmptyStartsWithRep(p[1..], Token);
      EmptyRootRoundTrip(p[1..]);
      var y := [p[0]] + x;
      assert ToRoot(p, []) == Token + y;
      assert (Token + y)[..4] == Token && (Token + y)[4..] == y;
      assert y[..4] != Token by {
        assert y[3] == x[2] == 'o';
      }
      assert y[1..] == x;
      assert ToPath(Token + y, []) == ToPath(y, []);
      assert ToPath(y, []) == [p[0]] + ToPath(x, []);
    }
  }

  /** After the install root is replaced, a result not starting with 'r' shows
      the input's first character and continues with the rest replaced. */
  lemma ReplaceHead(q: string, a: string)
    requires a != []
    ensures var x := Replace(q, a, Token);
            x != [] && x[0] != 'r' ==> q != [] && x[0] == q[0] && x[1..] == Replace(q[1..], a, Token)
  {
  }

  /** A replaced string can start with 'root' after one extra character only
      if the original itself starts with 'root'. */
  lemma NoTokenAcrossBoundary(p: string, a: string)
    requires a != [] && p != []
    ensures var y := [p[0]] + Replace(p[1..], a, Token);
            |y| >= 4 && y[..4] == Token ==> |p| >= 4 && p[..4] == Token
  {
    var y := [p[0]] + Replace(p[1..], a, Token);
    if |y| >= 4 && y[..4] == Token {
      var x1 := Replace(p[1..], a, Token);
      assert x1[0] == y[1] == 'o';
      ReplaceHead(p[1..], a);
      assert p[1..][1..] == p[2..];
      var x2 := Replace(p[2..], a, Token);
      assert x2[0] == x1[1] == y[2] == 'o';
      ReplaceHead(p[2..], a);
      assert p[2..][1..] == p[3..];
      var x3 := Replace(p[3..], a, Token);
      assert x3[0] == x2[1] == y[3] == 't';
      ReplaceHead(p[3..], a);
      assert p[1] == 'o' && p[2] == 'o' && p[3] == 't';
    }
  }

  /** A path without the text 'root' comes back unchanged after being stored
      relative to the install root and expanded again, whatever the install root. */
  lemma {:induction false} RootRoundTrip(p: string, appRoot: string)
    requires !Contains(p, Token)
    ensures ToPath(ToRoot(p, appRoot), appRoot) == p
    decreases |p|
  {
    var a := appRoot;
    if a == [] {
      EmptyRootRoundTrip(p);
    } else if |p| < |a| {
      ReplaceAbsent(p, Token, a);
    } else if p[..|a|] == a {
      var rest := p[|a|..];
      assert !Contains(rest, Token) by {
        SuffixLacks(p, |a|);
      }
      RootRoundTrip(rest, a);
      var x := ToRoot(rest, a);
      assert ToRoot(p, a) == Token + x;
      assert (Token + x)[..4] == Token && (Token + x)[4..] == x;
      assert p == a + rest;
    } else {
      assert !Contains(p[1..], Token);
      RootRoundTrip(p[1..], a);
      var y := [p[0]] + ToRoot(p[1..], a);
      assert ToRoot(p, a) == y;
      NoTokenAcrossBoundary(p, a);
      assert y[1..] == ToRoot(p[1..], a);
      assert p == [p[0]] + p[1..];
    }
  }

  lemma {:induction false} SuffixLacks(p: string, k: nat)
    requires k <= |p| && !Contains(p, Token)
    ensures !Contains(p[k..], Token)
    decreases k
  {
    if k > 0 {
      assert !Contains(p[1..], Token);
      SuffixLacks(p[1..], k - 1);
      assert p[1..][k - 1..] == p[k..];
    }
  }

  /** The round trip is lossy for a path that contains 'root' itself. */
  lemma RoundTripLossy()
    ensures ToPath(ToRoot("/root", "/a"), "/a") == "//a"
  {
    assert ToRoot("/root", "/a") == "/root";
    assert ToPath("/root", "/a") == "/" + ToPath("root", "/a");
  }

  /** A path under install root `r1`, stored and read back by an installation
      at `r2`, is the same relative path under `r2`. */
  lemma Relocated(r1: string, r2: string, rest: string)
    requires r1 != [] && !Contains(rest, r1) && !Contains(rest, Token)
    ensures ToPath(ToRoot(r1 + rest, r1), r2) == r2 + rest
  {
    assert (r1 + rest)[..|r1|] == r1 && (r1 + rest)[|r1|..] == rest;
    ReplaceAbsent(rest, r1, Token);
    assert ToRoot(r1 + rest, r1) == Token + rest;
    assert (Token + rest)[..4] == Token && (Token + rest)[4..] == rest;
    ReplaceAbsent(rest, Token, r2);
  }

  class AppSettings {
    const store: UserSettingsParameter
    const appRootDirectory: string

    ghost predicate Valid()
      reads store
    {
      DirectoriesAreScalars(store.data)
    }

    constructor (fs: FileSystem, directory: Path, appRootDirectory: string, name: string, user: Option<string>)
      requires LoadParameters(fs.root, directory, name).Some?
      requires DirectoriesAreScalars(LoadParameters(fs.root, directory, name).value)
      modifies fs
      ensures Valid() && fresh(store) && this.appRootDirectory == appRootDirectory
      ensures store.fs == fs && store.directory == directory && store.name == name && store.user == user
      ensures store.data == LoadParameters(old(fs.root), directory, name).value
      ensures fs.root == OpenedDisk(old(fs.root), directory, name)
      ensures fs.writes == old(fs.writes) + OpenWrites(old(fs.root), directory, name)
      ensures store.Saved()
    {
      store := new UserSettingsParameter(fs, directory, name, user);
      this.appRootDirectory := appRootDirectory;
    }

    /** `get(par, key)`: under 'directory' the stored text is expanded against
        the install root; a missing directory value comes back as the text
        'None' (`str(None)`), not as `None`. */
    function Get(par: string, key: string): Value
      requires Valid()
      reads this, store
    {
      Expanded(par, store.Get(par, key), appRootDirectory)
    }

    function GetSettings(par: Option<string>): Value
      reads this, store
    {
      store.GetSettings(par)
    }

    /** `setdefault(par, key, value)`: stores the (converted) value unless one
        is present, saves, and returns the stored value expanded. */
    method SetDefault(par: string, key: string, value: Value, save: bool) returns (r: Value)
      requires Valid()
      requires par == DirectoryParameter ==> IsScalar(value)
      modifies store, store.fs
      ensures Valid()
      ensures IsDefault(store.user) ==> r == Null && store.data == old(store.data) && DiskUnchanged(store.fs)
      ensures !IsDefault(store.user) ==>
                var s := if key in Params(old(store.data), par) then Params(old(store.data), par)[key]
                         else Stored(par, value, appRootDirectory);
                && store.data == old(store.data)[par := Params(old(store.data), par)[key := s]]
                && r == Expanded(par, s, appRootDirectory)
                && r == Get(par, key)
                && (if save then store.SavedNow() && store.Saved() else DiskUnchanged(store.fs))
    {
      if IsDefault(store.user) {
        return Null;
      }
      var v := Stored(par, value, appRootDirectory);
      var s := store.SetDefault(par, key, v, save);
      r := Expanded(par, s, appRootDirectory);
    }

    /** `set(par, key, value)`: stores the (converted) value and saves. A
        directory without the text 'root' reads back as it was set. */
    method Set(par: string, key: string, value: Value, save: bool)
      requires Valid()
      requires par == DirectoryParameter ==> IsScalar(value)
      modifies store, store.fs
      ensures Valid()
      ensures IsDefault(store.user) ==> store.data == old(store.data) && DiskUnchanged(store.fs)
      ensures !IsDefault(store.user) ==>
                && store.data == old(store.data)[par := Params(old(store.data), par)[key := Stored(par, value, appRootDirectory)]]
                && (if save then store.SavedNow() && store.Saved() else DiskUnchanged(store.fs))
      ensures !IsDefault(store.user) && par != DirectoryParameter ==> Get(par, key) == value
      ensures !IsDefault(store.user) && par == DirectoryParameter && value.Text? && !Contains(value.s, Token) ==>
                Get(par, key) == value
    {
      if IsDefault(store.user) {
        return;
      }
      store.Set(par, key, Stored(par, value, appRootDirectory), save);
      if par == DirectoryParameter && value.Text? && !Contains(value.s, Token) {
        RootRoundTrip(value.s, appRootDirectory);
      }
    }
  }
}
