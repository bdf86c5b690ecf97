/** The part of the file system the settings core touches: a tree of folders
    holding files, addressed by paths (sequences of folder names from the root).
    A folder is a value, so copying a directory tree is copying a value. */
module Disk {
  import opened Common

  type Path = seq<string>

  /** A file is either plain text (the `.active` marker) or a JSON document
      (a settings store); the JSON text encoding itself is not modelled. */
  datatype File = TextFile(text: string) | JsonFile(doc: Value)

  datatype Folder = Folder(files: map<string, File>, subdirs: map<string, Folder>)

  const EmptyFolder := Folder(map[], map[])

  /** The folder at path `p`, if every folder on the way exists. */
  function FolderAt(f: Folder, p: Path): Option<Folder>
    decreases |p|
  {
    if p == [] then Some(f)
    else if p[0] in f.subdirs then FolderAt(f.subdirs[p[0]], p[1..])
    else None
  }

  predicate IsDir(f: Folder, p: Path)
  {
    FolderAt(f, p).Some?
  }

  /** The names of the sub-folders of `p` (empty when `p` is not a folder). */
  function Subdirs(f: Folder, p: Path): set<string>
  {
    match FolderAt(f, p)
    case Some(d) => d.subdirs.Keys
    case None => {}
  }

  function ReadFile(f: Folder, p: Path, name: string): Option<File>
  {
    match FolderAt(f, p)
    case Some(d) => if name in d.files then Some(d.files[name]) else None
    case None => None
  }

  predicate IsPrefix(q: Path, p: Path)
  {
    |q| <= |p| && q == p[..|q|]
  }

  /** Creates or overwrites file `name` in folder `p`; missing folders on the
      way are created (as `os.makedirs` followed by `open(..., 'w')`). */
  function WriteFile(f: Folder, p: Path, name: string, file: File): Folder
    decreases |p|
  {
    if p == [] then f.(files := f.files[name := file])
    else
      var sub := if p[0] in f.subdirs then f.subdirs[p[0]] else EmptyFolder;
      f.(subdirs := f.subdirs[p[0] := WriteFile(sub, p[1..], name, file)])
  }

  /** Places the folder `g` as sub-folder `name` of the existing folder `p`
      (`os.mkdir` places an empty folder, `shutil.copytree` a copy). */
  function PutFolder(f: Folder, p: Path, name: string, g: Folder): Folder
    requires IsDir(f, p)
    decreases |p|
  {
    if p == [] then f.(subdirs := f.subdirs[name := g])
    else f.(subdirs := f.subdirs[p[0] := PutFolder(f.subdirs[p[0]], p[1..], name, g)])
  }

  /** The folder structure is the same in `f` and `g`: same folders, same sub-folder names. */
  ghost predicate SameDirs(f: Folder, g: Folder)
  {
    forall q :: IsDir(f, q) == IsDir(g, q) && Subdirs(f, q) == Subdirs(g, q)
  }

  /** `g` differs from `f` at most in the files held directly by folder `p`. */
  ghost predicate ChangedOnlyIn(f: Folder, g: Folder, p: Path)
  {
    && SameDirs(f, g)
    && forall q, m :: q != p ==> ReadFile(g, q, m) == ReadFile(f, q, m)
  }

  /** Reading a file back after a write: the written file is there, every other file is as before. */
  lemma {:induction false} ReadAfterWrite(f: Folder, p: Path, name: string, file: File, q: Path, m: string)
    ensures ReadFile(WriteFile(f, p, name, file), q, m)
            == if q == p && m == name then Some(file) else ReadFile(f, q, m)
    decreases |p|
  {
    var w := WriteFile(f, p, name, file);
    if p == [] {
      if q != [] {
        assert w.subdirs == f.subdirs;
        assert FolderAt(w, q) == FolderAt(f, q);
      }
    } else {
      var sub := if p[0] in f.subdirs then f.subdirs[p[0]] else EmptyFolder;
      if q == [] {
        assert FolderAt(w, q) == Some(w);
      } else if q[0] == p[0] {
        ReadAfterWrite(sub, p[1..], name, file, q[1..], m);
        assert FolderAt(w, q) == FolderAt(WriteFile(sub, p[1..], name, file), q[1..]);
        if p[0] !in f.subdirs {
          EmptyHasNoFiles(q[1..], m);
        }
      } else {
        assert FolderAt(w, q) == FolderAt(f, q);
      }
    }
  }

  lemma {:induction false} EmptyHasNoFiles(q: Path, m: string)
    ensures ReadFile(EmptyFolder, q, m) == None
  {
    if q != [] {
      assert FolderAt(EmptyFolder, q) == None;
    }
  }

  /** Writing a file into an existing folder changes no folder and no folder listing. */
  lemma {:induction false} WriteKeepsDirs(f: Folder, p: Path, name: string, file: File, q: Path)
    requires IsDir(f, p)
    ensures IsDir(WriteFile(f, p, name, file), q) == IsDir(f, q)
    ensures Subdirs(WriteFile(f, p, name, file), q) == Subdirs(f, q)
    decreases |p|
  {
    var w := WriteFile(f, p, name, file);
    if p == [] {
      assert w.subdirs == f.subdirs;
      if q != [] {
        assert FolderAt(w, q) == FolderAt(f, q);
      }
    } else {
      var sub := f.subdirs[p[0]];
      assert w.subdirs.Keys == f.subdirs.Keys;
      if q != [] {
        if q[0] == p[0] {
          WriteKeepsDirs(sub, p[1..], name, file, q[1..]);
        } else {
          assert FolderAt(w, q) == FolderAt(f, q);
        }
      }
    }
  }

  /** A write into an existing folder `p` changes nothing but the files of `p`. */
  lemma WriteChangesOnlyIn(f: Folder, p: Path, name: string, file: File)
    requires IsDir(f, p)
    ensures ChangedOnlyIn(f, WriteFile(f, p, name, file), p)
  {
    var w := WriteFile(f, p, name, file);
    forall q ensures IsDir(f, q) == IsDir(w, q) && Subdirs(f, q) == Subdirs(w, q) {
      WriteKeepsDirs(f, p, name, file, q);
    }
    forall q, m | q != p ensures ReadFile(w, q, m) == ReadFile(f, q, m) {
      ReadAfterWrite(f, p, name, file, q, m);
    }
  }

  /** A write into an existing folder `p` changes the one file written and
      nothing else. */
  lemma WriteChangesOnlyFile(f: Folder, p: Path, name: string, file: File)
    requires IsDir(f, p)
    ensures ChangedOnlyIn(f, WriteFile(f, p, name, file), p)
    ensures forall m :: m != name ==> ReadFile(WriteFile(f, p, name, file), p, m) == ReadFile(f, p, m)
  {
    WriteChangesOnlyIn(f, p, name, file);
    forall m | m != name ensures ReadFile(WriteFile(f, p, name, file), p, m) == ReadFile(f, p, m) {
      ReadAfterWrite(f, p, name, file, p, m);
    }
  }

  /** Writing a file creates its folder. */
  lemma {:induction false} WriteMakesDir(f: Folder, p: Path, name: string, file: File)
    ensures IsDir(WriteFile(f, p, name, file), p)
    decreases |p|
  {
    if p != [] {
      var sub := if p[0] in f.subdirs then f.subdirs[p[0]] else EmptyFolder;
      WriteMakesDir(sub, p[1..], name, file);
    }
  }

  /** A second write of the same file overrides the first. */
  lemma {:induction false} WriteTwice(f: Folder, p: Path, name: string, x: File, y: File)
    ensures WriteFile(WriteFile(f, p, name, x), p, name, y) == WriteFile(f, p, name, y)
    decreases |p|
  {
    if p != [] {
      var sub := if p[0] in f.subdirs then f.subdirs[p[0]] else EmptyFolder;
      WriteTwice(sub, p[1..], name, x, y);
    }
  }

  /** A write never touches a folder outside the written path: every folder
      `q` that is not `p` or one of its ancestors keeps its whole subtree. */
  lemma {:induction false} WriteOutside(f: Folder, p: Path, name: string, file: File, q: Path)
    requires !IsPrefix(q, p)
    ensures FolderAt(WriteFile(f, p, name, file), q) == FolderAt(f, q)
    decreases |p|
  {
    assert q != [];
    var w := WriteFile(f, p, name, file);
    if p == [] {
      assert w.subdirs == f.subdirs;
    } else if q[0] == p[0] {
      var sub := if p[0] in f.subdirs then f.subdirs[p[0]] else EmptyFolder;
      assert !IsPrefix(q[1..], p[1..]);
      WriteOutside(sub, p[1..], name, file, q[1..]);
      if p[0] !in f.subdirs {
        EmptyHasNoFolders(q[1..]);
      }
    }
  }

  lemma {:induction false} EmptyHasNoFolders(q: Path)
    requires q != []
    ensures FolderAt(EmptyFolder, q) == None
  {
  }

  /** After placing `g` as `name` in `p`: `p` holds the same files, one more
      sub-folder name, and the new sub-folder is exactly `g`. */
  lemma {:induction false} PutFolderAt(f: Folder, p: Path, name: string, g: Folder)
    requires IsDir(f, p)
    ensures FolderAt(PutFolder(f, p, name, g), p)
            == Some(FolderAt(f, p).value.(subdirs := FolderAt(f, p).value.subdirs[name := g]))
    ensures FolderAt(PutFolder(f, p, name, g), p + [name]) == Some(g)
    decreases |p|
  {
    if p == [] {
      assert ([] + [name])[1..] == [];
    } else {
      PutFolderAt(f.subdirs[p[0]], p[1..], name, g);
      assert (p + [name])[1..] == p[1..] + [name];
    }
  }

  /** Placing an empty folder under a new name adds, removes and changes no file. */
  lemma {:induction false} PutEmptyKeepsFiles(f: Folder, p: Path, name: string, q: Path, m: string)
    requires IsDir(f, p) && name !in Subdirs(f, p)
    ensures ReadFile(PutFolder(f, p, name, EmptyFolder), q, m) == ReadFile(f, q, m)
    decreases |p|
  {
    var h := PutFolder(f, p, name, EmptyFolder);
    if q != [] {
      if p == [] {
        if q[0] == name {
          assert FolderAt(h, q) == FolderAt(EmptyFolder, q[1..]);
          EmptyHasNoFiles(q[1..], m);
        } else {
          assert FolderAt(h, q) == FolderAt(f, q);
        }
      } else if q[0] == p[0] {
        PutEmptyKeepsFiles(f.subdirs[p[0]], p[1..], name, q[1..], m);
        assert FolderAt(h, q) == FolderAt(PutFolder(f.subdirs[p[0]], p[1..], name, EmptyFolder), q[1..]);
      } else {
        assert FolderAt(h, q) == FolderAt(f, q);
      }
    }
  }

  /** Placing a folder under a new name keeps every existing folder. */
  lemma {:induction false} PutFolderKeepsDirs(f: Folder, p: Path, name: string, g: Folder, q: Path)
    requires IsDir(f, p) && name !in Subdirs(f, p)
    requires IsDir(f, q)
    ensures IsDir(PutFolder(f, p, name, g), q)
    decreases |p|
  {
    var h := PutFolder(f, p, name, g);
    if q != [] {
      if p == [] {
        assert q[0] != name;
        assert FolderAt(h, q) == FolderAt(f, q);
      } else if q[0] == p[0] {
        PutFolderKeepsDirs(f.subdirs[p[0]], p[1..], name, g, q[1..]);
      } else {
        assert FolderAt(h, q) == FolderAt(f, q);
      }
    }
  }

  /** A folder `p + [x]` exists exactly when `p` exists and lists `x` among its sub-folders. */
  lemma {:induction false} FolderAtChild(f: Folder, p: Path, x: string)
    ensures FolderAt(f, p + [x])
            == if IsDir(f, p) && x in Subdirs(f, p) then Some(FolderAt(f, p).value.subdirs[x]) else None
    ensures IsDir(f, p + [x]) <==> IsDir(f, p) && x in Subdirs(f, p)
    decreases |p|
  {
    if p == [] {
      assert ([] + [x])[1..] == [];
    } else {
      assert (p + [x])[0] == p[0] && (p + [x])[1..] == p[1..] + [x];
      if p[0] in f.subdirs {
        FolderAtChild(f.subdirs[p[0]], p[1..], x);
      }
    }
  }

  /** Placing a folder under `name` leaves every other sub-folder of `p` as it was. */
  lemma PutFolderSiblings(f: Folder, p: Path, name: string, g: Folder, n: string)
    requires IsDir(f, p) && n != name
    ensures FolderAt(PutFolder(f, p, name, g), p + [n]) == FolderAt(f, p + [n])
  {
    PutFolderAt(f, p, name, g);
    FolderAtChild(f, p, n);
    FolderAtChild(PutFolder(f, p, name, g), p, n);
  }

  /** `h` is `f` with the folder `g` placed as the new sub-folder `name` of `p`:
      the new folder is `g`, `p` lists one more name and holds the same files,
      every other sub-folder of `p` and every existing folder is still there. */
  ghost predicate Added(f: Folder, h: Folder, p: Path, name: string, g: Folder)
  {
    && FolderAt(h, p + [name]) == Some(g)
    && Subdirs(h, p) == Subdirs(f, p) + {name}
    && (forall m :: ReadFile(h, p, m) == ReadFile(f, p, m))
    && (forall n :: n != name ==> FolderAt(h, p + [n]) == FolderAt(f, p + [n]))
    && (forall q :: IsDir(f, q) ==> IsDir(h, q))
  }

  lemma PutFolderAdds(f: Folder, p: Path, name: string, g: Folder)
    requires IsDir(f, p) && name !in Subdirs(f, p)
    ensures Added(f, PutFolder(f, p, name, g), p, name, g)
  {
    var h := PutFolder(f, p, name, g);
    PutFolderAt(f, p, name, g);
    forall n | n != name ensures FolderAt(h, p + [n]) == FolderAt(f, p + [n]) {
      PutFolderSiblings(f, p, name, g, n);
    }
    forall q | IsDir(f, q) ensures IsDir(h, q) {
      PutFolderKeepsDirs(f, p, name, g, q);
    }
  }

  /** `g` has the folders of `f`, and the files of folder `p` are those of `f`. */
  ghost predicate Untouched(f: Folder, g: Folder, p: Path)
  {
    SameDirs(f, g) && forall m :: ReadFile(g, p, m) == ReadFile(f, p, m)
  }

  lemma ChangedOnlyInTrans(f: Folder, g: Folder, h: Folder, p: Path)
    requires ChangedOnlyIn(f, g, p) && ChangedOnlyIn(g, h, p)
    ensures ChangedOnlyIn(f, h, p)
  {
    forall q ensures IsDir(f, q) == IsDir(h, q) && Subdirs(f, q) == Subdirs(h, q) {
      assert IsDir(f, q) == IsDir(g, q) && Subdirs(f, q) == Subdirs(g, q);
    }
  }

  /** Changes confined to one folder leave any other folder's files alone. */
  lemma UntouchedAfter(f: Folder, g: Folder, h: Folder, p: Path, q: Path)
    requires Untouched(f, g, p) && ChangedOnlyIn(g, h, q) && q != p
    ensures Untouched(f, h, p)
  {
    forall r ensures IsDir(f, r) == IsDir(h, r) && Subdirs(f, r) == Subdirs(h, r) {
      assert IsDir(f, r) == IsDir(g, r) && Subdirs(f, r) == Subdirs(g, r);
    }
    forall m ensures ReadFile(h, p, m) == ReadFile(f, p, m) {
      assert ReadFile(h, p, m) == ReadFile(g, p, m);
    }
  }

  lemma UntouchedTrans(f: Folder, g: Folder, h: Folder, p: Path)
    requires Untouched(f, g, p) && Untouched(g, h, p)
    ensures Untouched(f, h, p)
  {
    forall r ensures IsDir(f, r) == IsDir(h, r) && Subdirs(f, r) == Subdirs(h, r) {
      assert IsDir(f, r) == IsDir(g, r) && Subdirs(f, r) == Subdirs(g, r);
    }
    forall m ensures ReadFile(h, p, m) == ReadFile(f, p, m) {
      assert ReadFile(h, p, m) == ReadFile(g, p, m);
    }
  }

  /** Nothing was written to disk `fs` between the two states. */
  twostate predicate DiskUnchanged(fs: FileSystem)
    reads fs
  {
    fs.root == old(fs.root) && fs.writes == old(fs.writes)
  }

  /** The disk: the folder tree and the number of write operations done on it
      (a stand-in for the files' modification times). */
  class FileSystem {
    var root: Folder
    var writes: nat

    constructor (root: Folder)
      ensures this.root == root && writes == 0
    {
      this.root := root;
      writes := 0;
    }

    /** `open(dir/name, 'w')` and write `file` (missing folders created first). */
    method Write(dir: Path, name: string, file: File)
      modifies this
      ensures root == WriteFile(old(root), dir, name, file)
      ensures writes == old(writes) + 1
      ensures ReadFile(root, dir, name) == Some(file)
      ensures IsDir(root, dir)
    {
      ReadAfterWrite(root, dir, name, file, dir, name);
      WriteMakesDir(root, dir, name, file);
      root := WriteFile(root, dir, name, file);
      writes := writes + 1;
    }

    /** `os.mkdir(dir/name)` or `shutil.copytree(src, dir/name)` into a name not yet taken. */
    method Put(dir: Path, name: string, g: Folder)
      requires IsDir(root, dir) && name !in Subdirs(root, dir)
      modifies this
      ensures root == PutFolder(old(root), dir, name, g)
      ensures writes == old(writes) + 1
      ensures Added(old(root), root, dir, name, g)
    {
      PutFolderAdds(root, dir, name, g);
      root := PutFolder(root, dir, name, g);
      writes := writes + 1;
    }
  }
}
