/** The priority-list store (`UserSettingsPriorityList`): an ordered list of
    preferred items kept under 'priority_list', used to pick one item out of
    a set of candidates. */
module Priority {
  import opened Common
  import opened Disk
  import opened Strings
  import opened Settings

  const PriorityListKey := "priority_list"

  predicate NoDuplicates(xs: seq<string>)
  {
    forall i, j :: 0 <= i < j < |xs| ==> xs[i] != xs[j]
  }

  /** `xs.pop(xs.index(x))` when `x in xs`: drops the first occurrence of `x`. */
  function RemoveFirst(xs: seq<string>, x: string): (r: seq<string>)
    ensures x in xs ==> |r| == |xs| - 1
    ensures x !in xs ==> r == xs
    ensures multiset(r) == multiset(xs) - multiset{x}
  {
    if xs == [] then []
    else
      assert xs == [xs[0]] + xs[1..];
      if xs[0] == x then xs[1..]
      else [xs[0]] + RemoveFirst(xs[1..], x)
  }

  /** The items of `xs` other than `x`, in their order. */
  function Without(xs: seq<string>, x: string): seq<string>
  {
    if xs == [] then []
    else (if xs[0] == x then [] else [xs[0]]) + Without(xs[1..], x)
  }

  /** `set_priority(item)` on the list: the item goes to the front, its first
      earlier occurrence is taken out. */
  function MoveToFront(xs: seq<string>, x: string): (r: seq<string>)
    ensures |r| > 0 && r[0] == x
    ensures x in xs ==> |r| == |xs|
  {
    [x] + RemoveFirst(xs, x)
  }

  lemma {:induction false} WithoutLacks(xs: seq<string>, x: string)
    ensures x !in Without(xs, x)
    ensures forall y :: y in Without(xs, x) ==> y in xs
    decreases |xs|
  {
    if xs != [] {
      WithoutLacks(xs[1..], x);
    }
  }

  lemma {:induction false} WithoutNoDuplicates(xs: seq<string>, x: string)
    requires NoDuplicates(xs)
    ensures NoDuplicates(Without(xs, x))
    decreases |xs|
  {
    if xs != [] {
      WithoutNoDuplicates(xs[1..], x);
      WithoutLacks(xs[1..], x);
      HeadNotInTail(xs);
    }
  }

  lemma HeadNotInTail(xs: seq<string>)
    requires NoDuplicates(xs) && xs != []
    ensures xs[0] !in xs[1..] && NoDuplicates(xs[1..])
  {
    forall j | 0 <= j < |xs| - 1
      ensures xs[1..][j] != xs[0]
    {
      assert xs[1..][j] == xs[j + 1];
    }
  }

  /** Without duplicates, taking out the first occurrence takes out every occurrence. */
  lemma {:induction false} RemoveFirstIsWithout(xs: seq<string>, x: string)
    requires NoDuplicates(xs)
    ensures RemoveFirst(xs, x) == Without(xs, x)
    decreases |xs|
  {
    if xs != [] {
      HeadNotInTail(xs);
      if xs[0] == x {
        WithoutAbsent(xs[1..], x);
      } else {
        RemoveFirstIsWithout(xs[1..], x);
      }
    }
  }

  /** `pop(index(x))` takes out exactly the first occurrence of `x`: the items
      before it and the items after it stay, in their order. */
  lemma {:induction false} RemoveFirstAt(xs: seq<string>, x: string, i: nat)
    requires i < |xs| && xs[i] == x && x !in xs[..i]
    ensures RemoveFirst(xs, x) == xs[..i] + xs[i + 1..]
    decreases i
  {
    if i == 0 {
      assert xs[..0] + xs[1..] == xs[1..];
    } else {
      assert xs[0] != x by { assert xs[..i][0] == xs[0]; }
      assert xs[1..][..i - 1] == xs[..i][1..];
      RemoveFirstAt(xs[1..], x, i - 1);
      RemoveFirstPastHead(xs, x);
      SpliceAfterHead(xs, i);
    }
  }

  lemma RemoveFirstPastHead(xs: seq<string>, x: string)
    requires xs != [] && xs[0] != x
    ensures RemoveFirst(xs, x) == [xs[0]] + RemoveFirst(xs[1..], x)
  {
  }

  lemma SpliceAfterHead(xs: seq<string>, i: nat)
    requires 0 < i < |xs|
    ensures xs[..i] + xs[i + 1..] == [xs[0]] + (xs[1..][..i - 1] + xs[1..][i..])
  {
    assert xs[1..][i..] == xs[i + 1..];
    assert xs[..i] == [xs[0]] + xs[1..][..i - 1];
  }

  /** Whatever `xs` holds, duplicates included, taking out the first `x`
      keeps every other item in its order. */
  lemma {:induction false} RemoveFirstKeepsOthers(xs: seq<string>, x: string)
    ensures Without(RemoveFirst(xs, x), x) == Without(xs, x)
    decreases |xs|
  {
    if xs != [] {
      RemoveFirstKeepsOthers(xs[1..], x);
      if xs[0] != x {
        assert ([xs[0]] + RemoveFirst(xs[1..], x))[1..] == RemoveFirst(xs[1..], x);
      }
    }
  }

  lemma {:induction false} WithoutAbsent(xs: seq<string>, x: string)
    requires x !in xs
    ensures Without(xs, x) == xs
    decreases |xs|
  {
    if xs != [] {
      WithoutAbsent(xs[1..], x);
    }
  }

  /** After `set_priority(x)` the item is at the front, nothing is lost, and
      the list grows only when `x` was not in it. */
  lemma MoveToFrontShape(xs: seq<string>, x: string)
    ensures var r := MoveToFront(xs, x);
            && r[0] == x
            && |r| == (if x in xs then |xs| else |xs| + 1)
            && multiset(r) == (if x in xs then multiset(xs) else multiset(xs) + multiset{x})
  {
    var r := MoveToFront(xs, x);
    assert multiset(r) == multiset{x} + multiset(RemoveFirst(xs, x));
  }

  /** For every list, duplicates included, `set_priority(x)` keeps the items
      other than `x` in their relative order behind the new head. */
  lemma MoveToFrontKeepsOthers(xs: seq<string>, x: string)
    ensures Without(MoveToFront(xs, x)[1..], x) == Without(xs, x)
  {
    assert MoveToFront(xs, x)[1..] == RemoveFirst(xs, x);
    RemoveFirstKeepsOthers(xs, x);
  }

  /** On a list without duplicates, `set_priority(x)` keeps it without
      duplicates, and every other item keeps its relative order. */
  lemma MoveToFrontNoDuplicates(xs: seq<string>, x: string)
    requires NoDuplicates(xs)
    ensures MoveToFront(xs, x)[1..] == Without(xs, x)
    ensures NoDuplicates(MoveToFront(xs, x))
  {
    RemoveFirstIsWithout(xs, x);
    WithoutNoDuplicates(xs, x);
    WithoutLacks(xs, x);
    ConsNoDuplicates(x, Without(xs, x));
  }

  lemma ConsNoDuplicates(x: string, w: seq<string>)
    requires NoDuplicates(w) && x !in w
    ensures NoDuplicates([x] + w)
  {
    var r := [x] + w;
    forall i, j | 0 <= i < j < |r| ensures r[i] != r[j] {
      assert r[j] == w[j - 1];
      if i > 0 {
        assert r[i] == w[i - 1];
      }
    }
  }

  /** Position of the first stored item that is among the candidates (|list| when none is). */
  function FirstStoredIndex(list: seq<string>, cands: seq<string>): (r: nat)
    ensures r <= |list|
    ensures r < |list| ==> list[r] in cands
    ensures forall j :: 0 <= j < r ==> list[j] !in cands
    decreases |list|
  {
    if list == [] then 0
    else if list[0] in cands then 0
    else 1 + FirstStoredIndex(list[1..], cands)
  }

  /** Position of the first candidate starting with 'chl' in any case (|cands| when none does). */
  function FirstChlIndex(cands: seq<string>): (r: nat)
    ensures r <= |cands|
    ensures r < |cands| ==> StartsWithChl(cands[r])
    ensures forall j :: 0 <= j < r ==> !StartsWithChl(cands[j])
    decreases |cands|
  {
    if cands == [] then 0
    else if StartsWithChl(cands[0]) then 0
    else 1 + FirstChlIndex(cands[1..])
  }

  /** The three-tier choice of `get_priority`: the chosen item, and whether it
      is promoted to the front of the list. */
  function Resolve(list: seq<string>, cands: seq<string>): (r: (string, bool))
    requires |cands| > 0
    ensures r.0 in cands
    ensures r.1 ==> r.0 !in list
  {
    var i := FirstStoredIndex(list, cands);
    if i < |list| then (list[i], false)
    else
      var k := FirstChlIndex(cands);
      if k < |cands| then (cands[k], true) else (cands[0], false)
  }

  /** What `get_priority` promises: the answer is always a candidate; a stored
      item that is a candidate wins, the earliest stored one first; otherwise
      the first 'chl' candidate, which is promoted; otherwise the first candidate. */
  lemma ResolveSpec(list: seq<string>, cands: seq<string>)
    requires |cands| > 0
    ensures Resolve(list, cands).0 in cands
    ensures (exists i :: 0 <= i < |list| && list[i] in cands) ==>
              var i := FirstStoredIndex(list, cands);
              && Resolve(list, cands) == (list[i], false)
              && (forall j :: 0 <= j < i ==> list[j] !in cands)
    ensures (forall i :: 0 <= i < |list| ==> list[i] !in cands) ==>
              if exists k :: 0 <= k < |cands| && StartsWithChl(cands[k]) then
                var k := FirstChlIndex(cands);
                && Resolve(list, cands) == (cands[k], true)
                && (forall j :: 0 <= j < k ==> !StartsWithChl(cands[j]))
              else Resolve(list, cands) == (cands[0], false)
    ensures Resolve(list, cands).1 ==> StartsWithChl(Resolve(list, cands).0)
  {
  }

  /** Two worked cases: a stored match wins without promotion; with an empty
      list the 'chl' candidate is chosen and becomes the whole list. */
  lemma ResolveExamples()
    ensures Resolve(["b", "a"], ["a", "c"]) == ("a", false)
    ensures Resolve([], ["salinity", "chlorophyll_a"]) == ("chlorophyll_a", true)
    ensures MoveToFront([], "chlorophyll_a") == ["chlorophyll_a"]
    ensures Resolve([], ["salinity", "depth"]) == ("salinity", false)
  {
    assert "b" !in ["a", "c"] && "a" in ["a", "c"];
    assert FirstStoredIndex(["b", "a"], ["a", "c"]) == 1 by {
      assert ["b", "a"][1..] == ["a"];
    }
    assert !StartsWithChl("salinity") && StartsWithChl("chlorophyll_a");
    assert FirstChlIndex(["salinity", "chlorophyll_a"]) == 1 by {
      assert ["salinity", "chlorophyll_a"][1..] == ["chlorophyll_a"];
    }
    assert !StartsWithChl("depth");
    assert FirstChlIndex(["salinity", "depth"]) == 2 by {
      assert ["salinity", "depth"][1..] == ["depth"];
      assert ["depth"][1..] == [];
    }
  }

  function Texts(xs: seq<string>): seq<Value>
  {
    seq(|xs|, i requires 0 <= i < |xs| => Text(xs[i]))
  }

  /** The list under 'priority_list' as strings, if it is a list of strings. */
  function AsStrings(v: Value): Option<seq<string>>
  {
    if v.List? && forall i :: 0 <= i < |v.items| ==> v.items[i].Text? then
      Some(seq(|v.items|, i requires 0 <= i < |v.items| && v.items[i].Text? => v.items[i].s))
    else None
  }

  /** The file's other top-level entries and its priority list. */
  function LoadPriority(f: Folder, dir: Path, name: string): Option<(map<string, Value>, seq<string>)>
  {
    match LoadDocument(f, dir, name)
    case None => None
    case Some(m) =>
      if PriorityListKey !in m then Some((m, []))
      else
        match AsStrings(m[PriorityListKey])
        case None => None
        case Some(xs) => Some((m - {PriorityListKey}, xs))
  }

  function PriorityDocument(others: map<string, Value>, list: seq<string>): Value
  {
    Dict(others[PriorityListKey := List(Texts(list))])
  }

  /** The stored list reads back as strings. */
  lemma TextsAsStrings(xs: seq<string>)
    ensures AsStrings(List(Texts(xs))) == Some(xs)
  {
    var items := Texts(xs);
    assert forall i :: 0 <= i < |items| ==> items[i] == Text(xs[i]);
    assert forall i :: 0 <= i < |items| ==> items[i].Text?;
    var back := seq(|items|, i requires 0 <= i < |items| && items[i].Text? => items[i].s);
    assert |back| == |xs|;
    assert forall i :: 0 <= i < |xs| ==> back[i] == xs[i];
    assert back == xs;
    assert AsStrings(List(items)) == Some(back);
  }

  /** What a priority-list store saves is what it loads again when reopened:
      the same list and the same other entries. */
  lemma PriorityRoundTrip(f: Folder, dir: Path, name: string, others: map<string, Value>, list: seq<string>)
    requires PriorityListKey !in others
    requires ReadFile(f, dir, FileName(name)) == Some(JsonFile(PriorityDocument(others, list)))
    ensures LoadPriority(f, dir, name) == Some((others, list))
  {
    TextsAsStrings(list);
    var m := others[PriorityListKey := List(Texts(list))];
    assert m - {PriorityListKey} == others;
  }

  class UserSettingsPriorityList {
    const fs: FileSystem
    const directory: Path
    const name: string
    const user: Option<string>
    var others: map<string, Value>
    var priorityList: seq<string>

    ghost predicate Saved()
      reads this, fs
    {
      ReadFile(fs.root, directory, FileName(name)) == Some(JsonFile(PriorityDocument(others, priorityList)))
    }

    twostate predicate SavedNow()
      reads this, fs
    {
      fs.root == WriteFile(old(fs.root), directory, FileName(name), JsonFile(PriorityDocument(others, priorityList)))
      && fs.writes == old(fs.writes) + 1
    }

    /** Opens the store like a flat store, then makes sure 'priority_list'
        exists and saves (for every user, the default one included). */
    constructor (fs: FileSystem, directory: Path, name: string, user: Option<string>)
      requires LoadPriority(fs.root, directory, name).Some?
      modifies fs
      ensures this.fs == fs && this.directory == directory && this.name == name && this.user == user
      ensures (others, priorityList) == LoadPriority(old(fs.root), directory, name).value
      ensures fs.root == WriteFile(old(fs.root), directory, FileName(name), JsonFile(PriorityDocument(others, priorityList)))
      ensures fs.writes == old(fs.writes) + OpenWrites(old(fs.root), directory, name) + 1
      ensures Saved()
    {
      this.fs := fs;
      this.directory := directory;
      this.name := name;
      this.user := user;
      others := map[];
      priorityList := [];
      new;
      ghost var before := fs.root;
      if ReadFile(fs.root, directory, FileName(name)).None? {
        fs.Write(directory, FileName(name), JsonFile(Dict(map[])));
      }
      var loaded := LoadPriority(fs.root, directory, name).value;
      others, priorityList := loaded.0, loaded.1;
      ghost var mid := fs.root;
      Save();
      if ReadFile(before, directory, FileName(name)).None? {
        WriteTwice(before, directory, FileName(name), JsonFile(Dict(map[])), JsonFile(PriorityDocument(others, priorityList)));
      }
    }

    method Save()
      modifies fs
      ensures SavedNow() && Saved()
    {
      fs.Write(directory, FileName(name), JsonFile(PriorityDocument(others, priorityList)));
    }

    /** The flat `get(key, if_missing)` this store inherits. */
    function Get(key: string, ifMissing: Value): Value
      reads this
    {
      var m := PriorityDocument(others, priorityList).entries;
      if key in m then m[key] else ifMissing
    }

    /** `set_priority(item)`: moves the item to the front and saves; ignored
        for the default user. */
    method SetPriority(item: string)
      modifies this, fs
      ensures others == old(others)
      ensures IsDefault(user) ==> priorityList == old(priorityList) && DiskUnchanged(fs)
      ensures !IsDefault(user) ==> priorityList == MoveToFront(old(priorityList), item) && SavedNow() && Saved()
      ensures old(NoDuplicates(priorityList)) ==> NoDuplicates(priorityList) && (!IsDefault(user) ==> priorityList[0] == item)
    {
      if IsDefault(user) {
        return;
      }
      var moved := MoveToFront(priorityList, item);
      if NoDuplicates(priorityList) {
        MoveToFrontNoDuplicates(priorityList, item);
        MoveToFrontShape(priorityList, item);
        assert NoDuplicates(moved) && moved[0] == item;
      }
      priorityList := moved;
      Save();
    }

    /** `get_priority(check_in_list)`: the first stored item that is a
        candidate; else the first candidate starting with 'chl' (any case),
        promoted with `set_priority`; else the first candidate. */
    method GetPriority(cands: seq<string>) returns (r: string)
      requires |cands| > 0
      modifies this, fs
      ensures r == Resolve(old(priorityList), cands).0 && r in cands
      ensures others == old(others)
      ensures Resolve(old(priorityList), cands).1 && !IsDefault(user) ==>
                priorityList == MoveToFront(old(priorityList), r) && SavedNow() && Saved()
      ensures !(Resolve(old(priorityList), cands).1 && !IsDefault(user)) ==>
                priorityList == old(priorityList) && DiskUnchanged(fs)
      ensures old(NoDuplicates(priorityList)) ==> NoDuplicates(priorityList)
    {
      ResolveSpec(priorityList, cands);
      var i := 0;
      while i < |priorityList|
        invariant 0 <= i <= |priorityList|
        invariant forall j :: 0 <= j < i ==> priorityList[j] !in cands
      {
        if priorityList[i] in cands {
          assert FirstStoredIndex(priorityList, cands) == i;
          return priorityList[i];
        }
        i := i + 1;
      }
      var k := 0;
      while k < |cands|
        invariant 0 <= k <= |cands|
        invariant forall j :: 0 <= j < k ==> !StartsWithChl(cands[j])
      {
        if StartsWithChl(cands[k]) {
          assert Resolve(priorityList, cands) == (cands[k], true) by {
            assert FirstChlIndex(cands) == k;
          }
          SetPriority(cands[k]);
          return cands[k];
        }
        k := k + 1;
      }
      assert Resolve(priorityList, cands) == (cands[0], false);
      return cands[0];
    }
  }
}
