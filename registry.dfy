/** The settings a users directory gives every user (`directory_user_settings`):
    per directory, the registered settings types in the order they were first
    registered, each with the names registered under it, in order. */
module Registry {
  import opened Common

  /** The kinds of settings store. */
  datatype Kind = Basic | Parameter | PriorityList

  /** The settings types `add_user_settings` accepts: 'basic', 'parameter'
      and 'prioritylist'. */
  function ParseKind(s: string): Option<Kind>
  {
    if s == "basic" then Some(Basic)
    else if s == "parameter" then Some(Parameter)
    else if s == "prioritylist" then Some(PriorityList)
    else None
  }

  /** One settings type of a directory and the store names registered under it. */
  datatype Registration = Registration(kind: Kind, names: seq<string>)

  /** `setdefault(type, []).append(name)` on the directory's dictionary: a new
      type goes last, a known one gets the name at the end of its list. */
  function Register(regs: seq<Registration>, kind: Kind, name: string): seq<Registration>
  {
    if regs == [] then [Registration(kind, [name])]
    else if regs[0].kind == kind then [regs[0].(names := regs[0].names + [name])] + regs[1..]
    else [regs[0]] + Register(regs[1..], kind, name)
  }

  /** The registered types are told apart. */
  predicate DistinctKinds(regs: seq<Registration>)
  {
    forall i, j :: 0 <= i < j < |regs| ==> regs[i].kind != regs[j].kind
  }

  function Pairs(r: Registration): seq<(Kind, string)>
  {
    seq(|r.names|, i requires 0 <= i < |r.names| => (r.kind, r.names[i]))
  }

  /** The `(type, name)` pairs in the order `set_users_directory` opens them:
      type by type, and within a type in registration order. */
  function Entries(regs: seq<Registration>): seq<(Kind, string)>
  {
    if regs == [] then [] else Pairs(regs[0]) + Entries(regs[1..])
  }

  /** The kind of store each name ends up with when the entries are opened in
      order: a later store under the same name replaces the earlier one. */
  function Schema(es: seq<(Kind, string)>): map<string, Kind>
  {
    if es == [] then map[]
    else Schema(es[..|es| - 1])[es[|es| - 1].1 := es[|es| - 1].0]
  }

  lemma SchemaSnoc(es: seq<(Kind, string)>, e: (Kind, string))
    ensures Schema(es + [e]) == Schema(es)[e.1 := e.0]
  {
    assert (es + [e])[..|es|] == es;
  }

  lemma SchemaStep(es: seq<(Kind, string)>, i: nat)
    requires i < |es|
    ensures Schema(es[..i + 1]) == Schema(es[..i])[es[i].1 := es[i].0]
  {
    assert es[..i + 1][..i] == es[..i];
  }

  lemma UnionUpdate<K, V>(a: map<K, V>, b: map<K, V>, k: K, v: V)
    ensures (a + b)[k := v] == a + b[k := v]
  {
  }

  /** Where a new registration of `kind` lands among the entries. */
  function InsertionPoint(regs: seq<Registration>, kind: Kind): nat
  {
    if regs == [] then 0
    else if regs[0].kind == kind then |regs[0].names|
    else |regs[0].names| + InsertionPoint(regs[1..], kind)
  }

  lemma PairsAppend(r: Registration, name: string)
    ensures Pairs(r.(names := r.names + [name])) == Pairs(r) + [(r.kind, name)]
  {
  }

  lemma EntriesCons(regs: seq<Registration>)
    requires regs != []
    ensures Entries(regs) == Pairs(regs[0]) + Entries(regs[1..])
    ensures |Pairs(regs[0])| == |regs[0].names|
  {
  }

  /** Registering adds exactly one entry, at the end of its type's group. */
  lemma {:induction false} RegisterInserts(regs: seq<Registration>, kind: Kind, name: string)
    ensures InsertionPoint(regs, kind) <= |Entries(regs)|
    ensures var i := InsertionPoint(regs, kind);
            Entries(Register(regs, kind, name)) == Entries(regs)[..i] + [(kind, name)] + Entries(regs)[i..]
    decreases |regs|
  {
    if regs == [] {
      var r := Register(regs, kind, name);
      assert r == [Registration(kind, [name])];
      EntriesCons(r);
      assert Pairs(r[0]) == [(kind, name)];
    } else if regs[0].kind == kind {
      RegisterIntoFirst(regs, kind, name);
    } else {
      RegisterInserts(regs[1..], kind, name);
      RegisterPastFirst(regs, kind, name);
    }
  }

  lemma RegisterIntoFirst(regs: seq<Registration>, kind: Kind, name: string)
    requires regs != [] && regs[0].kind == kind
    ensures InsertionPoint(regs, kind) <= |Entries(regs)|
    ensures var i := InsertionPoint(regs, kind);
            Entries(Register(regs, kind, name)) == Entries(regs)[..i] + [(kind, name)] + Entries(regs)[i..]
  {
    var r := Register(regs, kind, name);
    var p := Pairs(regs[0]);
    var e := Entries(regs[1..]);
    EntriesCons(regs);
    var h := regs[0].(names := regs[0].names + [name]);
    assert r == [h] + regs[1..];
    PairsAppend(regs[0], name);
    EntriesCons(r);
    assert r[1..] == regs[1..];
    assert (p + e)[..|p|] == p && (p + e)[|p|..] == e;
  }

  lemma RegisterPastFirst(regs: seq<Registration>, kind: Kind, name: string)
    requires regs != [] && regs[0].kind != kind
    requires InsertionPoint(regs[1..], kind) <= |Entries(regs[1..])|
    requires var k := InsertionPoint(regs[1..], kind);
             Entries(Register(regs[1..], kind, name))
             == Entries(regs[1..])[..k] + [(kind, name)] + Entries(regs[1..])[k..]
    ensures InsertionPoint(regs, kind) <= |Entries(regs)|
    ensures var i := InsertionPoint(regs, kind);
            Entries(Register(regs, kind, name)) == Entries(regs)[..i] + [(kind, name)] + Entries(regs)[i..]
  {
    RegisterPastFirstEntries(regs, kind, name);
    EntriesCons(regs);
    var p, k := Pairs(regs[0]), InsertionPoint(regs[1..], kind);
    assert InsertionPoint(regs, kind) == |p| + k;
    Splice(Entries(Register(regs, kind, name)), p, Entries(regs[1..]), Entries(Register(regs[1..], kind, name)),
           k, (kind, name), Entries(regs), InsertionPoint(regs, kind));
  }

  /** Past a group of another type, registering leaves that group first. */
  lemma RegisterPastFirstEntries(regs: seq<Registration>, kind: Kind, name: string)
    requires regs != [] && regs[0].kind != kind
    ensures Entries(Register(regs, kind, name)) == Pairs(regs[0]) + Entries(Register(regs[1..], kind, name))
  {
    var r := Register(regs, kind, name);
    assert r[0] == regs[0] && r[1..] == Register(regs[1..], kind, name);
    EntriesCons(r);
  }

  /** The splice of `x` at `k` into `e`, seen from after a prefix `p`: the
      splice of `x` at `i` into `whole`. */
  lemma Splice<T>(s: seq<T>, p: seq<T>, e: seq<T>, e': seq<T>, k: nat, x: T, whole: seq<T>, i: nat)
    requires k <= |e| && s == p + e' && e' == e[..k] + [x] + e[k..]
    requires whole == p + e && i == |p| + k
    ensures i <= |whole| && s == whole[..i] + [x] + whole[i..]
  {
    assert whole[..i] == p + e[..k];
    assert whole[i..] == e[k..];
  }

  /** Registering keeps the types distinct. */
  lemma {:induction false} RegisterDistinct(regs: seq<Registration>, kind: Kind, name: string)
    requires DistinctKinds(regs)
    ensures DistinctKinds(Register(regs, kind, name))
    decreases |regs|
  {
    var r := Register(regs, kind, name);
    if regs != [] && regs[0].kind == kind {
      forall i, j | 0 <= i < j < |r| ensures r[i].kind != r[j].kind {
        assert r[i].kind == regs[i].kind && r[j].kind == regs[j].kind;
      }
    } else if regs != [] {
      assert DistinctKinds(regs[1..]) by {
        forall i, j | 0 <= i < j < |regs[1..]| ensures regs[1..][i].kind != regs[1..][j].kind {
          assert regs[1..][i] == regs[i + 1] && regs[1..][j] == regs[j + 1];
        }
      }
      RegisterDistinct(regs[1..], kind, name);
      RegisterKinds(regs[1..], kind, name);
      var rest := Register(regs[1..], kind, name);
      assert r[1..] == rest;
      forall i, j | 0 <= i < j < |r| ensures r[i].kind != r[j].kind {
        assert r[j] == rest[j - 1];
        if i == 0 {
          if r[j].kind != kind {
            var t :| 0 <= t < |regs[1..]| && regs[1..][t].kind == r[j].kind;
            assert regs[t + 1].kind == r[j].kind;
          }
        } else {
          assert r[i] == rest[i - 1];
        }
      }
    }
  }

  function KindsOf(regs: seq<Registration>): set<Kind>
  {
    set i | 0 <= i < |regs| :: regs[i].kind
  }

  lemma {:induction false} RegisterKinds(regs: seq<Registration>, kind: Kind, name: string)
    ensures |Register(regs, kind, name)| >= 1
    ensures forall j :: 0 <= j < |Register(regs, kind, name)| ==>
              Register(regs, kind, name)[j].kind == kind || Register(regs, kind, name)[j].kind in KindsOf(regs)
    decreases |regs|
  {
    var r := Register(regs, kind, name);
    if regs != [] && regs[0].kind != kind {
      RegisterKinds(regs[1..], kind, name);
      forall j | 0 <= j < |r| ensures r[j].kind == kind || r[j].kind in KindsOf(regs) {
        if j > 0 {
          assert r[j] == Register(regs[1..], kind, name)[j - 1];
          if r[j].kind in KindsOf(regs[1..]) {
            var t :| 0 <= t < |regs[1..]| && regs[1..][t].kind == r[j].kind;
            assert regs[t + 1].kind == r[j].kind;
          }
        } else {
          assert r[0].kind == regs[0].kind;
        }
      }
    } else if regs != [] {
      forall j | 0 <= j < |r| ensures r[j].kind == kind || r[j].kind in KindsOf(regs) {
        if j > 0 {
          assert r[j] == regs[j];
        }
      }
    }
  }

  /** One more entry, anywhere: its name becomes known; other names keep their
      kind; its own name gets its kind unless a later entry names it differently. */
  lemma {:induction false} SchemaInsert(xs: seq<(Kind, string)>, e: (Kind, string), ys: seq<(Kind, string)>)
    ensures Schema(xs + [e] + ys).Keys == Schema(xs + ys).Keys + {e.1}
    ensures forall m :: m != e.1 && m in Schema(xs + ys) ==> Schema(xs + [e] + ys)[m] == Schema(xs + ys)[m]
    ensures (forall j :: 0 <= j < |ys| && ys[j].1 == e.1 ==> ys[j].0 == e.0) ==> Schema(xs + [e] + ys)[e.1] == e.0
    decreases |ys|
  {
    if ys == [] {
      assert xs + [e] + ys == xs + [e] && xs + ys == xs;
      SchemaSnoc(xs, e);
    } else {
      var l := ys[|ys| - 1];
      var ys' := ys[..|ys| - 1];
      SchemaInsert(xs, e, ys');
      assert xs + [e] + ys == (xs + [e] + ys') + [l] && xs + ys == (xs + ys') + [l];
      SchemaSnoc(xs + [e] + ys', l);
      SchemaSnoc(xs + ys', l);
      if forall j :: 0 <= j < |ys| && ys[j].1 == e.1 ==> ys[j].0 == e.0 {
        forall j | 0 <= j < |ys'| && ys'[j].1 == e.1 ensures ys'[j].0 == e.0 {
          assert ys'[j] == ys[j];
        }
      }
    }
  }

  /** What a registration does to the stores every user of the directory gets:
      the name is added, every other name keeps its kind, and the name has the
      registered kind unless it is also registered under another kind. */
  lemma RegisterSchema(regs: seq<Registration>, kind: Kind, name: string)
    requires DistinctKinds(regs)
    ensures var before := Schema(Entries(regs));
            var after := Schema(Entries(Register(regs, kind, name)));
            && after.Keys == before.Keys + {name}
            && (forall m :: m != name && m in before ==> after[m] == before[m])
            && ((forall j :: 0 <= j < |Entries(regs)| && Entries(regs)[j].1 == name ==> Entries(regs)[j].0 == kind) ==>
                  after[name] == kind)
  {
    RegisterInserts(regs, kind, name);
    var i := InsertionPoint(regs, kind);
    var es := Entries(regs);
    assert es == es[..i] + es[i..];
    SchemaInsert(es[..i], (kind, name), es[i..]);
    if forall j :: 0 <= j < |es| && es[j].1 == name ==> es[j].0 == kind {
      forall j | 0 <= j < |es[i..]| && es[i..][j].1 == name ensures es[i..][j].0 == kind {
        assert es[i..][j] == es[i + j];
      }
    }
  }

  /** Every entry named `t` has the same kind: the name is registered under
      one type only. */
  predicate OneKind(es: seq<(Kind, string)>, t: string)
  {
    forall j, k :: 0 <= j < |es| && 0 <= k < |es| && es[j].1 == t && es[k].1 == t ==> es[j].0 == es[k].0
  }

  /** A name's kind in the schema is the kind of one of its entries. */
  lemma {:induction false} SchemaEntry(es: seq<(Kind, string)>, t: string)
    requires t in Schema(es)
    ensures exists j :: 0 <= j < |es| && es[j] == (Schema(es)[t], t)
    decreases |es|
  {
    var init := es[..|es| - 1];
    if es[|es| - 1].1 != t {
      SchemaEntry(init, t);
      var j :| 0 <= j < |init| && init[j] == (Schema(init)[t], t);
      assert es[j] == init[j];
    }
  }

  /** The order of types, not of calls, decides which store a name gets:
      registering ('basic', 'a'), then ('parameter', 'a'), then ('basic', 'a')
      again leaves 'a' a parameter store. */
  lemma FirstTypeOrderWins()
    ensures var regs := Register(Register(Register([], Basic, "a"), Parameter, "a"), Basic, "a");
            Schema(Entries(regs))["a"] == Parameter
  {
    var r1 := Register([], Basic, "a");
    assert r1 == [Registration(Basic, ["a"])];
    var r2 := Register(r1, Parameter, "a");
    assert r1[1..] == [];
    assert r2 == [r1[0]] + Register(r1[1..], Parameter, "a");
    assert r2 == [Registration(Basic, ["a"]), Registration(Parameter, ["a"])];
    var regs := Register(r2, Basic, "a");
    assert regs == [r2[0].(names := r2[0].names + ["a"])] + r2[1..];
    assert r2[0].names + ["a"] == ["a", "a"];
    assert r2[1..] == [Registration(Parameter, ["a"])];
    assert regs == [Registration(Basic, ["a", "a"]), Registration(Parameter, ["a"])];
    EntriesCons(regs);
    EntriesCons(regs[1..]);
    assert regs[1..][1..] == [];
    assert Pairs(regs[0]) == [(Basic, "a"), (Basic, "a")];
    assert Pairs(regs[1]) == [(Parameter, "a")];
    var es := Entries(regs);
    assert es == [(Basic, "a"), (Basic, "a"), (Parameter, "a")];
    assert es[|es| - 1] == (Parameter, "a");
  }
}
