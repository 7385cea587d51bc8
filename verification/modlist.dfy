/** addlist and modlist of replication.py: what to send to the local server for a changed entry. */
module Modlist {
  import opened Ldap
  import opened Wrappers

  /** Python's dictionary of an entry. */
  type Dict = map<string, seq<string>>

  /** The two settings that the listener looks up. */
  datatype Config = Config(memberofOverlay: bool, memberAttr: string)

  function LowerChar(c: char): char {
    if 'A' <= c <= 'Z' then c - 'A' + 'a' else c
  }

  function Lower(s: string): string {
    seq(|s|, i requires 0 <= i < |s| => LowerChar(s[i]))
  }

  /** EXCLUDE_ATTRIBUTES, in lower case. */
  const EXCLUDE: set<string> := {
    "subschemasubentry", "hassubordinates", "entrydn", "authtimestamp", "pwdchangedtime",
    "pwdaccountlockedtime", "pwdfailuretime", "pwdhistory", "pwdgraceusetime", "pwdreset",
    "pwdpolicysubentry"
  }

  predicate Excluded(cfg: Config, attr: string) {
    Lower(attr) in EXCLUDE || (!cfg.memberofOverlay && Lower(attr) == "memberof")
  }

  function PairsIn(d: Dict): Entry {
    set k, v | k in d && v in d[k] :: (k, v)
  }

  /** As LDAP gives them, value lists are neither empty nor have duplicates. */
  ghost predicate IsEntry(d: Dict) {
    forall k :: k in d ==> d[k] != [] && Distinct(d[k])
  }

  /** The new entry, but for the excluded attributes of the old one. */
  function Target(cfg: Config, was: Entry, now: Entry): Entry {
    (set p | p in was && Excluded(cfg, p.0)) + Added(cfg, now)
  }

  /** What addlist leaves of a new entry. */
  function Added(cfg: Config, now: Entry): Entry {
    set p | p in now && !Excluded(cfg, p.0)
  }

  function AddList(cfg: Config, now: Dict): Dict {
    map k | k in now && !Excluded(cfg, k) :: now[k]
  }

  lemma AddListAdds(cfg: Config, now: Dict)
    ensures PairsIn(AddList(cfg, now)) == Added(cfg, PairsIn(now))
  {
  }

  /** The entry once the attributes in done have been dealt with. */
  function Mixed(cfg: Config, was: Entry, now: Entry, done: set<string>): Entry {
    (set p | p in was && (Excluded(cfg, p.0) || p.0 !in done))
    + (set p | p in now && !Excluded(cfg, p.0) && p.0 in done)
  }

  lemma MixedStep(cfg: Config, was: Entry, now: Entry, done: set<string>, k: string)
    requires k !in done
    ensures Excluded(cfg, k) || PairsOf(was, k) == PairsOf(now, k) ==>
      Mixed(cfg, was, now, done + {k}) == Mixed(cfg, was, now, done)
    ensures !Excluded(cfg, k) ==>
      Mixed(cfg, was, now, done + {k}) == Mixed(cfg, was, now, done) - PairsOf(was, k) + PairsOf(now, k)
    ensures PairsOf(Mixed(cfg, was, now, done), k) == PairsOf(was, k)
  {
    hide Excluded;
    var f, g := Mixed(cfg, was, now, done), Mixed(cfg, was, now, done + {k});
    assert forall p :: p in PairsOf(was, k) <==> p in was && p.0 == k;
    assert forall p :: p in PairsOf(now, k) <==> p in now && p.0 == k;
    if Excluded(cfg, k) || PairsOf(was, k) == PairsOf(now, k) {
      forall p
        ensures p in f <==> p in g
      {
        if p.0 == k {
          assert p in PairsOf(was, k) <==> p in was;
          assert p in PairsOf(now, k) <==> p in now;
        }
      }
    }
  }

  function Values(s: seq<string>): set<string> {
    set v | v in s
  }

  lemma PairsOfDict(d: Dict, k: string)
    ensures PairsOf(PairsIn(d), k) == if k in d then PairsWith(k, d[k]) else {}
  {
  }

  /** Python's list() of a set, in any order. */
  method ListOf(s: set<string>) returns (l: seq<string>)
    ensures Distinct(l) && Values(l) == s && (l == [] <==> s == {})
  {
    l := [];
    var rest := s;
    while rest != {}
      invariant Distinct(l) && Values(l) !! rest && Values(l) + rest == s
      invariant l != [] ==> l[0] in Values(l)
    {
      var v :| v in rest;
      rest := rest - {v};
      assert Values(l + [v]) == Values(l) + {v};
      l := l + [v];
    }
  }

  lemma {:induction false} ModifyAllInTurn(e: Entry, a: seq<Mod>, b: seq<Mod>)
    requires ModifyAll(e, a).Some?
    ensures ModifyAll(e, a + b) == ModifyAll(ModifyAll(e, a).value, b)
  {
    hide Modify;
    if b == [] {
      assert a + b == a;
    } else {
      var n := |b| - 1;
      ModifyAllInTurn(e, a, b[..n]);
      assert (a + b)[..|a| + n] == a + b[..n] && (a + b)[|a| + n] == b[n];
    }
  }

  lemma OneMod(e: Entry, m: Mod)
    ensures ModifyAll(e, [m]) == Modify(e, m)
  {
    assert [m][..0] == [];
    assert ModifyAll(e, []) == Some(e);
  }

  /** The values of one attribute, as pairs. */
  function With(k: string, values: set<string>): Entry {
    set v | v in values :: (k, v)
  }

  lemma WithList(k: string, values: seq<string>)
    ensures PairsWith(k, values) == With(k, Values(values))
  {
    forall p
      ensures p in PairsWith(k, values) <==> p in With(k, Values(values))
    {
      assert p.1 in values <==> p.1 in Values(values);
    }
  }

  lemma WithSets(k: string, a: set<string>, b: set<string>)
    ensures With(k, a - b) == With(k, a) - With(k, b) && With(k, a + b) == With(k, a) + With(k, b)
    ensures With(k, a) == {} <==> a == {}
    ensures With(k, a) == With(k, b) <==> a == b
  {
    forall v
      ensures v in a <==> (k, v) in With(k, a)
      ensures v in b <==> (k, v) in With(k, b)
    {
    }
    assert With(k, a) == With(k, b) ==> a == b;
    if a != {} {
      var v :| v in a;
      assert (k, v) in With(k, a);
    }
  }

  /** Deleting the values that are gone and then adding those that have come is legal, and has the
      effect of a replacement. */
  lemma DeleteThenAdd(e: Entry, k: string, was: set<string>, now: set<string>,
                      gone: seq<string>, come: seq<string>)
    requires PairsOf(e, k) == With(k, was)
    requires Distinct(gone) && Values(gone) == was - now && Distinct(come) && Values(come) == now - was
    ensures gone != [] ==> Modify(e, Delete(k, gone)) == Some(e - With(k, was - now))
    ensures come != [] ==>
      Modify(e - With(k, was - now), Add(k, come)) == Some(e - With(k, was) + With(k, now))
    ensures come == [] ==> e - With(k, was - now) == e - With(k, was) + With(k, now)
    ensures gone == [] ==> e - With(k, was - now) == e
  {
    WithList(k, gone);
    WithList(k, come);
    WithSets(k, was, now);
    WithSets(k, now, was);
    var w, n := With(k, was), With(k, now);
    assert forall p :: p in w <==> p in e && p.0 == k;
    assert forall p :: p in n - w ==> p.0 == k && p !in e;
    Swap(e, w, n);
    assert come == [] ==> now - was == {} && n - w == {};
  }

  lemma Swap(e: Entry, w: Entry, n: Entry)
    requires w <= e
    ensures e - (w - n) + (n - w) == e - w + n
  {
  }

  ghost predicate Unchanged(cfg: Config, was: Entry, now: Entry, done: set<string>) {
    forall k :: k in done && !Excluded(cfg, k) ==> PairsOf(was, k) == PairsOf(now, k)
  }

  lemma NothingMixed(cfg: Config, was: Entry, now: Entry)
    ensures Mixed(cfg, was, now, {}) == was && ModifyAll(was, []) == Some(was)
  {
  }

  lemma AllMixed(cfg: Config, was: Dict, now: Dict)
    ensures
      var e, f, all := PairsIn(was), PairsIn(now), now.Keys + was.Keys;
      Mixed(cfg, e, f, all) == Target(cfg, e, f)
      && (Unchanged(cfg, e, f, all) <==> Target(cfg, e, f) == e)
  {
    hide Excluded;
    var e, f, all := PairsIn(was), PairsIn(now), now.Keys + was.Keys;
    if Unchanged(cfg, e, f, all) {
      forall p
        ensures p in Target(cfg, e, f) <==> p in e
      {
        if p in e || p in f {
          assert p.0 in all;
          assert !Excluded(cfg, p.0) ==> PairsOf(e, p.0) == PairsOf(f, p.0);
          assert p in e <==> p in PairsOf(e, p.0);
          assert p in f <==> p in PairsOf(f, p.0);
        }
      }
    } else if Target(cfg, e, f) == e {
      var k :| k in all && !Excluded(cfg, k) && PairsOf(e, k) != PairsOf(f, k);
      forall p
        ensures p in PairsOf(e, k) <==> p in PairsOf(f, k)
      {
        assert p.0 == k ==> (p in Target(cfg, e, f) <==> p in f);
      }
    }
  }

  lemma DeleteAttribute(cfg: Config, was: Dict, now: Dict, done: set<string>, key: string)
    requires IsEntry(was) && key in was && key !in now && key !in done && !Excluded(cfg, key)
    ensures
      var e, f := PairsIn(was), PairsIn(now);
      ModifyAll(Mixed(cfg, e, f, done), [Delete(key, [])]) == Some(Mixed(cfg, e, f, done + {key}))
      && PairsOf(e, key) != PairsOf(f, key)
  {
    hide Excluded, Mixed;
    var e, f := PairsIn(was), PairsIn(now);
    MixedStep(cfg, e, f, done, key);
    PairsOfDict(was, key);
    PairsOfDict(now, key);
    OneMod(Mixed(cfg, e, f, done), Delete(key, []));
    var m := Mixed(cfg, e, f, done);
    assert (key, was[key][0]) in PairsOf(m, key);
    assert m - PairsOf(e, key) + PairsOf(f, key) == m - PairsOf(m, key);
  }

  /** The modifications that there can be: an attribute that is new or gone, a replacement, and for the
      attribute with the members only the values that have gone and those that have come. */
  predicate IsModFor(cfg: Config, was: Dict, now: Dict, m: Mod) {
    match m
    case Add(k, values) =>
      k in now && if k in was then k == cfg.memberAttr && Values(values) == Values(now[k]) - Values(was[k])
                  else values == now[k]
    case Delete(k, values) =>
      k in was && if k in now then k == cfg.memberAttr && Values(values) == Values(was[k]) - Values(now[k])
                  else values == []
    case Replace(k, values) => k in was && k in now && k != cfg.memberAttr && values == now[k]
  }

  /** One round of the first loop of modlist: nothing for an excluded or unchanged attribute, and
      otherwise an addition, a deletion and an addition, or a replacement. */
  method ModsFor(cfg: Config, was: Dict, now: Dict, key: string, ghost done: set<string>)
    returns (ml: seq<Mod>)
    requires IsEntry(was) && IsEntry(now) && key in now && key !in done
    ensures
      ModifyAll(Mixed(cfg, PairsIn(was), PairsIn(now), done), ml)
      == Some(Mixed(cfg, PairsIn(was), PairsIn(now), done + {key}))
    ensures
      ml == [] <==> Excluded(cfg, key) || PairsOf(PairsIn(was), key) == PairsOf(PairsIn(now), key)
    ensures forall i :: 0 <= i < |ml| ==> ml[i].attr == key && IsModFor(cfg, was, now, ml[i])
  {
    hide Excluded, Mixed;
    ghost var e := Mixed(cfg, PairsIn(was), PairsIn(now), done);
    MixedStep(cfg, PairsIn(was), PairsIn(now), done, key);
    PairsOfDict(was, key);
    PairsOfDict(now, key);
    WithList(key, now[key]);
    if Excluded(cfg, key) {
      return [];
    }
    if key !in was {
      OneMod(e, Add(key, now[key]));
      WithSets(key, Values(now[key]), {});
      assert now[key][0] in Values(now[key]);
      assert forall p :: p in PairsWith(key, now[key]) && p in e ==> p in PairsOf(e, key);
      assert e - PairsOf(PairsIn(was), key) == e;
      return [Add(key, now[key])];
    }
    WithList(key, was[key]);
    var setOld, setNew := Values(was[key]), Values(now[key]);
    WithSets(key, setOld, setNew);
    if setOld == setNew {
      return [];
    }
    if key == cfg.memberAttr {
      var added := ListOf(setNew - setOld);
      var removed := ListOf(setOld - setNew);
      ml := [];
      if setOld - setNew != {} {
        ml := ml + [Delete(key, removed)];
      }
      if setNew - setOld != {} {
        ml := ml + [Add(key, added)];
      }
      DeleteThenAddMods(e, key, setOld, setNew, removed, added);
      assert PairsOf(PairsIn(now), key) == With(key, setNew);
      return;
    }
    OneMod(e, Replace(key, now[key]));
    ml := [Replace(key, now[key])];
  }

  lemma GoneIsMod(cfg: Config, was: Dict, now: Dict, key: string)
    requires key in was && key !in now
    ensures IsModFor(cfg, was, now, Delete(key, []))
  {
  }

  lemma DeleteThenAddMods(e: Entry, k: string, was: set<string>, now: set<string>,
                          gone: seq<string>, come: seq<string>)
    requires PairsOf(e, k) == With(k, was) && was != now
    requires Distinct(gone) && Values(gone) == was - now && Distinct(come) && Values(come) == now - was
    ensures
      var ml := (if gone != [] then [Delete(k, gone)] else []) + (if come != [] then [Add(k, come)] else []);
      ml != [] && ModifyAll(e, ml) == Some(e - With(k, was) + With(k, now))
  {
    hide Modify;
    DeleteThenAdd(e, k, was, now, gone, come);
    OneMod(e, Delete(k, gone));
    OneMod(e, Add(k, come));
    if gone != [] && come != [] {
      ModifyAllInTurn(e, [Delete(k, gone)], [Add(k, come)]);
      OneMod(e - With(k, was - now), Add(k, come));
    }
    assert gone == [] && come == [] ==> was - now == {} && now - was == {};
  }

  /** modlist, for any order of the attributes and values: a strict server accepts what it returns
      and has the new entry afterwards, and it is empty iff there is nothing to change. */
  method ModList(cfg: Config, was: Dict, now: Dict) returns (ml: seq<Mod>)
    requires IsEntry(was) && IsEntry(now)
    ensures ModifyAll(PairsIn(was), ml) == Some(Target(cfg, PairsIn(was), PairsIn(now)))
    ensures ml == [] <==> Target(cfg, PairsIn(was), PairsIn(now)) == PairsIn(was)
    ensures forall i :: 0 <= i < |ml| ==> !Excluded(cfg, ml[i].attr) && IsModFor(cfg, was, now, ml[i])
  {
    hide Excluded, Mixed, ModifyAll, PairsOf, IsModFor;
    ghost var e, f := PairsIn(was), PairsIn(now);
    ghost var done: set<string> := {};
    ml := [];
    NothingMixed(cfg, e, f);
    var keys := now.Keys;
    while keys != {}
      invariant done + keys == now.Keys && done !! keys
      invariant ModifyAll(e, ml) == Some(Mixed(cfg, e, f, done))
      invariant forall i :: 0 <= i < |ml| ==> !Excluded(cfg, ml[i].attr) && IsModFor(cfg, was, now, ml[i])
      invariant ml == [] <==> Unchanged(cfg, e, f, done)
    {
      var key :| key in keys;
      keys := keys - {key};
      var more := ModsFor(cfg, was, now, key, done);
      ModifyAllInTurn(e, ml, more);
      ml := ml + more;
      done := done + {key};
    }
    var rest := was.Keys;
    ghost var gone: set<string> := {};
    while rest != {}
      invariant gone + rest == was.Keys && gone !! rest
      invariant done == now.Keys + gone
      invariant ModifyAll(e, ml) == Some(Mixed(cfg, e, f, done))
      invariant forall i :: 0 <= i < |ml| ==> !Excluded(cfg, ml[i].attr) && IsModFor(cfg, was, now, ml[i])
      invariant ml == [] <==> Unchanged(cfg, e, f, done)
    {
      var key :| key in rest;
      rest := rest - {key};
      gone := gone + {key};
      if key !in now {
        MixedStep(cfg, e, f, done, key);
        if !Excluded(cfg, key) {
          DeleteAttribute(cfg, was, now, done, key);
          assert IsModFor(cfg, was, now, Delete(key, [])) by { GoneIsMod(cfg, was, now, key); }
          ModifyAllInTurn(e, ml, [Delete(key, [])]);
          ml := ml + [Delete(key, [])];
        }
      } else {
        assert done + {key} == done;
      }
      done := done + {key};
    }
    AllMixed(cfg, was, now);
  }
}
