/** The transaction log of directory_logger.py: what is left of two entries when unchanged values
    are taken out, and the text that records it. */
module DirLog {

  type Value = string

  type Entry = map<string, seq<Value>>

  class Attributes {
    var entry: Entry

    constructor (e: Entry)
      ensures entry == e
    {
      entry := e;
    }
  }

  /** Python's list.remove, which fails if the value is absent. */
  datatype Removal = Failed | Removed(rest: seq<Value>)

  function Remove(s: seq<Value>, v: Value): (r: Removal)
    ensures r.Removed? <==> v in s
  {
    if s == [] then Failed
    else if s[0] == v then Removed(s[1..])
    else
      match Remove(s[1..], v)
      case Failed => Failed
      case Removed(rest) => Removed([s[0]] + rest)
  }

  function RemoveAll(s: seq<Value>, r: seq<Value>): Removal
    decreases |r|
  {
    if r == [] then Removed(s)
    else
      match Remove(s, r[0])
      case Failed => Failed
      case Removed(rest) => RemoveAll(rest, r[1..])
  }

  function Occurrences(s: seq<Value>, v: Value): nat {
    if s == [] then 0 else (if s[0] == v then 1 else 0) + Occurrences(s[1..], v)
  }

  /** v, as often as it occurs in b. */
  function Matches(v: Value, b: seq<Value>): seq<Value> {
    if b == [] then [] else (if v == b[0] then [v] else []) + Matches(v, b[1..])
  }

  /** What the two loops over the values put into removelist. */
  function Common(a: seq<Value>, b: seq<Value>): seq<Value> {
    if a == [] then [] else Matches(a[0], b) + Common(a[1..], b)
  }

  /** The values of s that are not in t, in their order. */
  function Without(s: seq<Value>, t: seq<Value>): seq<Value> {
    if s == [] then [] else (if s[0] in t then [] else [s[0]]) + Without(s[1..], t)
  }

  /** The values that occur in both lists occur once in each. */
  predicate CommonOnce(a: seq<Value>, b: seq<Value>) {
    forall v :: v in a && v in b ==> Occurrences(a, v) == 1 && Occurrences(b, v) == 1
  }

  lemma {:induction false} OccursIn(s: seq<Value>, v: Value)
    ensures v in s <==> 0 < Occurrences(s, v)
  {
    if s == [] {
    } else {
      OccursIn(s[1..], v);
    }
  }

  lemma {:induction false} OccurrencesConcat(s: seq<Value>, t: seq<Value>, v: Value)
    ensures Occurrences(s + t, v) == Occurrences(s, v) + Occurrences(t, v)
  {
    if s == [] {
      assert s + t == t;
    } else {
      OccurrencesConcat(s[1..], t, v);
      assert (s + t)[1..] == s[1..] + t;
    }
  }

  lemma {:induction false} OccurrencesMatches(u: Value, b: seq<Value>, v: Value)
    ensures Occurrences(Matches(u, b), v) == if u == v then Occurrences(b, v) else 0
  {
    if b == [] {
    } else {
      OccurrencesMatches(u, b[1..], v);
      OccurrencesConcat(if u == b[0] then [u] else [], Matches(u, b[1..]), v);
    }
  }

  /** A value is in removelist once for each pair of equal occurrences. */
  lemma {:induction false} OccurrencesCommon(a: seq<Value>, b: seq<Value>, v: Value)
    ensures Occurrences(Common(a, b), v) == Occurrences(a, v) * Occurrences(b, v)
  {
    if a == [] {
    } else {
      OccurrencesCommon(a[1..], b, v);
      OccurrencesConcat(Matches(a[0], b), Common(a[1..], b), v);
      OccurrencesMatches(a[0], b, v);
      if a[0] == v {
        OneMoreRow(Occurrences(a[1..], v), Occurrences(b, v));
      }
    }
  }

  lemma OneMoreRow(n: nat, m: nat)
    ensures (1 + n) * m == m + n * m
  {
  }

  lemma {:induction false} OccurrencesRemoved(s: seq<Value>, u: Value, v: Value)
    requires u in s
    ensures
      Occurrences(Remove(s, u).rest, v) == Occurrences(s, v) - (if u == v then 1 else 0)
  {
    if s[0] != u {
      OccurrencesRemoved(s[1..], u, v);
    }
  }

  /** Removing one value after the other succeeds iff there are enough of each. */
  lemma {:induction false} RemoveAllSucceeds(s: seq<Value>, r: seq<Value>)
    ensures
      RemoveAll(s, r).Removed? <==> forall v :: v in r ==> Occurrences(r, v) <= Occurrences(s, v)
    decreases |r|
  {
    if r == [] {
    } else {
      var u := r[0];
      OccursIn(s, u);
      forall v
        ensures v in r[1..] ==> 0 < Occurrences(r[1..], v)
        ensures v in r <==> 0 < Occurrences(r, v)
      {
        OccursIn(r[1..], v);
        OccursIn(r, v);
      }
      if u in s {
        var rest := Remove(s, u).rest;
        RemoveAllSucceeds(rest, r[1..]);
        forall v
          ensures Occurrences(rest, v) == Occurrences(s, v) - (if u == v then 1 else 0)
          ensures Occurrences(r[1..], v) == Occurrences(r, v) - (if u == v then 1 else 0)
        {
          OccurrencesRemoved(s, u, v);
        }
        if RemoveAll(s, r).Removed? {
          forall v | v in r
            ensures Occurrences(r, v) <= Occurrences(s, v)
          {
            if v !in r[1..] {
              OccursIn(r[1..], v);
              OccursIn(rest, v);
            }
          }
        } else {
          var v :| v in r[1..] && Occurrences(r[1..], v) > Occurrences(rest, v);
          assert v in r && Occurrences(r, v) > Occurrences(s, v);
        }
      } else {
        assert Occurrences(r, u) > Occurrences(s, u);
      }
    }
  }

  /** Both lists lose the common values without failing iff those occur once in each. */
  lemma RemovalsSucceed(a: seq<Value>, b: seq<Value>)
    ensures
      RemoveAll(a, Common(a, b)).Removed? && RemoveAll(b, Common(a, b)).Removed? <==> CommonOnce(a, b)
  {
    var r := Common(a, b);
    RemoveAllSucceeds(a, r);
    RemoveAllSucceeds(b, r);
    forall v
      ensures Occurrences(r, v) == Occurrences(a, v) * Occurrences(b, v)
      ensures (v in r <==> v in a && v in b)
      ensures v in a && v in b ==>
        (Occurrences(r, v) <= Occurrences(a, v) && Occurrences(r, v) <= Occurrences(b, v)
         <==> Occurrences(a, v) == 1 && Occurrences(b, v) == 1)
    {
      OccurrencesCommon(a, b, v);
      OccursIn(r, v);
      OccursIn(a, v);
      OccursIn(b, v);
      SmallProduct(Occurrences(a, v), Occurrences(b, v));
    }
  }

  lemma SmallProduct(x: nat, y: nat)
    ensures 0 < x * y <==> 0 < x && 0 < y
    ensures 0 < x && 0 < y ==> (x * y <= x && x * y <= y <==> x == 1 && y == 1)
  {
    if 0 < x && 0 < y {
      assert x * y >= x && x * y >= y;
      if x == 1 || y == 1 {
      } else {
        assert x * y >= 2 * y > y;
      }
    }
  }

  lemma {:induction false} RemoveOnly(s: seq<Value>, u: Value)
    requires Occurrences(s, u) == 1
    ensures Remove(s, u) == Removed(Without(s, [u]))
  {
    if s[0] == u {
      OccursIn(s[1..], u);
      NothingToRemove(s[1..], [u]);
    } else {
      RemoveOnly(s[1..], u);
    }
  }

  lemma {:induction false} NothingToRemove(s: seq<Value>, t: seq<Value>)
    requires forall v :: v in s ==> v !in t
    ensures Without(s, t) == s
  {
    if s == [] {
    } else {
      NothingToRemove(s[1..], t);
    }
  }

  lemma {:induction false} WithoutBoth(s: seq<Value>, t: seq<Value>, u: seq<Value>)
    ensures Without(Without(s, t), u) == Without(s, t + u)
  {
    if s == [] {
    } else {
      WithoutBoth(s[1..], t, u);
      var head, rest := if s[0] in t then [] else [s[0]], Without(s[1..], t);
      if s[0] in t {
        assert head + rest == rest;
      } else {
        assert (head + rest)[0] == s[0] && (head + rest)[1..] == rest;
      }
    }
  }

  lemma {:induction false} WithoutSame(s: seq<Value>, t: seq<Value>, u: seq<Value>)
    requires forall v :: v in s ==> (v in t <==> v in u)
    ensures Without(s, t) == Without(s, u)
  {
    if s == [] {
    } else {
      WithoutSame(s[1..], t, u);
    }
  }

  /** Removing values that occur once, once each, leaves the others in their order. */
  lemma {:induction false} RemoveAllOnce(s: seq<Value>, r: seq<Value>)
    requires forall v :: v in r ==> Occurrences(s, v) == 1 && Occurrences(r, v) == 1
    ensures RemoveAll(s, r) == Removed(Without(s, r))
    decreases |r|
  {
    if r == [] {
      NothingToRemove(s, r);
    } else {
      var u := r[0];
      RemoveOnly(s, u);
      var rest := Remove(s, u).rest;
      OccursIn(s, u);
      OccursIn(r[1..], u);
      forall v | v in r[1..]
        ensures Occurrences(rest, v) == 1 && Occurrences(r[1..], v) == 1
      {
        OccurrencesRemoved(s, u, v);
      }
      RemoveAllOnce(rest, r[1..]);
      WithoutBoth(s, [u], r[1..]);
      assert [u] + r[1..] == r;
    }
  }

  lemma RemovalsLeave(a: seq<Value>, b: seq<Value>)
    requires CommonOnce(a, b)
    ensures RemoveAll(a, Common(a, b)) == Removed(Without(a, b))
    ensures RemoveAll(b, Common(a, b)) == Removed(Without(b, a))
  {
    var r := Common(a, b);
    forall v
      ensures v in r <==> v in a && v in b
      ensures v in r ==> Occurrences(r, v) == 1
    {
      OccurrencesCommon(a, b, v);
      OccursIn(r, v);
      OccursIn(a, v);
      OccursIn(b, v);
      SmallProduct(Occurrences(a, v), Occurrences(b, v));
    }
    RemoveAllOnce(a, r);
    RemoveAllOnce(b, r);
    WithoutSame(a, r, b);
    WithoutSame(b, r, a);
  }

  /** The nested loops over the values of one attribute. */
  method FindCommon(a: seq<Value>, b: seq<Value>) returns (removelist: seq<Value>)
    ensures removelist == Common(a, b)
  {
    hide Common, Matches;
    removelist := [];
    assert a[..0] == [];
    CommonOfNone(b);
    for i := 0 to |a|
      invariant removelist == Common(a[..i], b)
    {
      ghost var before := removelist;
      assert b[..0] == [];
      MatchesNone(a[i]);
      for j := 0 to |b|
        invariant removelist == before + Matches(a[i], b[..j])
      {
        MatchesNext(a[i], b, j);
        if a[i] == b[j] {
          removelist := removelist + [a[i]];
        }
      }
      assert b[..|b|] == b;
      CommonNext(a, b, i);
    }
    assert a[..|a|] == a;
  }

  lemma MatchesNone(v: Value)
    ensures Matches(v, []) == []
  {
  }

  lemma CommonOfNone(b: seq<Value>)
    ensures Common([], b) == []
  {
  }

  lemma {:induction false} MatchesNext(v: Value, b: seq<Value>, j: nat)
    requires j < |b|
    ensures Matches(v, b[..j + 1]) == Matches(v, b[..j]) + if v == b[j] then [v] else []
  {
    assert b[..j + 1][0] == b[0] && b[..j + 1][1..] == b[1..][..j];
    if j == 0 {
    } else {
      MatchesNext(v, b[1..], j - 1);
      assert b[..j][1..] == b[1..][..j - 1];
    }
  }

  lemma {:induction false} CommonNext(a: seq<Value>, b: seq<Value>, i: nat)
    requires i < |a|
    ensures Common(a[..i + 1], b) == Common(a[..i], b) + Matches(a[i], b)
  {
    hide Matches;
    assert a[..i + 1][0] == a[0] && a[..i + 1][1..] == a[1..][..i];
    if i == 0 {
    } else {
      CommonNext(a[1..], b, i - 1);
      assert a[..i][1..] == a[1..][..i - 1];
    }
  }

  method RemoveValue(copy: Attributes, key: string, v: Value) returns (ok: bool)
    requires key in copy.entry
    modifies copy
    ensures ok <==> v in old(copy.entry[key])
    ensures copy.entry == if ok then old(copy.entry[key := Remove(copy.entry[key], v).rest])
                          else old(copy.entry)
  {
    match Remove(copy.entry[key], v)
    case Failed => ok := false;
    case Removed(rest) =>
      copy.entry := copy.entry[key := rest];
      ok := true;
  }

  /** One attribute that both entries have, with different lists.  ok is false if list.remove
      fails. */
  method RemoveCommon(oldCopy: Attributes, newCopy: Attributes, key: string) returns (ok: bool)
    requires oldCopy != newCopy && key in oldCopy.entry && key in newCopy.entry
    modifies oldCopy, newCopy
    ensures ok <==> CommonOnce(old(oldCopy.entry[key]), old(newCopy.entry[key]))
    ensures
      ok ==>
      oldCopy.entry == old(oldCopy.entry[key := Without(oldCopy.entry[key], newCopy.entry[key])])
    ensures
      ok ==>
      newCopy.entry == old(newCopy.entry[key := Without(newCopy.entry[key], oldCopy.entry[key])])
  {
    hide CommonOnce, Without, Common, Remove;
    ghost var a, b := oldCopy.entry[key], newCopy.entry[key];
    var removelist := FindCommon(oldCopy.entry[key], newCopy.entry[key]);
    RemovalsSucceed(a, b);
    if CommonOnce(a, b) {
      RemovalsLeave(a, b);
    }
    for i := 0 to |removelist|
      invariant key in oldCopy.entry && key in newCopy.entry
      invariant oldCopy.entry == old(oldCopy.entry)[key := oldCopy.entry[key]]
      invariant newCopy.entry == old(newCopy.entry)[key := newCopy.entry[key]]
      invariant RemoveAll(a, removelist) == RemoveAll(oldCopy.entry[key], removelist[i..])
      invariant RemoveAll(b, removelist) == RemoveAll(newCopy.entry[key], removelist[i..])
    {
      assert removelist[i..][1..] == removelist[i + 1..];
      ok := RemoveValue(oldCopy, key, removelist[i]);
      if !ok { return; }
      ok := RemoveValue(newCopy, key, removelist[i]);
      if !ok { return; }
    }
    ok := true;
  }

  predicate Changed(a: Entry, b: Entry, key: string) {
    key in a && !(key in b && a[key] == b[key])
  }

  /** What is left of a when it is compared with b on the given keys. */
  function LeftOn(a: Entry, b: Entry, keys: set<string>): Entry {
    map k | k in a && (k !in keys || Changed(a, b, k)) ::
      if k in keys && k in b then Without(a[k], b[k]) else a[k]
  }

  function Left(a: Entry, b: Entry): Entry {
    LeftOn(a, b, a.Keys)
  }

  predicate FitsOn(a: Entry, b: Entry, keys: set<string>) {
    forall k :: k in keys && k in a && k in b && a[k] != b[k] ==> CommonOnce(a[k], b[k])
  }

  lemma NothingDone(a: Entry, b: Entry)
    ensures LeftOn(a, b, {}) == a && LeftOn(b, a, {}) == b
  {
  }

  lemma Untouched(a: Entry, b: Entry, done: set<string>, key: string)
    requires key !in done
    ensures key in LeftOn(a, b, done) <==> key in a
    ensures key in a ==> LeftOn(a, b, done)[key] == a[key]
  {
  }

  /** Keys that only b has are left as they are. */
  lemma OtherKeys(b: Entry, a: Entry)
    ensures LeftOn(b, a, a.Keys) == Left(b, a)
  {
  }

  lemma NextKey(a: Entry, b: Entry, done: set<string>, key: string)
    requires key !in done
    ensures key !in b ==> LeftOn(a, b, done + {key}) == LeftOn(a, b, done)
    ensures key !in b ==> LeftOn(b, a, done + {key}) == LeftOn(b, a, done)
    ensures key in a && key in b && a[key] == b[key] ==>
      LeftOn(a, b, done + {key}) == LeftOn(a, b, done) - {key}
    ensures key in a && key in b && a[key] != b[key] ==>
      LeftOn(a, b, done + {key}) == LeftOn(a, b, done)[key := Without(a[key], b[key])]
  {
  }

  /** filterOutUnchangedAttributes, for any order of the keys.  It fails iff a value is in both of
      two different lists and twice in one. */
  method FilterOutUnchangedAttributes(oldCopy: Attributes, newCopy: Attributes) returns (ok: bool)
    requires oldCopy != newCopy
    modifies oldCopy, newCopy
    ensures ok <==> old(FitsOn(oldCopy.entry, newCopy.entry, oldCopy.entry.Keys))
    ensures ok ==> oldCopy.entry == old(Left(oldCopy.entry, newCopy.entry))
    ensures ok ==> newCopy.entry == old(Left(newCopy.entry, oldCopy.entry))
  {
    hide CommonOnce, Without, LeftOn;
    ghost var a, b := oldCopy.entry, newCopy.entry;
    NothingDone(a, b);
    var keylist := oldCopy.entry.Keys;
    ghost var done: set<string> := {};
    while keylist != {}
      invariant done + keylist == a.Keys && done !! keylist
      invariant FitsOn(a, b, done)
      invariant oldCopy.entry == LeftOn(a, b, done) && newCopy.entry == LeftOn(b, a, done)
    {
      var key :| key in keylist;
      keylist := keylist - {key};
      NextKey(a, b, done, key);
      NextKey(b, a, done, key);
      Untouched(a, b, done, key);
      Untouched(b, a, done, key);
      done := done + {key};
      if key !in newCopy.entry {
        continue;
      }
      if newCopy.entry[key] == oldCopy.entry[key] {
        oldCopy.entry := oldCopy.entry - {key};
        newCopy.entry := newCopy.entry - {key};
        continue;
      }
      ok := RemoveCommon(oldCopy, newCopy, key);
      if !ok {
        return;
      }
    }
    ok := true;
    OtherKeys(b, a);
    assert done == a.Keys;
  }

  ghost function Pairs(e: Entry): set<(string, Value)> {
    set k, v | k in e && v in e[k] :: (k, v)
  }

  lemma {:induction false} WithoutContents(s: seq<Value>, t: seq<Value>)
    ensures forall v :: v in Without(s, t) <==> v in s && v !in t
  {
    if s == [] {
    } else {
      WithoutContents(s[1..], t);
    }
  }

  lemma LeftIsDifference(a: Entry, b: Entry)
    ensures Pairs(Left(a, b)) == Pairs(a) - Pairs(b)
  {
    hide Without;
    forall k, v
      ensures (k, v) in Pairs(Left(a, b)) <==> (k, v) in Pairs(a) - Pairs(b)
    {
      if k in a && k in b {
        WithoutContents(a[k], b[k]);
      }
    }
  }

  /** The log tells the old entry from the new one: without the logged new pairs, and with the
      logged old ones, the new entry is the old one. */
  lemma LogGivesOldBack(a: Entry, b: Entry)
    ensures Pairs(a) == Pairs(b) - Pairs(Left(b, a)) + Pairs(Left(a, b))
  {
    LeftIsDifference(a, b);
    LeftIsDifference(b, a);
  }

  /** Duplicate-free lists never make it fail. */
  lemma {:induction false} OccursOnce(s: seq<Value>, v: Value)
    requires v in s && forall i, j :: 0 <= i < j < |s| ==> s[i] != s[j]
    ensures Occurrences(s, v) == 1
  {
    if s[0] == v {
      OccursIn(s[1..], v);
    } else {
      OccursOnce(s[1..], v);
    }
  }

  ghost predicate DuplicateFree(e: Entry) {
    forall k, i, j :: k in e && 0 <= i < j < |e[k]| ==> e[k][i] != e[k][j]
  }

  lemma DuplicateFreeFits(a: Entry, b: Entry)
    requires DuplicateFree(a) && DuplicateFree(b)
    ensures FitsOn(a, b, a.Keys)
  {
    forall k, v | k in a && k in b && v in a[k] && v in b[k]
      ensures Occurrences(a[k], v) == 1 && Occurrences(b[k], v) == 1
    {
      OccursOnce(a[k], v);
      OccursOnce(b[k], v);
    }
  }

  /** A value that the old entry has twice and the new one once: a removal fails. */
  lemma DoubledValueFails()
    ensures
      var a, b: Entry := map["k" := ["v", "v"]], map["k" := ["v"]];
      !FitsOn(a, b, a.Keys) && !RemoveAll(b["k"], Common(a["k"], b["k"])).Removed?
  {
    var a, b: Entry := map["k" := ["v", "v"]], map["k" := ["v"]];
    assert a["k"][1..] == ["v"] && b["k"][1..] == [];
    assert Occurrences(a["k"], "v") == 2;
    assert Occurrences(b["k"], "v") == 1;
    assert "v" in a["k"] && "v" in b["k"];
    OccurrencesCommon(a["k"], b["k"], "v");
    OccursIn(Common(a["k"], b["k"]), "v");
    RemoveAllSucceeds(b["k"], Common(a["k"], b["k"]));
  }
}
