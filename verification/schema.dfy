/** The ordering of schema definitions by inheritance, as in replication.py. */
module Schema {

  type Oid = string

  /** The definitions of one kind: the names of the superiors of each, and the definition that a
      name refers to. */
  datatype SubSchema = SubSchema(sup: map<Oid, seq<string>>, names: map<string, Oid>, builtin: set<Oid>) {

    /** Every superior that is named is defined. */
    predicate Valid() {
      forall x :: x in sup ==> forall i :: 0 <= i < |sup[x]| ==> sup[x][i] in names && names[sup[x][i]] in sup
    }

    ghost predicate IsSup(s: Oid, x: Oid) {
      x in sup && exists i :: 0 <= i < |sup[x]| && sup[x][i] in names && names[sup[x][i]] == s
    }

    ghost predicate Ours(x: Oid) {
      x in sup && x !in builtin
    }

    /** A chain from a definition up to a superior, without built-in definitions. */
    ghost predicate IsChain(p: seq<Oid>) {
      && p != []
      && (forall i :: 0 <= i < |p| ==> Ours(p[i]))
      && (forall i :: 0 < i < |p| ==> IsSup(p[i], p[i - 1]))
    }

    ghost predicate Acyclic() {
      forall p :: IsChain(p) && 1 < |p| ==> p[0] != p[|p| - 1]
    }

    ghost predicate Inherits(x: Oid, s: Oid) {
      exists p :: IsChain(p) && p[0] == x && p[|p| - 1] == s
    }

    /** x is one of the first k definitions that are listed, or inherited by one of them. */
    ghost predicate Needed(listed: seq<Oid>, k: nat, x: Oid)
      requires k <= |listed|
    {
      exists i :: 0 <= i < k && Inherits(listed[i], x)
    }

    lemma NeededIsListed(result: seq<Oid>, listed: seq<Oid>, x: Oid)
      requires Sorted(result) && Needed(listed, |listed|, x)
      requires forall k :: 0 <= k < |listed| && listed[k] !in builtin ==> listed[k] in result
      ensures x in result
    {
      var i :| 0 <= i < |listed| && Inherits(listed[i], x);
      var p :| IsChain(p) && p[0] == listed[i] && p[|p| - 1] == x;
      SortedIsClosed(result, p);
    }

    /** No duplicates, no built-in definitions, and each definition after its superiors. */
    ghost predicate Sorted(result: seq<Oid>) {
      forall k :: 0 <= k < |result| ==>
        && Ours(result[k]) && result[k] !in result[..k]
        && forall s :: IsSup(s, result[k]) && s !in builtin ==> s in result[..k]
    }

    lemma InheritsItself(x: Oid)
      requires Ours(x)
      ensures Inherits(x, x)
    {
      assert IsChain([x]);
    }

    lemma InheritsFurther(x: Oid, s: Oid, t: Oid)
      requires Ours(x) && IsSup(s, x) && Inherits(s, t)
      ensures Inherits(x, t)
      ensures Acyclic() ==> x != t
    {
      var p :| IsChain(p) && p[0] == s && p[|p| - 1] == t;
      var q := [x] + p;
      assert IsChain(q) && q[0] == x && q[|q| - 1] == t;
    }

    lemma ChainGrows(stack: seq<Oid>, x: Oid, i: nat)
      requires Valid() && x in sup && IsChain(stack + [x]) && i < |sup[x]|
      ensures IsSup(names[sup[x][i]], x)
      ensures names[sup[x][i]] !in builtin ==> IsChain((stack + [x]) + [names[sup[x][i]]])
    {
    }

    lemma SortedGrows(result: seq<Oid>, x: Oid)
      requires Valid() && Sorted(result) && Ours(x) && x !in result
      requires forall i :: 0 <= i < |sup[x]| && names[sup[x][i]] !in builtin ==> names[sup[x][i]] in result
      ensures Sorted(result + [x])
    {
      var longer := result + [x];
      forall k | 0 <= k < |longer|
        ensures Ours(longer[k]) && longer[k] !in longer[..k]
        ensures forall s :: IsSup(s, longer[k]) && s !in builtin ==> s in longer[..k]
      {
        if k < |result| {
          assert longer[..k] == result[..k];
        } else {
          assert longer[..k] == result;
        }
      }
    }

    /** A chain without a cycle does not come back to where it has been. */
    lemma ChainGoesOn(stack: seq<Oid>, x: Oid)
      requires IsChain(stack + [x]) && Acyclic()
      ensures x !in stack
    {
      if x in stack {
        var i :| 0 <= i < |stack| && stack[i] == x;
        var p := (stack + [x])[i..];
        assert IsChain(p);
      }
    }

    /** A sorted list is closed under superiors. */
    lemma {:induction false} SortedIsClosed(result: seq<Oid>, p: seq<Oid>)
      requires Sorted(result) && IsChain(p) && p[0] in result
      ensures p[|p| - 1] in result
      decreases |p|
    {
      if |p| == 1 {
      } else {
        var k :| 0 <= k < |result| && result[k] == p[0];
        assert IsSup(p[1], p[0]) && p[1] in result[..k];
        SortedIsClosed(result, p[1..]);
      }
    }
  }

  class OidList {
    var items: seq<Oid>

    constructor ()
      ensures items == []
    {
      items := [];
    }
  }

  /** The list has grown by definitions that oid inherits from, itself included. */
  ghost predicate Grown(subschema: SubSchema, oid: Oid, was: seq<Oid>, now: seq<Oid>) {
    was <= now && forall x :: x in now ==> x in was || subschema.Inherits(oid, x)
  }

  lemma GrownFurther(subschema: SubSchema, oid: Oid, s: Oid, start: seq<Oid>, was: seq<Oid>, now: seq<Oid>)
    requires subschema.Ours(oid) && subschema.IsSup(s, oid) && subschema.Acyclic()
    requires Grown(subschema, oid, start, was) && Grown(subschema, s, was, now)
    ensures Grown(subschema, oid, start, now)
    ensures oid !in was ==> oid !in now
  {
    hide SubSchema.Inherits, SubSchema.Acyclic, SubSchema.IsSup;
    forall x | x in now && x !in was
      ensures subschema.Inherits(oid, x) && x != oid
    {
      subschema.InheritsFurther(oid, s, x);
    }
  }

  /** The first i superiors of a definition are in the list, unless they are built in. */
  ghost predicate SupsIn(subschema: SubSchema, oid: Oid, i: nat, items: seq<Oid>)
    requires subschema.Valid() && oid in subschema.sup && i <= |subschema.sup[oid]|
  {
    var sup := subschema.sup[oid];
    forall k :: 0 <= k < i && subschema.names[sup[k]] !in subschema.builtin ==> subschema.names[sup[k]] in items
  }

  lemma NextSup(subschema: SubSchema, oid: Oid, i: nat, s: Oid, was: seq<Oid>, now: seq<Oid>)
    requires subschema.Valid() && oid in subschema.sup && i < |subschema.sup[oid]|
    requires s == subschema.names[subschema.sup[oid][i]] && (s !in subschema.builtin ==> s in now)
    requires SupsIn(subschema, oid, i, was) && Grown(subschema, s, was, now)
    ensures SupsIn(subschema, oid, i + 1, now)
  {
  }

  lemma LastGrown(subschema: SubSchema, oid: Oid, was: seq<Oid>, now: seq<Oid>)
    requires subschema.Valid() && subschema.Ours(oid) && oid !in now && subschema.Sorted(now)
    requires SupsIn(subschema, oid, |subschema.sup[oid]|, now) && Grown(subschema, oid, was, now)
    ensures subschema.Sorted(now + [oid]) && Grown(subschema, oid, was, now + [oid])
  {
    hide SubSchema.Sorted, SubSchema.Inherits;
    subschema.SortedGrows(now, oid);
    subschema.InheritsItself(oid);
  }

  lemma NotGrown(subschema: SubSchema, oid: Oid, items: seq<Oid>)
    ensures Grown(subschema, oid, items, items)
  {
  }

  /** subschema_oids_with_sup; stack is the chain of calls that are under way. */
  method OidsWithSup(subschema: SubSchema, oid: Oid, result: OidList, ghost stack: seq<Oid>)
    requires subschema.Valid() && subschema.Acyclic() && oid in subschema.sup
    requires oid !in subschema.builtin ==> subschema.IsChain(stack + [oid])
    requires subschema.Sorted(result.items)
    modifies result
    ensures subschema.Sorted(result.items) && Grown(subschema, oid, old(result.items), result.items)
    ensures oid !in subschema.builtin ==> oid in result.items
    decreases subschema.sup.Keys - set x | x in stack
  {
    hide SubSchema.Sorted, SubSchema.Acyclic, SubSchema.IsChain, SubSchema.IsSup, Grown;
    NotGrown(subschema, oid, result.items);
    if oid in subschema.builtin || oid in result.items {
      return;
    }
    var sup := subschema.sup[oid];
    subschema.ChainGoesOn(stack, oid);
    ghost var chain := stack + [oid];
    assert (set x | x in chain) == (set x | x in stack) + {oid};
    for i := 0 to |sup|
      invariant subschema.Sorted(result.items) && Grown(subschema, oid, old(result.items), result.items)
      invariant SupsIn(subschema, oid, i, result.items)
      invariant oid !in result.items
    {
      hide SupsIn;
      var s := subschema.names[sup[i]];
      subschema.ChainGrows(stack, oid, i);
      ghost var before := result.items;
      OidsWithSup(subschema, s, result, chain);
      GrownFurther(subschema, oid, s, old(result.items), before, result.items);
      NextSup(subschema, oid, i, s, before, result.items);
    }
    LastGrown(subschema, oid, old(result.items), result.items);
    result.items := result.items + [oid];
  }

  /** subschema_sort: exactly the definitions that are listed or inherited from, superiors first. */
  method Sort(subschema: SubSchema, listed: seq<Oid>) returns (oids: seq<Oid>)
    requires subschema.Valid() && subschema.Acyclic()
    requires forall i :: 0 <= i < |listed| ==> listed[i] in subschema.sup
    ensures subschema.Sorted(oids)
    ensures forall x :: x in oids <==> subschema.Needed(listed, |listed|, x)
  {
    hide SubSchema.Sorted, SubSchema.Inherits, SubSchema.Acyclic;
    var result := new OidList();
    Nothing(subschema);
    for i := 0 to |listed|
      invariant subschema.Sorted(result.items)
      invariant forall k :: 0 <= k < i && listed[k] !in subschema.builtin ==> listed[k] in result.items
      invariant forall x :: x in result.items ==> subschema.Needed(listed, i, x)
    {
      Single(subschema, listed[i]);
      OidsWithSup(subschema, listed[i], result, []);
    }
    oids := result.items;
    forall x | subschema.Needed(listed, |listed|, x)
      ensures x in oids
    {
      subschema.NeededIsListed(oids, listed, x);
    }
  }

  lemma Nothing(subschema: SubSchema)
    ensures subschema.Sorted([])
  {
  }

  lemma Single(subschema: SubSchema, x: Oid)
    requires x in subschema.sup
    ensures x !in subschema.builtin ==> subschema.IsChain([] + [x])
  {
  }
}
