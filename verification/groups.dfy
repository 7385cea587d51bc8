/** Flattening of nested groups, as ldap-group-to-file.py does it. */
module Groups {
  import opened Wrappers

  ghost function DnsOf(groups: set<Entry>): set<string> {
    set g | g in groups :: g.dn
  }

  datatype Entry = Entry(
    dn: string, objectClass: seq<string>, uniqueMember: seq<string>, cn: seq<string>,
    gidNumber: seq<string>)

  /** What the directory answers.  found holds the result of each base search that does not fail
      with "no such object", users the names of the existing entries with a uid, and rdnValue
      gives the value of the first RDN of a name. */
  datatype Directory = Directory(
    found: map<string, seq<Entry>>, users: set<string>, rdnValue: string -> string)
  {
    function Search(name: string): Option<Entry> {
      if name in found && |found[name]| == 1 then Some(found[name][0]) else None
    }

    /** A name in uniqueMember that leads to a nested group leads to this one. */
    function Nested(name: string): Option<Entry> {
      if "uid=" <= name || !("cn=" <= name) || Search(name).None?
         || "univentionGroup" !in Search(name).value.objectClass
      then None
      else Search(name)
    }

    /** The user or host name that a name in uniqueMember stands for. */
    function Leaf(name: string, check: bool): Option<string> {
      if "uid=" <= name then
        if check && name !in users then None else Some(rdnValue(name))
      else if !("cn=" <= name) || Search(name).None? || Nested(name).Some? || Search(name).value.cn == []
      then None
      else Some(Search(name).value.cn[0] + "$")
    }

    ghost function Dns(): set<string> {
      set name | name in found && Search(name).Some? :: Search(name).value.dn
    }

    ghost predicate IsFound(g: Entry) {
      exists name :: Search(name) == Some(g)
    }

    ghost predicate Nests(g: Entry, c: Entry) {
      exists m :: m in g.uniqueMember && Nested(m) == Some(c)
    }

    /** A chain of nested groups, from the outermost to the innermost. */
    ghost predicate IsChain(p: seq<Entry>) {
      0 < |p| && forall i :: 0 < i < |p| ==> Nests(p[i - 1], p[i])
    }

    ghost predicate Reachable(root: Entry, g: Entry) {
      exists p :: IsChain(p) && p[0] == root && p[|p| - 1] == g
    }

    /** n is the name of a user or host that belongs to the group itself. */
    ghost predicate BelongsDirectly(g: Entry, check: bool, n: string) {
      exists m :: m in g.uniqueMember && Leaf(m, check) == Some(n)
    }

    ghost predicate Belongs(root: Entry, check: bool, n: string) {
      exists g :: Reachable(root, g) && BelongsDirectly(g, check, n)
    }

    /** The hosts among the members of a group have a cn. */
    ghost predicate HostsAreNamed(g: Entry) {
      forall m :: m in g.uniqueMember && "cn=" <= m && Search(m).Some? && Nested(m).None? ==>
        Search(m).value.cn != []
    }

    /** This goes for all groups that can be reached. */
    ghost predicate AllHostsAreNamed(root: Entry) {
      forall g :: Reachable(root, g) ==> HostsAreNamed(g)
    }

    /** Of the groups that can be reached, those with the same name have the same members. */
    ghost predicate Consistent(root: Entry) {
      forall g, h :: Reachable(root, g) && Reachable(root, h) && g.dn == h.dn ==> g.uniqueMember == h.uniqueMember
    }

    lemma NestedHostsAreNamed(g: Entry, m: string, c: Entry)
      requires AllHostsAreNamed(g) && m in g.uniqueMember && Nested(m) == Some(c)
      ensures AllHostsAreNamed(c)
    {
      hide HostsAreNamed, Reachable;
      assert Nests(g, c);
      forall h | Reachable(c, h)
        ensures HostsAreNamed(h)
      {
        ReachesFurther(g, c, h);
      }
    }

    lemma ReachesItself(g: Entry)
      ensures Reachable(g, g)
    {
      assert IsChain([g]);
    }

    lemma ReachesFurther(root: Entry, c: Entry, g: Entry)
      requires Nests(root, c) && Reachable(c, g)
      ensures Reachable(root, g)
    {
      var p :| IsChain(p) && p[0] == c && p[|p| - 1] == g;
      var q := [root] + p;
      assert IsChain(q) && q[0] == root && q[|q| - 1] == g;
    }
  }

  /** A member that has been dealt with: its own name is among the names, its group among those
      seen. */
  ghost predicate Handled(lo: Directory, m: string, check: bool, names: seq<string>, seen: set<string>) {
    && (lo.Leaf(m, check).Some? ==> lo.Leaf(m, check).value in names)
    && (lo.Nested(m).Some? ==> lo.Nested(m).value.dn in seen)
  }

  ghost predicate Done(lo: Directory, g: Entry, check: bool, names: seq<string>, seen: set<string>) {
    forall m :: m in g.uniqueMember ==> Handled(lo, m, check, names, seen)
  }

  /** Where a search that started in g stands after i members of g.  The marked groups have grown
      from start by visited ones only; each visited group is reachable and, g aside, done. */
  ghost predicate Explored(lo: Directory, g: Entry, check: bool, i: nat, start: set<string>,
                           marked: set<string>, names: seq<string>, visited: set<Entry>)
    requires i <= |g.uniqueMember|
  {
    var seen := marked + DnsOf(visited);
    && start <= marked <= start + DnsOf(visited)
    && g in visited
    && (forall v :: v in visited ==> lo.Reachable(g, v) && (v == g || lo.IsFound(v)))
    && (forall v :: v in visited && v != g ==> Done(lo, v, check, names, seen))
    && (forall k :: 0 <= k < i ==> Handled(lo, g.uniqueMember[k], check, names, seen))
    && (forall n :: n in names ==> exists v :: v in visited && lo.BelongsDirectly(v, check, n))
  }

  lemma DoneStays(lo: Directory, g: Entry, check: bool, names: seq<string>, more: seq<string>,
                  seen: set<string>, seen': set<string>)
    requires Done(lo, g, check, names, seen) && seen <= seen' && forall n :: n in names ==> n in more
    ensures Done(lo, g, check, more, seen')
  {
  }

  /** A member that is no nested group, or one that has been marked. */
  lemma NextLeaf(lo: Directory, g: Entry, check: bool, i: nat, start: set<string>,
                 marked: set<string>, names: seq<string>, visited: set<Entry>)
    requires i < |g.uniqueMember| && Explored(lo, g, check, i, start, marked, names, visited)
    requires lo.Nested(g.uniqueMember[i]).Some? ==> lo.Nested(g.uniqueMember[i]).value.dn in marked
    ensures
      var leaf := lo.Leaf(g.uniqueMember[i], check);
      Explored(lo, g, check, i + 1, start, marked,
               if leaf.Some? then names + [leaf.value] else names, visited)
  {
    hide Directory.Reachable, Directory.Nested, Directory.Leaf, Done;
    var leaf := lo.Leaf(g.uniqueMember[i], check);
    var names' := if leaf.Some? then names + [leaf.value] else names;
    var seen := marked + DnsOf(visited);
    forall v | v in visited && v != g
      ensures Done(lo, v, check, names', seen)
    {
      DoneStays(lo, v, check, names, names', seen, seen);
    }
    if leaf.Some? {
      assert lo.BelongsDirectly(g, check, leaf.value);
    }
    hide Directory.BelongsDirectly, DnsOf, Directory.IsFound;
  }

  /** A nested group that has been entered with g marked. */
  lemma NextGroup(lo: Directory, g: Entry, check: bool, i: nat, start: set<string>,
                  marked: set<string>, names: seq<string>, visited: set<Entry>,
                  c: Entry, marked': set<string>, more: seq<string>, below: set<Entry>)
    requires i < |g.uniqueMember| && Explored(lo, g, check, i, start, marked, names, visited)
    requires lo.Nested(g.uniqueMember[i]) == Some(c)
    requires Explored(lo, c, check, |c.uniqueMember|, marked + {g.dn}, marked', more, below)
    ensures Explored(lo, g, check, i + 1, start, marked', names + more, visited + below)
  {
    hide Handled, Done, Directory.Reachable, Directory.BelongsDirectly, Directory.Nested;
    var all, names' := visited + below, names + more;
    var seen, seen' := marked + DnsOf(visited), marked' + DnsOf(all);
    assert DnsOf(all) == DnsOf(visited) + DnsOf(below);
    assert seen <= seen';
    forall v | v in below
      ensures lo.Reachable(g, v) && lo.IsFound(v)
    {
      NestedIsFound(lo, g.uniqueMember[i], c);
      assert lo.Nests(g, c);
      lo.ReachesFurther(g, c, v);
    }
    forall v | v in all && v != g
      ensures Done(lo, v, check, names', seen')
    {
      if v in visited {
        DoneStays(lo, v, check, names, names', seen, seen');
      } else {
        StartDone(lo, c, check, marked + {g.dn}, marked', more, below);
        DoneStays(lo, v, check, more, names', marked' + DnsOf(below), seen');
      }
    }
    forall k | 0 <= k < i + 1
      ensures Handled(lo, g.uniqueMember[k], check, names', seen')
    {
      if k < i {
        HandledStays(lo, g.uniqueMember[k], check, names, names', seen, seen');
      } else {
        GroupHandled(lo, g.uniqueMember[k], check, c, names', seen');
      }
    }
    forall n | n in names'
      ensures exists v :: v in all && lo.BelongsDirectly(v, check, n)
    {
      if n in names {
        var v :| v in visited && lo.BelongsDirectly(v, check, n);
      } else {
        var v :| v in below && lo.BelongsDirectly(v, check, n);
      }
    }
  }

  lemma NestedIsFound(lo: Directory, m: string, c: Entry)
    requires lo.Nested(m) == Some(c)
    ensures lo.IsFound(c)
  {
    assert lo.Search(m) == Some(c);
  }

  lemma StartDone(lo: Directory, g: Entry, check: bool, start: set<string>, marked: set<string>,
                  names: seq<string>, visited: set<Entry>)
    requires Explored(lo, g, check, |g.uniqueMember|, start, marked, names, visited)
    ensures Done(lo, g, check, names, marked + DnsOf(visited))
  {
  }

  lemma GroupHandled(lo: Directory, m: string, check: bool, c: Entry, names: seq<string>, seen: set<string>)
    requires lo.Nested(m) == Some(c) && c.dn in seen
    ensures Handled(lo, m, check, names, seen)
  {
  }

  lemma HandledStays(lo: Directory, m: string, check: bool, names: seq<string>, more: seq<string>,
                     seen: set<string>, seen': set<string>)
    requires Handled(lo, m, check, names, seen) && seen <= seen' && forall n :: n in names ==> n in more
    ensures Handled(lo, m, check, more, seen')
  {
  }

  class RecursionList {
    var items: seq<string>

    constructor ()
      ensures items == []
    {
      items := [];
    }

    ghost function Marked(): set<string>
      reads this
    {
      set dn | dn in items
    }
  }

  /** _get_members.  A group is marked when it is about to enter a nested one, so the recursion
      decreases the unmarked groups, or goes from a marked group to an unmarked one. */
  method GetMembers(lo: Directory, g: Entry, list: RecursionList, check: bool, ghost all: set<string>)
    returns (result: seq<string>, ghost visited: set<Entry>)
    requires lo.AllHostsAreNamed(g) && g.dn in all && lo.Dns() <= all
    modifies list
    ensures old(list.Marked()) <= list.Marked()
    ensures Explored(lo, g, check, |g.uniqueMember|, old(list.Marked()), list.Marked(), result, visited)
    decreases all - list.Marked(), if g.dn in list.items then 1 else 0
  {
    hide Explored, Directory.AllHostsAreNamed;
    HostsOf(lo, g);
    result := [];
    visited := {g};
    Start(lo, g, check, list.Marked());
    var i := 0;
    while i < |g.uniqueMember|
      invariant i <= |g.uniqueMember|
      invariant old(list.Marked()) <= list.Marked()
      invariant Explored(lo, g, check, i, old(list.Marked()), list.Marked(), result, visited)
    {
      var m := g.uniqueMember[i];
      ghost var before, names := list.Marked(), result;
      i := i + 1;
      if "uid=" <= m {
        if check {
          if m !in lo.users {
            NextLeaf(lo, g, check, i - 1, old(list.Marked()), before, names, visited);
            continue;
          }
        }
        result := result + [lo.rdnValue(m)];
      } else if "cn=" <= m {
        if m !in lo.found || |lo.found[m]| != 1 {
          NextLeaf(lo, g, check, i - 1, old(list.Marked()), before, names, visited);
          continue;
        }
        var member := lo.found[m][0];
        if "univentionGroup" in member.objectClass {
          if member.dn !in list.items {
            lo.NestedHostsAreNamed(g, m, member);
            list.items := list.items + [g.dn];
            assert list.Marked() == before + {g.dn};
            var more;
            ghost var below;
            more, below := GetMembers(lo, member, list, check, all);
            result := result + more;
            NextGroup(lo, g, check, i - 1, old(list.Marked()), before, names, visited,
                      member, list.Marked(), more, below);
            visited := visited + below;
            continue;
          }
        } else {
          result := result + [member.cn[0] + "$"];
        }
      }
      NextLeaf(lo, g, check, i - 1, old(list.Marked()), before, names, visited);
    }
  }

  lemma HostsOf(lo: Directory, g: Entry)
    requires lo.AllHostsAreNamed(g)
    ensures lo.HostsAreNamed(g)
  {
    lo.ReachesItself(g);
  }

  lemma Start(lo: Directory, g: Entry, check: bool, marked: set<string>)
    ensures Explored(lo, g, check, 0, marked, marked, [], {g})
  {
    lo.ReachesItself(g);
  }

  lemma SameMembers(lo: Directory, p: seq<Entry>, v: Entry)
    requires lo.IsChain(p) && lo.Consistent(p[0])
    requires lo.Reachable(p[0], v) && v.dn == p[|p| - 1].dn
    ensures v.uniqueMember == p[|p| - 1].uniqueMember
  {
    assert 0 < |p|;
    hide Directory.IsChain;
    assert lo.Reachable(p[0], p[|p| - 1]);
  }

  /** The group that a member of a visited group leads to has been visited under its name. */
  lemma MemberIsVisited(lo: Directory, root: Entry, check: bool, marked: set<string>, names: seq<string>,
                        visited: set<Entry>, u: Entry, m: string)
    requires Explored(lo, root, check, |root.uniqueMember|, {}, marked, names, visited)
    requires u in visited && m in u.uniqueMember && lo.Nested(m).Some?
    ensures exists v :: v in visited && v.dn == lo.Nested(m).value.dn && lo.Reachable(root, v)
  {
    hide Directory.Nested, Directory.Reachable;
    assert Handled(lo, m, check, names, marked + DnsOf(visited));
    var v :| v in visited && v.dn == lo.Nested(m).value.dn;
  }

  /** If a search started with nothing marked, then each reachable group has the name and the
      members of a visited one. */
  lemma {:induction false} VisitsReachable(lo: Directory, p: seq<Entry>, check: bool, marked: set<string>,
                                           names: seq<string>, visited: set<Entry>)
    returns (v: Entry)
    requires lo.IsChain(p) && lo.Consistent(p[0])
    requires Explored(lo, p[0], check, |p[0].uniqueMember|, {}, marked, names, visited)
    ensures v in visited && v.dn == p[|p| - 1].dn && v.uniqueMember == p[|p| - 1].uniqueMember
    decreases |p|
  {
    hide Directory.Consistent, Directory.Reachable, Directory.Nested;
    v := p[0];
    if |p| == 1 {
    } else {
      hide Explored;
      var u := VisitsReachable(lo, p[..|p| - 1], check, marked, names, visited);
      assert lo.Nests(p[|p| - 2], p[|p| - 1]);
      var m :| m in p[|p| - 2].uniqueMember && lo.Nested(m) == Some(p[|p| - 1]);
      MemberIsVisited(lo, p[0], check, marked, names, visited, u, m);
      v :| v in visited && v.dn == p[|p| - 1].dn && lo.Reachable(p[0], v);
      SameMembers(lo, p, v);
    }
  }

  /** What a search finds if it started with nothing marked. */
  lemma FindsAllMembers(lo: Directory, root: Entry, check: bool, marked: set<string>,
                        names: seq<string>, visited: set<Entry>)
    requires lo.Consistent(root)
    requires Explored(lo, root, check, |root.uniqueMember|, {}, marked, names, visited)
    ensures forall n :: n in names <==> lo.Belongs(root, check, n)
  {
    hide Directory.Consistent, Directory.Reachable, Directory.BelongsDirectly, Handled, Done;
    forall n | lo.Belongs(root, check, n)
      ensures n in names
    {
      var g :| lo.Reachable(root, g) && lo.BelongsDirectly(g, check, n);
      FindsMember(lo, root, check, marked, names, visited, g, n);
    }
  }

  lemma FindsMember(lo: Directory, root: Entry, check: bool, marked: set<string>,
                    names: seq<string>, visited: set<Entry>, g: Entry, n: string)
    requires lo.Consistent(root)
    requires Explored(lo, root, check, |root.uniqueMember|, {}, marked, names, visited)
    requires lo.Reachable(root, g) && lo.BelongsDirectly(g, check, n)
    ensures n in names
  {
    var p :| lo.IsChain(p) && p[0] == root && p[|p| - 1] == g;
    var v := VisitsReachable(lo, p, check, marked, names, visited);
    hide Directory.Consistent, Directory.Reachable, Directory.IsChain, Directory.Nested;
    var m :| m in g.uniqueMember && lo.Leaf(m, check) == Some(n);
    assert Handled(lo, m, check, names, marked + DnsOf(visited));
  }

  function FirstOrEmpty(values: seq<string>): string {
    if values == [] then "" else values[0]
  }

  datatype Line = Line(name: string, gid: string, members: set<string>)

  /** The members of one group, without duplicates, by a search with a list of its own. */
  method MembersOf(lo: Directory, g: Entry, check: bool) returns (members: set<string>)
    requires lo.Consistent(g) && lo.AllHostsAreNamed(g)
    ensures forall n :: n in members <==> lo.Belongs(g, check, n)
  {
    hide Explored, Directory.Consistent, Directory.Belongs, Directory.AllHostsAreNamed;
    var list := new RecursionList();
    assert list.Marked() == {};
    var names;
    ghost var visited;
    names, visited := GetMembers(lo, g, list, check, lo.Dns() + {g.dn});
    FindsAllMembers(lo, g, check, list.Marked(), names, visited);
    members := set n | n in names;
  }

  /** doit: a line for each group. */
  method DoIt(lo: Directory, groups: seq<Entry>, check: bool) returns (lines: seq<Line>)
    requires forall g :: g in groups ==> lo.Consistent(g) && lo.AllHostsAreNamed(g)
    ensures |lines| == |groups|
    ensures forall i :: 0 <= i < |groups| ==>
      lines[i].name == lo.rdnValue(groups[i].dn) && lines[i].gid == FirstOrEmpty(groups[i].gidNumber)
    ensures forall i, n :: 0 <= i < |groups| ==>
      (n in lines[i].members <==> lo.Belongs(groups[i], check, n))
  {
    hide Directory.Consistent, Directory.Belongs, Directory.AllHostsAreNamed;
    lines := [];
    for k := 0 to |groups|
      invariant |lines| == k
      invariant forall i :: 0 <= i < k ==>
        lines[i].name == lo.rdnValue(groups[i].dn) && lines[i].gid == FirstOrEmpty(groups[i].gidNumber)
      invariant forall i, n :: 0 <= i < k ==>
        (n in lines[i].members <==> lo.Belongs(groups[i], check, n))
    {
      var g := groups[k];
      var members := MembersOf(lo, g, check);
      lines := lines + [Line(lo.rdnValue(g.dn), FirstOrEmpty(g.gidNumber), members)];
    }
  }
}
