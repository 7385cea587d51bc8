/** A directory with nested groups in a cycle, and the line that is written for one of them. */
module GroupExample {
  import opened Groups
  import opened Wrappers

  /** Group a has a user, group b, a host, a name that is not found and one that is ambiguous; group b
      has another user and group a. */
  const GROUP_A :=
    Entry("cn=a", ["univentionGroup"], ["uid=x", "cn=b", "cn=h", "cn=gone", "cn=two", "ou=z"], ["a"], ["7"])

  const GROUP_B := Entry("cn=b", ["top", "univentionGroup"], ["uid=y", "cn=a"], ["b"], [])

  const HOST := Entry("cn=h", ["univentionHost"], [], ["h1", "h2"], [])

  ghost predicate IsDirectory(lo: Directory) {
    && lo.found == map["cn=a" := [GROUP_A], "cn=b" := [GROUP_B], "cn=h" := [HOST], "cn=two" := [HOST, HOST]]
    && lo.users == {"uid=x"}
    && lo.rdnValue("cn=a") == "a" && lo.rdnValue("uid=x") == "x" && lo.rdnValue("uid=y") == "y"
  }

  lemma Prefixes()
    ensures "uid=" <= "uid=x" && "uid=" <= "uid=y" && "cn=" <= "cn=a" && "cn=" <= "cn=b" && "cn=" <= "cn=h"
    ensures !("uid=" <= "cn=a") && !("uid=" <= "cn=b") && !("uid=" <= "cn=h") && !("uid=" <= "cn=gone")
    ensures !("uid=" <= "cn=two") && !("uid=" <= "ou=z") && !("cn=" <= "ou=z")
    ensures "cn=" <= "cn=gone" && "cn=" <= "cn=two" && "uid=x" != "uid=y"
    ensures "cn=a" != "cn=b" && "cn=a" != "cn=h" && "cn=b" != "cn=h"
    ensures "cn=gone" !in {"cn=a", "cn=b", "cn=h", "cn=two"} && "cn=two" !in {"cn=a", "cn=b", "cn=h"}
  {
    assert "cn=a"[0] == 'c' && "ou=z"[0] == 'o' && "cn=a"[3] == 'a' && "cn=b"[3] == 'b' && "cn=h"[3] == 'h';
    assert "cn=gone"[3] == 'g' && "cn=two"[3] == 't' && "uid=x"[4] == 'x' && "uid=y"[4] == 'y';
  }

  lemma Answers(lo: Directory)
    requires IsDirectory(lo)
    ensures lo.Nested("uid=x") == None && lo.Nested("cn=b") == Some(GROUP_B) && lo.Nested("cn=h") == None
    ensures lo.Nested("cn=gone") == None && lo.Nested("cn=two") == None && lo.Nested("ou=z") == None
    ensures lo.Nested("uid=y") == None && lo.Nested("cn=a") == Some(GROUP_A)
  {
    Prefixes();
    assert GROUP_A.objectClass[0] == "univentionGroup" && GROUP_B.objectClass[1] == "univentionGroup";
    assert "univentionHost"[10] == 'H' && "univentionGroup"[10] == 'G';
  }

  lemma Leaves(lo: Directory, check: bool)
    requires IsDirectory(lo)
    ensures lo.Leaf("uid=x", check) == Some("x") && lo.Leaf("cn=b", check) == None
    ensures lo.Leaf("cn=h", check) == Some("h1$")
    ensures lo.Leaf("cn=gone", check) == None && lo.Leaf("cn=two", check) == None && lo.Leaf("ou=z", check) == None
    ensures lo.Leaf("uid=y", check) == (if check then None else Some("y")) && lo.Leaf("cn=a", check) == None
  {
    Prefixes();
    Answers(lo);
    hide Directory.Nested;
    assert "h1" + "$" == "h1$";
  }

  lemma {:induction false} ReachesTwo(lo: Directory, p: seq<Entry>)
    requires IsDirectory(lo) && lo.IsChain(p) && p[0] == GROUP_A
    ensures p[|p| - 1] == GROUP_A || p[|p| - 1] == GROUP_B
    decreases |p|
  {
    Answers(lo);
    hide Directory.Nested;
    if |p| == 1 {
    } else {
      var init := p[..|p| - 1];
      ReachesTwo(lo, init);
      assert lo.Nests(p[|p| - 2], p[|p| - 1]);
    }
  }

  lemma ReachesNoMore(lo: Directory, g: Entry)
    requires IsDirectory(lo) && lo.Reachable(GROUP_A, g)
    ensures g == GROUP_A || g == GROUP_B
  {
    hide Directory.Nested, Directory.Nests;
    var p :| lo.IsChain(p) && p[0] == GROUP_A && p[|p| - 1] == g;
    ReachesTwo(lo, p);
  }

  lemma ReachesBoth(lo: Directory)
    requires IsDirectory(lo)
    ensures lo.Reachable(GROUP_A, GROUP_A) && lo.Reachable(GROUP_A, GROUP_B)
  {
    Answers(lo);
    hide Directory.Nested, Directory.Reachable;
    assert GROUP_A.uniqueMember[1] == "cn=b";
    assert lo.Nests(GROUP_A, GROUP_B);
    hide *;
    lo.ReachesItself(GROUP_A);
    lo.ReachesItself(GROUP_B);
    lo.ReachesFurther(GROUP_A, GROUP_B, GROUP_B);
  }

  lemma MembersOfA(lo: Directory, check: bool, n: string)
    requires IsDirectory(lo)
    ensures lo.BelongsDirectly(GROUP_A, check, n) <==> n == "x" || n == "h1$"
  {
    Leaves(lo, check);
    hide Directory.Leaf;
    assert GROUP_A.uniqueMember[0] == "uid=x" && GROUP_A.uniqueMember[2] == "cn=h";
  }

  lemma MembersOfB(lo: Directory, check: bool, n: string)
    requires IsDirectory(lo)
    ensures lo.BelongsDirectly(GROUP_B, check, n) <==> n == "y" && !check
  {
    Leaves(lo, check);
    hide Directory.Leaf;
    assert GROUP_B.uniqueMember[0] == "uid=y";
  }

  lemma Belonging(lo: Directory, check: bool, n: string)
    requires IsDirectory(lo)
    ensures lo.Belongs(GROUP_A, check, n) <==> n in (if check then {"x", "h1$"} else {"x", "y", "h1$"})
  {
    hide Directory.Reachable, Directory.BelongsDirectly;
    ReachesBoth(lo);
    MembersOfA(lo, check, n);
    MembersOfB(lo, check, n);
    if lo.Belongs(GROUP_A, check, n) {
      var g :| lo.Reachable(GROUP_A, g) && lo.BelongsDirectly(g, check, n);
      ReachesNoMore(lo, g);
    }
  }

  lemma Usable(lo: Directory)
    requires IsDirectory(lo)
    ensures lo.Consistent(GROUP_A) && lo.AllHostsAreNamed(GROUP_A)
  {
    Prefixes();
    assert GROUP_A.dn != GROUP_B.dn;
    Named(lo);
    hide Directory.Reachable, Directory.HostsAreNamed;
    forall g | lo.Reachable(GROUP_A, g)
      ensures g == GROUP_A || g == GROUP_B
    {
      ReachesNoMore(lo, g);
    }
  }

  lemma Named(lo: Directory)
    requires IsDirectory(lo)
    ensures lo.HostsAreNamed(GROUP_A) && lo.HostsAreNamed(GROUP_B)
  {
    Prefixes();
    Answers(lo);
    hide Directory.Nested;
  }

  lemma NamesOfA(lo: Directory)
    requires IsDirectory(lo)
    ensures lo.rdnValue(GROUP_A.dn) == "a" && FirstOrEmpty(GROUP_A.gidNumber) == "7"
  {
  }

  /** The line of group a, with and without a check of the users. */
  method WritesLine(lo: Directory, check: bool) returns (lines: seq<Line>)
    requires IsDirectory(lo)
    ensures |lines| == 1 && lines[0].name == "a" && lines[0].gid == "7"
    ensures lines[0].members == if check then {"x", "h1$"} else {"x", "y", "h1$"}
  {
    hide *;
    Usable(lo);
    NamesOfA(lo);
    lines := LineOf(lo, GROUP_A, check);
    forall n
      ensures n in lines[0].members <==> n in (if check then {"x", "h1$"} else {"x", "y", "h1$"})
    {
      Belonging(lo, check, n);
    }
  }

  method LineOf(lo: Directory, group: Entry, check: bool) returns (lines: seq<Line>)
    requires lo.Consistent(group) && lo.AllHostsAreNamed(group)
    ensures |lines| == 1 && lines[0].name == lo.rdnValue(group.dn) && lines[0].gid == FirstOrEmpty(group.gidNumber)
    ensures forall n :: n in lines[0].members <==> lo.Belongs(group, check, n)
  {
    hide Directory.Consistent, Directory.AllHostsAreNamed, Directory.Belongs;
    var groups := [group];
    lines := DoIt(lo, groups, check);
    assert groups[0] == group;
  }
}
