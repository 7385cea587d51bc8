/** Small inputs of two algorithms on lists: what the log keeps of two entries, and an order of schema
    definitions. */
module ListExamples {
  import opened DirLog
  import Schema

  lemma ValuesLeft()
    ensures Without(["1", "2"], ["2", "3"]) == ["1"] && Without(["2", "3"], ["1", "2"]) == ["3"]
    ensures ["1", "2"] != ["2", "3"]
  {
    assert "1" != "2" && "2" != "3" && "1" != "3" by { assert "1"[0] == '1' && "2"[0] == '2' && "3"[0] == '3'; }
    assert ["1", "2"][1..] == ["2"] && ["2", "3"][1..] == ["3"] && ["2"][1..] == [] && ["3"][1..] == [];
    assert Without(["2"], ["2", "3"]) == [] && Without(["3"], ["1", "2"]) == ["3"];
    assert ["1", "2"][0] != ["2", "3"][0];
  }

  lemma Lefts(a: Entry, b: Entry)
    requires a == map["a" := ["1", "2"], "b" := ["x"], "c" := ["q"]]
    requires b == map["a" := ["2", "3"], "b" := ["x"], "d" := ["r"]]
    ensures Left(a, b) == map["a" := ["1"], "c" := ["q"]] && Left(b, a) == map["a" := ["3"], "d" := ["r"]]
  {
    LeftOfFirst(a, b);
    LeftOfSecond(a, b);
  }

  lemma LeftOfFirst(a: Entry, b: Entry)
    requires a == map["a" := ["1", "2"], "b" := ["x"], "c" := ["q"]]
    requires b == map["a" := ["2", "3"], "b" := ["x"], "d" := ["r"]]
    ensures Left(a, b) == map["a" := ["1"], "c" := ["q"]]
  {
    ValuesLeft();
    KeysDiffer();
    hide Without;
    assert Left(a, b).Keys == {"a", "c"};
  }

  lemma LeftOfSecond(a: Entry, b: Entry)
    requires a == map["a" := ["1", "2"], "b" := ["x"], "c" := ["q"]]
    requires b == map["a" := ["2", "3"], "b" := ["x"], "d" := ["r"]]
    ensures Left(b, a) == map["a" := ["3"], "d" := ["r"]]
  {
    ValuesLeft();
    KeysDiffer();
    hide Without;
    assert Left(b, a).Keys == {"a", "d"};
  }

  lemma KeysDiffer()
    ensures "a" != "b" && "a" != "c" && "a" != "d" && "b" != "c" && "b" != "d" && "c" != "d"
  {
    assert "a"[0] == 'a' && "b"[0] == 'b' && "c"[0] == 'c' && "d"[0] == 'd';
  }

  /** An attribute with a value that goes and one that comes, one that stays, and one on each side. */
  method KeepsDifferences(oldCopy: Attributes, newCopy: Attributes) returns (ok: bool)
    requires oldCopy != newCopy
    requires oldCopy.entry == map["a" := ["1", "2"], "b" := ["x"], "c" := ["q"]]
    requires newCopy.entry == map["a" := ["2", "3"], "b" := ["x"], "d" := ["r"]]
    modifies oldCopy, newCopy
    ensures ok && oldCopy.entry == map["a" := ["1"], "c" := ["q"]] && newCopy.entry == map["a" := ["3"], "d" := ["r"]]
  {
    Lefts(oldCopy.entry, newCopy.entry);
    NoneTwice(oldCopy.entry, newCopy.entry);
    hide Left, FitsOn;
    ok := FilterOutUnchangedAttributes(oldCopy, newCopy);
  }

  lemma NoneTwice(a: Entry, b: Entry)
    requires a == map["a" := ["1", "2"], "b" := ["x"], "c" := ["q"]]
    requires b == map["a" := ["2", "3"], "b" := ["x"], "d" := ["r"]]
    ensures FitsOn(a, b, a.Keys)
  {
    DuplicateFreeFits(a, b);
  }

  /** Definition 9 has superiors b, which is definition 5, and top, which is built in; definition 5 has
      superior c, which is definition 7. */
  const SCHEMA := Schema.SubSchema(
    map["9" := ["b", "top"], "5" := ["c"], "7" := ["top"], "1" := []],
    map["b" := "5", "c" := "7", "top" := "1"],
    {"1"})

  lemma OneRound(x: string, s: string)
    ensures SCHEMA.IsSup(s, x) <==> (x == "9" && s in {"5", "1"}) || (x == "5" && s == "7") || (x == "7" && s == "1")
  {
    assert SCHEMA.sup["9"][0] == "b" && SCHEMA.sup["9"][1] == "top" && SCHEMA.sup["5"][0] == "c";
    assert SCHEMA.sup["7"][0] == "top";
  }

  function Rank(x: string): nat {
    if x == "9" then 3 else if x == "5" then 2 else if x == "7" then 1 else 0
  }

  lemma OidsDiffer()
    ensures "9" != "5" && "9" != "7" && "9" != "1" && "5" != "7" && "5" != "1" && "7" != "1"
  {
    assert "9"[0] == '9' && "5"[0] == '5' && "7"[0] == '7' && "1"[0] == '1';
  }

  lemma {:induction false} RankFalls(p: seq<string>)
    requires SCHEMA.IsChain(p)
    ensures |p| == 1 || Rank(p[|p| - 1]) < Rank(p[0])
    decreases |p|
  {
    hide Schema.SubSchema.IsSup;
    OidsDiffer();
    if |p| > 1 {
      RankFalls(p[..|p| - 1]);
      OneRound(p[|p| - 2], p[|p| - 1]);
    }
  }

  lemma Usable()
    ensures SCHEMA.Valid() && SCHEMA.Acyclic()
  {
    assert SCHEMA.Valid();
    hide Schema.SubSchema.IsChain, Schema.SubSchema.Valid;
    forall p | SCHEMA.IsChain(p) && 1 < |p|
      ensures p[0] != p[|p| - 1]
    {
      RankFalls(p);
      hide Rank;
    }
  }

  lemma Contained(result: seq<string>)
    requires SCHEMA.Sorted(result) && "9" in result
    ensures "5" in result && "7" in result
  {
    var i :| 0 <= i < |result| && result[i] == "9";
    OneRound("9", "5");
    OneRound("5", "7");
    OidsDiffer();
    hide Schema.SubSchema.IsSup;
    assert "5" in result[..i];
    var j :| 0 <= j < |result| && result[j] == "5";
    assert "7" in result[..j];
  }

  /** Definition 9 is listed: 7 comes first, then 5, then 9, and definition 1 not at all. */
  lemma OnlyOrder(result: seq<string>)
    requires SCHEMA.Sorted(result) && "9" in result
    ensures result == ["7", "5", "9"]
  {
    Contained(result);
    OidsDiffer();
    OneRound("9", "5");
    OneRound("5", "7");
    hide Schema.SubSchema.IsSup;
    var i :| 0 <= i < |result| && result[i] == "9";
    var j :| 0 <= j < |result| && result[j] == "5";
    var k :| 0 <= k < |result| && result[k] == "7";
    assert k < j < i;
    forall n | 0 <= n < |result|
      ensures n == i || result[n] != "9"
      ensures n == j || result[n] != "5"
      ensures n == k || result[n] != "7"
    {
      Same(result, n, i);
      Same(result, n, j);
      Same(result, n, k);
    }
    assert forall n :: 0 <= n < |result| ==> SCHEMA.Ours(result[n]);
    assert SCHEMA.Ours(result[0]) && SCHEMA.Ours(result[|result| - 1]);
    assert k == 0 && i == |result| - 1;
    assert SCHEMA.Ours(result[1]);
    assert j == 1 && SCHEMA.Ours(result[2]);
    assert i == 2;
  }

  lemma Same(result: seq<string>, m: nat, n: nat)
    requires SCHEMA.Sorted(result) && m < |result| && n < |result|
    ensures m == n || result[m] != result[n]
  {
    if m < n {
      assert result[..n][m] == result[m];
    } else if n < m {
      assert result[..m][n] == result[n];
    }
  }

  method Orders() returns (oids: seq<string>)
    ensures oids == ["7", "5", "9"]
  {
    Usable();
    var listed := ["9"];
    oids := Schema.Sort(SCHEMA, listed);
    SCHEMA.InheritsItself("9");
    hide Schema.SubSchema.Inherits, Schema.SubSchema.Sorted;
    assert listed[0] == "9" && SCHEMA.Needed(listed, 1, "9");
    OnlyOrder(oids);
  }
}
