/** The LDIF writer of replication.py, and a reader for what it writes, after RFC 2849. */
module Ldif {
  import opened Base64
  import opened Wrappers

  /** Python's value[0:n] and value[n:], for any integer n. */
  function Bound(n: int, length: nat): (i: nat)
    ensures i <= length
  {
    if n < 0 then if n + length < 0 then 0 else n + length else if n > length then length else n
  }

  function SliceTo(s: string, n: int): string {
    s[..Bound(n, |s|)]
  }

  function SliceFrom(s: string, n: int): string {
    s[Bound(n, |s|)..]
  }

  /** An attribute name that no reader can take for something else. */
  predicate IsName(a: string) {
    && a != "" && a[0] !in " #"
    && forall i :: 0 <= i < |a| ==> a[i] !in ":\n"
  }

  /** The values that are written in base 64. */
  predicate NeedsEncoding(value: string) {
    exists i :: 0 <= i < |value| && (value[i] == '\n' || value[i] as int >= 128)
  }

  /** A SAFE-STRING of RFC 2849. */
  predicate IsSafe(value: string) {
    && (forall i :: 0 <= i < |value| ==> value[i] as int < 128 && value[i] !in "\0\n\r")
    && (value != "" ==> value[0] !in " :<")
  }

  function Prefix(attribute: string, value: string): string {
    attribute + (if NeedsEncoding(value) then "::" else ":")
  }

  function Payload(value: string): string
    requires IsBytes(value)
  {
    if NeedsEncoding(value) then Encode(value) else value
  }

  /** The continuation lines for the rest of a value. */
  function Continuation(rest: string): seq<string> {
    if rest == "" then [] else [" " + SliceTo(rest, 59)] + Continuation(SliceFrom(rest, 59))
  }

  /** The physical lines for an attribute.  The room left on the first one is negative for long
      attribute names. */
  function Lines(attribute: string, value: string): seq<string>
    requires IsBytes(value)
  {
    var p, v := Prefix(attribute, value), Payload(value);
    var room := 59 - |p|;
    [p + SliceTo(v, room)] + Continuation(SliceFrom(v, room))
  }

  function Text(lines: seq<string>): string {
    if lines == [] then "" else lines[0] + "\n" + Text(lines[1..])
  }

  lemma {:induction false} TextAppends(a: seq<string>, b: seq<string>)
    ensures Text(a + b) == Text(a) + Text(b)
  {
    if a == [] {
      assert a + b == b;
    } else {
      TextAppends(a[1..], b);
      assert (a + b)[0] == a[0] && (a + b)[1..] == a[1..] + b;
      TextFirst(a);
      TextFirst(a + b);
      hide Text;
      Regroup(a[0], "\n", Text(a[1..]), Text(b));
    }
  }

  lemma TextFirst(lines: seq<string>)
    requires lines != []
    ensures Text(lines) == lines[0] + "\n" + Text(lines[1..])
  {
  }

  class LdifFile {
    var fp: string

    /** __print_attribute. */
    method PrintAttribute(attribute: string, text: string)
      requires IsBytes(text)
      modifies this
      ensures fp == old(fp) + Text(Lines(attribute, text))
    {
      hide Lines, Pending, NeedsEncoding, Text;
      var value := text;
      var pos := |attribute| + 2;
      if NeedsEncoding(text) {
        pos := pos + 1;
        fp := fp + attribute + "::";
        value := Encode(text);
      } else {
        fp := fp + attribute + ":";
      }
      if value == "" {
        fp := fp + "\n";
      }
      FirstLine(attribute, text, pos);
      HeaderIs(old(fp), fp, attribute, text);
      Regroup("", old(fp), fp[|old(fp)|..], Pending(value, pos));
      PrintValue(value, pos);
    }

    /** The loop of __print_attribute.  It ends because only the first round can leave the value as
        long as it was. */
    method PrintValue(start: string, column: nat)
      requires 1 <= column
      modifies this
      ensures fp == old(fp) + Pending(start, column)
    {
      hide Pending, SliceTo, SliceFrom;
      var value: string, pos: int := start, column;
      ghost var all := fp + Pending(value, pos);
      while value != ""
        invariant 1 <= pos && fp + Pending(value, pos) == all
        decreases if pos == 1 then 0 else 1, |value|
      {
        ghost var before, chunk := fp, Chunk(value, pos);
        NextLine(value, pos);
        Regroup("", before, chunk, Pending(SliceFrom(value, 60 - pos), 1));
        if pos == 1 {
          fp := fp + " ";
        }
        fp := fp + SliceTo(value, 60 - pos) + "\n";
        value := SliceFrom(value, 60 - pos);
        pos := 1;
        assert fp == before + chunk;
      }
      NothingPending(pos);
    }

    /** __print_attribute, __end_section and __end_entry, one after the other; start is what the
        file held before them, written the items since then. */
    method Print(item: Item, ghost start: string, ghost written: seq<Item>)
      requires AreWritable(written) && IsWritable(item)
      requires fp == start + Text(AllLines(written))
      modifies this
      ensures fp == start + Text(AllLines(written + [item]))
    {
      hide Lines, Text, IsBytes, IsName, AllLines, ItemLines;
      OneMore(written, item);
      Regroup("", start, Text(AllLines(written)), Text(ItemLines(item)));
      match item {
        case Pair(name, value) =>
          PairLines(name, value);
          PrintAttribute(name, value);
        case Dash => fp := fp + "-\n";
        case End => fp := fp + "\n";
      }
    }

    method PrintValues(name: string, values: seq<string>, ghost start: string, ghost written: seq<Item>)
      requires AreWritable(written) && AreWritable(Values(name, values))
      requires fp == start + Text(AllLines(written))
      modifies this
      ensures fp == start + Text(AllLines(written + Values(name, values)))
    {
      hide Text, AllLines, IsWritable;
      ghost var items := Values(name, values);
      assert written + items[..0] == written;
      for i := 0 to |values|
        invariant fp == start + Text(AllLines(written + items[..i]))
      {
        assert written + items[..i + 1] == (written + items[..i]) + [items[i]];
        Print(Pair(name, values[i]), start, written + items[..i]);
      }
      assert items[..|values|] == items;
    }

    method AddS(dn: string, al: seq<(string, seq<string>)>)
      requires AreWritable(AddRecord(dn, al))
      modifies this
      ensures fp == old(fp) + Text(AllLines(AddRecord(dn, al)))
    {
      hide Text, AllLines, AreWritable, IsWritable, AddRecord;
      ghost var start := fp;
      ghost var head := [Pair("dn", dn), Pair("changetype", "add")];
      Empty(start);
      RecordWritable(dn, al, 0);
      Print(Pair("dn", dn), start, []);
      assert [] + [head[0]] == [Pair("dn", dn)];
      Print(Pair("changetype", "add"), start, [Pair("dn", dn)]);
      assert [head[0]] + [head[1]] == head + Attributes(al[..0]);
      for i := 0 to |al|
        invariant AreWritable(head + Attributes(al[..i]))
        invariant fp == start + Text(AllLines(head + Attributes(al[..i])))
      {
        RecordWritable(dn, al, i);
        RecordWritable(dn, al, i + 1);
        AttributesGrow(al, i);
        ghost var written := head + Attributes(al[..i]);
        PrintValues(al[i].0, al[i].1, start, written);
        assert head + Attributes(al[..i + 1]) == written + Values(al[i].0, al[i].1);
      }
      assert al[..|al|] == al;
      RecordWritable(dn, al, |al|);
      Print(End, start, head + Attributes(al));
      RecordIs(dn, al);
    }
  }

  function Values(name: string, values: seq<string>): (items: seq<Item>)
    ensures |items| == |values|
  {
    seq(|values|, i requires 0 <= i < |values| => Pair(name, values[i]))
  }

  function Attributes(al: seq<(string, seq<string>)>): seq<Item> {
    if al == [] then []
    else
      var last := al[|al| - 1];
      Attributes(al[..|al| - 1]) + Values(last.0, last.1)
  }

  /** The record that adds an entry. */
  function AddRecord(dn: string, al: seq<(string, seq<string>)>): seq<Item> {
    [Pair("dn", dn), Pair("changetype", "add")] + Attributes(al) + [End]
  }

  /** What the loop of __print_attribute has yet to write. */
  function Pending(value: string, pos: nat): string {
    if value == "" then ""
    else if pos == 1 then Text(Continuation(value))
    else SliceTo(value, 60 - pos) + "\n" + Text(Continuation(SliceFrom(value, 60 - pos)))
  }

  lemma NothingPending(pos: nat)
    ensures Pending("", pos) == ""
  {
  }

  lemma FirstLine(attribute: string, text: string, pos: nat)
    requires IsBytes(text) && pos == |Prefix(attribute, text)| + 1
    ensures
      var v := Payload(text);
      Text(Lines(attribute, text))
      == Prefix(attribute, text) + (if v == "" then "\n" else "") + Pending(v, pos)
  {
    hide NeedsEncoding, Payload, SliceTo, SliceFrom;
    var p, v := Prefix(attribute, text), Payload(text);
    var lines := Lines(attribute, text);
    var first, rest := SliceTo(v, 60 - pos), Text(Continuation(SliceFrom(v, 60 - pos)));
    assert lines[1..] == Continuation(SliceFrom(v, 60 - pos));
    assert Text(lines) == (p + first) + "\n" + rest;
    Regroup(p, first, "\n", rest);
    if v == "" {
      NothingLeft(60 - pos);
      assert first == "" && rest == "" && p + "" == p;
      assert Text(lines) == p + "\n" == p + "\n" + "";
    } else {
      assert pos != 1 && p + "" == p;
    }
  }

  /** What is written before the loop. */
  lemma HeaderIs(before: string, fp: string, attribute: string, text: string)
    requires IsBytes(text)
    requires
      fp == before + attribute + (if NeedsEncoding(text) then "::" else ":")
              + (if Payload(text) == "" then "\n" else "")
    ensures |before| <= |fp| && fp == before + fp[|before|..]
    ensures fp[|before|..] == Prefix(attribute, text) + (if Payload(text) == "" then "\n" else "")
  {
    hide NeedsEncoding, Payload;
  }

  lemma NothingLeft(n: int)
    ensures SliceTo("", n) == "" && SliceFrom("", n) == ""
  {
  }

  lemma Regroup(a: string, b: string, c: string, d: string)
    ensures (a + b) + c + d == a + (b + c + d)
    ensures b + (c + d) == b + c + d
    ensures a + b + (c + d) == a + b + c + d
  {
  }

  /** What one round of the loop writes. */
  function Chunk(value: string, pos: nat): string {
    if pos == 1 then " " + SliceTo(value, 59) + "\n" else SliceTo(value, 60 - pos) + "\n"
  }

  lemma NextLine(value: string, pos: nat)
    requires value != "" && 1 <= pos
    ensures Pending(value, pos) == Chunk(value, pos) + Pending(SliceFrom(value, 60 - pos), 1)
    ensures pos == 1 ==> |SliceFrom(value, 60 - pos)| < |value|
  {
    var rest := SliceFrom(value, 60 - pos);
    assert Pending(rest, 1) == Text(Continuation(rest));
    if pos == 1 {
      var lines := Continuation(value);
      assert lines[0] == " " + SliceTo(value, 59) && lines[1..] == Continuation(rest);
      assert Text(lines) == " " + SliceTo(value, 59) + "\n" + Text(Continuation(rest));
    }
  }

  /** Every physical line has at most 60 characters iff the name leaves room for the value, or the
      name and its colons take all 60 and there is next to no value. */
  lemma LineLengths(attribute: string, value: string)
    requires IsBytes(value)
    ensures
      var p, v := Prefix(attribute, value), Payload(value);
      (forall i :: 0 <= i < |Lines(attribute, value)| ==> |Lines(attribute, value)[i]| <= 60)
      <==> |p| < 60 || (|p| == 60 && |v| <= 1)
  {
    hide Prefix, Payload, IsBytes, Continuation, SliceTo, SliceFrom;
    var p, v := Prefix(attribute, value), Payload(value);
    var lines := Lines(attribute, value);
    ContinuationLengths(SliceFrom(v, 59 - |p|));
    FirstLineLength(|p|, v);
    assert lines[0] == p + SliceTo(v, 59 - |p|);
    assert forall i :: 0 < i < |lines| ==> lines[i] == Continuation(SliceFrom(v, 59 - |p|))[i - 1];
  }

  lemma FirstLineLength(p: nat, v: string)
    ensures p + |SliceTo(v, 59 - p)| <= 60 <==> p < 60 || (p == 60 && |v| <= 1)
  {
  }

  lemma {:induction false} ContinuationLengths(rest: string)
    ensures forall i :: 0 <= i < |Continuation(rest)| ==> |Continuation(rest)[i]| <= 60
  {
    if rest == "" {
    } else {
      ContinuationLengths(SliceFrom(rest, 59));
    }
  }

  /** The reader.  Physical lines end in a newline. */
  function LineEnd(t: string): (i: nat)
    ensures i <= |t|
    ensures i < |t| ==> t[i] == '\n'
    ensures forall k :: 0 <= k < i ==> t[k] != '\n'
  {
    if t == "" || t[0] == '\n' then 0 else 1 + LineEnd(t[1..])
  }

  function Split(t: string): seq<string>
    decreases |t|
  {
    if t == "" then []
    else
      var i := LineEnd(t);
      [t[..i]] + (if i == |t| then [] else Split(t[i + 1..]))
  }

  /** A line that starts with a space continues the line before it. */
  function Unfold(lines: seq<string>): (logical: seq<string>)
    ensures lines != [] ==> logical != []
  {
    if lines == [] then []
    else
      var last, before := lines[|lines| - 1], Unfold(lines[..|lines| - 1]);
      if last != "" && last[0] == ' ' && before != []
      then before[..|before| - 1] + [before[|before| - 1] + last[1..]]
      else before + [last]
  }

  /** What a logical line can be; a record ends in an empty one. */
  datatype Item =
    | Pair(name: string, value: string)
    | Reference(name: string, url: string)
    | Dash
    | End

  function SkipSpaces(s: string): (r: string)
    ensures |r| <= |s| && (r != "" ==> r[0] != ' ')
    ensures r == s || |r| < |s|
    ensures s != "" && s[0] != ' ' ==> r == s
  {
    if s != "" && s[0] == ' ' then SkipSpaces(s[1..]) else s
  }

  function Colon(s: string): (i: nat)
    ensures i <= |s|
    ensures i < |s| ==> s[i] == ':'
    ensures forall k :: 0 <= k < i ==> s[k] != ':'
  {
    if s == "" || s[0] == ':' then 0 else 1 + Colon(s[1..])
  }

  /** What follows the colon of a logical line: a value in base 64 after a second colon, a URL after
      '<', and any other value has to be a SAFE-STRING. */
  function Interpret(name: string, rest: string): Option<Item> {
    if rest != "" && rest[0] == ':' then
      match Decode(SkipSpaces(rest[1..]))
      case Some(value) => Some(Pair(name, value))
      case None => None
    else if rest != "" && rest[0] == '<' then Some(Reference(name, SkipSpaces(rest[1..])))
    else if IsSafe(SkipSpaces(rest)) then Some(Pair(name, SkipSpaces(rest)))
    else None
  }

  function Parse(line: string): Option<Item> {
    var i := Colon(line);
    if line == "" then Some(End)
    else if line == "-" then Some(Dash)
    else if i == |line| then None
    else Interpret(line[..i], line[i + 1..])
  }

  function ParseAll(lines: seq<string>): Option<seq<Item>> {
    if lines == [] then Some([])
    else
      match (Parse(lines[0]), ParseAll(lines[1..]))
      case (Some(item), Some(items)) => Some([item] + items)
      case _ => None
  }

  function Read(t: string): Option<seq<Item>> {
    ParseAll(Unfold(Split(t)))
  }

  ghost predicate IsLine(line: string) {
    forall k :: 0 <= k < |line| ==> line[k] != '\n'
  }

  lemma {:induction false} LineEndIs(t: string, i: nat)
    requires i < |t| && t[i] == '\n' && forall k :: 0 <= k < i ==> t[k] != '\n'
    ensures LineEnd(t) == i
  {
    if i == 0 {
    } else {
      LineEndIs(t[1..], i - 1);
    }
  }

  lemma SplitLine(line: string, rest: string)
    requires IsLine(line)
    ensures Split(line + "\n" + rest) == [line] + Split(rest)
  {
    var t := line + "\n" + rest;
    assert forall k :: 0 <= k < |line| ==> t[k] == line[k];
    LineEndIs(t, |line|);
    assert t[..|line|] == line && t[|line| + 1..] == rest;
  }

  lemma {:induction false} SplitText(lines: seq<string>)
    requires forall i :: 0 <= i < |lines| ==> IsLine(lines[i])
    ensures Split(Text(lines)) == lines
  {
    if lines != [] {
      hide Split, IsLine;
      SplitText(lines[1..]);
      SplitLine(lines[0], Text(lines[1..]));
      assert [lines[0]] + lines[1..] == lines;
    } else {
      assert Split("") == [];
    }
  }

  /** The last logical line made longer. */
  function Extend(logical: seq<string>, rest: string): seq<string>
    requires logical != []
  {
    logical[..|logical| - 1] + [logical[|logical| - 1] + rest]
  }

  lemma ExtendTwice(logical: seq<string>, a: string, b: string)
    requires logical != []
    ensures Extend(Extend(logical, a), b) == Extend(logical, a + b)
  {
    var last := logical[|logical| - 1];
    assert (last + a) + b == last + (a + b);
  }

  lemma UnfoldStart(lines: seq<string>, line: string)
    requires line == "" || line[0] != ' '
    ensures Unfold(lines + [line]) == Unfold(lines) + [line]
  {
    assert (lines + [line])[..|lines|] == lines;
  }

  lemma UnfoldMore(lines: seq<string>, rest: string)
    requires lines != []
    ensures Unfold(lines + [" " + rest]) == Extend(Unfold(lines), rest)
  {
    assert (lines + [" " + rest])[..|lines|] == lines && (" " + rest)[1..] == rest;
  }

  lemma {:induction false} UnfoldContinuation(lines: seq<string>, rest: string)
    requires lines != []
    ensures Unfold(lines + Continuation(rest)) == Extend(Unfold(lines), rest)
    decreases |rest|
  {
    hide Unfold, Extend;
    if rest == "" {
      assert lines + Continuation(rest) == lines;
      ExtendNothing(Unfold(lines));
    } else {
      var head, tail := SliceTo(rest, 59), SliceFrom(rest, 59);
      UnfoldMore(lines, head);
      var longer := lines + [" " + head];
      UnfoldContinuation(longer, tail);
      ExtendTwice(Unfold(lines), head, tail);
      assert head + tail == rest && Continuation(rest) == [" " + head] + Continuation(tail);
      hide Continuation;
      assert lines + Continuation(rest) == longer + Continuation(tail);
    }
  }

  lemma ExtendNothing(logical: seq<string>)
    requires logical != []
    ensures Extend(logical, "") == logical
  {
    assert logical[|logical| - 1] + "" == logical[|logical| - 1];
  }

  /** Unfolding the physical lines of an attribute gives back one logical line. */
  lemma UnfoldLines(lines: seq<string>, attribute: string, value: string)
    requires IsName(attribute) && IsBytes(value)
    ensures
      Unfold(lines + Lines(attribute, value))
      == Unfold(lines) + [Prefix(attribute, value) + Payload(value)]
  {
    hide NeedsEncoding, Payload, Unfold, Continuation, SliceTo, SliceFrom;
    var p, v := Prefix(attribute, value), Payload(value);
    var room := 59 - |p|;
    var first, rest := SliceTo(v, room), SliceFrom(v, room);
    SlicesMakeWhole(v, room);
    UnfoldStart(lines, p + first);
    UnfoldContinuation(lines + [p + first], rest);
    assert lines + Lines(attribute, value) == (lines + [p + first]) + Continuation(rest);
    assert (p + first) + rest == p + v;
  }

  lemma SlicesMakeWhole(s: string, n: int)
    ensures SliceTo(s, n) + SliceFrom(s, n) == s
  {
  }

  lemma ParseNamed(attribute: string, rest: string)
    requires IsName(attribute)
    ensures Parse(attribute + ":" + rest) == Interpret(attribute, rest)
  {
    var line := attribute + ":" + rest;
    assert forall k :: 0 <= k < |attribute| ==> line[k] == attribute[k];
    assert line[|attribute|] == ':';
    assert Colon(line) == |attribute|;
    assert line[..|attribute|] == attribute && line[|attribute| + 1..] == rest;
  }

  /** The logical line of an attribute reads back as that attribute and value iff the value is
      written in base 64 or is a SAFE-STRING. */
  lemma ParseLine(attribute: string, value: string)
    requires IsName(attribute) && IsBytes(value)
    ensures
      Parse(Prefix(attribute, value) + Payload(value)) == Some(Pair(attribute, value))
      <==> NeedsEncoding(value) || IsSafe(value)
  {
    hide IsSafe, Parse;
    var v := Payload(value);
    if NeedsEncoding(value) {
      assert attribute + "::" + v == attribute + ":" + (":" + v);
      ParseNamed(attribute, ":" + v);
      DecodeUndoesEncode(value);
      assert (":" + v)[1..] == v && v[0] != ' ';
    } else {
      ParseNamed(attribute, v);
      if IsSafe(value) {
        SafeStart(value);
      } else {
        assert SkipSpaces(v) == v || |SkipSpaces(v)| < |v|;
      }
    }
  }

  lemma SafeStart(value: string)
    requires IsSafe(value)
    ensures SkipSpaces(value) == value && (value != "" ==> value[0] !in " :<")
  {
  }

  /** What the writer writes: attributes, the "-" after a modification, and the end of a record. */
  predicate IsWritable(item: Item) {
    match item
    case Pair(name, value) => IsName(name) && IsBytes(value)
    case Reference(_, _) => false
    case _ => true
  }

  predicate AreWritable(items: seq<Item>) {
    forall i :: 0 <= i < |items| ==> IsWritable(items[i])
  }

  function ItemLines(item: Item): seq<string>
    requires IsWritable(item)
  {
    match item
    case Pair(name, value) => Lines(name, value)
    case Dash => ["-"]
    case End => [""]
  }

  function AllLines(items: seq<Item>): seq<string>
    requires AreWritable(items)
  {
    if items == [] then []
    else AllLines(items[..|items| - 1]) + ItemLines(items[|items| - 1])
  }

  /** The logical line of an item. */
  function Logical(item: Item): string
    requires IsWritable(item)
  {
    match item
    case Pair(name, value) => Prefix(name, value) + Payload(value)
    case Dash => "-"
    case End => ""
  }

  lemma Empty(start: string)
    ensures start == start + Text(AllLines([]))
  {
  }

  lemma OneMore(written: seq<Item>, item: Item)
    requires AreWritable(written) && IsWritable(item)
    ensures Text(AllLines(written + [item])) == Text(AllLines(written)) + Text(ItemLines(item))
    ensures item.Dash? ==> Text(ItemLines(item)) == "-\n"
    ensures item.End? ==> Text(ItemLines(item)) == "\n"
  {
    assert (written + [item])[..|written|] == written;
    TextAppends(AllLines(written), ItemLines(item));
    OneLineText("-");
    OneLineText("");
    hide Lines, IsName, IsBytes, Text;
  }

  lemma OneLineText(line: string)
    ensures Text([line]) == line + "\n"
  {
    assert [line][1..] == [];
  }

  lemma PairLines(name: string, value: string)
    requires IsName(name) && IsBytes(value)
    ensures ItemLines(Pair(name, value)) == Lines(name, value)
  {
    hide Lines, IsName, IsBytes;
  }

  lemma AttributesGrow(al: seq<(string, seq<string>)>, i: nat)
    requires i < |al|
    ensures Attributes(al[..i + 1]) == Attributes(al[..i]) + Values(al[i].0, al[i].1)
  {
    assert al[..i + 1][..i] == al[..i];
  }

  lemma {:induction false} AttributesWritable(al: seq<(string, seq<string>)>, i: nat)
    requires i < |al| && AreWritable(Attributes(al))
    ensures AreWritable(Attributes(al[..i])) && AreWritable(Values(al[i].0, al[i].1))
    decreases |al|
  {
    var n := |al| - 1;
    var before, last := Attributes(al[..n]), Values(al[n].0, al[n].1);
    assert forall k :: 0 <= k < |before| ==> before[k] == Attributes(al)[k];
    assert forall k :: 0 <= k < |last| ==> last[k] == Attributes(al)[|before| + k];
    if i < n {
      AttributesWritable(al[..n], i);
      assert al[..n][..i] == al[..i];
    }
  }

  predicate ReadsBack(item: Item) {
    item.Pair? ==> NeedsEncoding(item.value) || IsSafe(item.value)
  }

  lemma ParseItem(item: Item)
    requires IsWritable(item)
    ensures Parse(Logical(item)) == Some(item) <==> ReadsBack(item)
  {
    if item.Pair? {
      ParseLine(item.name, item.value);
    }
  }

  lemma RecordIs(dn: string, al: seq<(string, seq<string>)>)
    ensures AddRecord(dn, al) == [Pair("dn", dn), Pair("changetype", "add")] + Attributes(al) + [End]
  {
  }

  /** All parts of a record that can be written can be. */
  lemma RecordWritable(dn: string, al: seq<(string, seq<string>)>, i: nat)
    requires i <= |al| && AreWritable(AddRecord(dn, al))
    ensures AreWritable([]) && IsWritable(Pair("dn", dn)) && IsWritable(Pair("changetype", "add")) && IsWritable(End)
    ensures AreWritable([Pair("dn", dn)])
    ensures AreWritable([Pair("dn", dn), Pair("changetype", "add")] + Attributes(al[..i]))
    ensures i < |al| ==> AreWritable(Values(al[i].0, al[i].1))
  {
    hide IsWritable, Attributes;
    var all := AddRecord(dn, al);
    assert all[0] == Pair("dn", dn) && all[1] == Pair("changetype", "add") && all[|all| - 1] == End;
    assert forall k :: 0 <= k < |Attributes(al)| ==> Attributes(al)[k] == all[k + 2];
    if i < |al| {
      AttributesWritable(al, i);
    } else {
      assert al[..i] == al;
    }
  }

  lemma LinesAreLines(attribute: string, value: string)
    requires IsName(attribute) && IsBytes(value)
    ensures forall i :: 0 <= i < |Lines(attribute, value)| ==> IsLine(Lines(attribute, value)[i])
  {
    ContinuationLines(SliceFrom(Payload(value), 59 - |Prefix(attribute, value)|));
  }

  lemma {:induction false} ContinuationLines(rest: string)
    requires IsLine(rest)
    ensures forall i :: 0 <= i < |Continuation(rest)| ==> IsLine(Continuation(rest)[i])
  {
    if rest == "" {
    } else {
      ContinuationLines(SliceFrom(rest, 59));
    }
  }

  lemma UnfoldItem(lines: seq<string>, item: Item)
    requires IsWritable(item)
    ensures forall i :: 0 <= i < |ItemLines(item)| ==> IsLine(ItemLines(item)[i])
    ensures Unfold(lines + ItemLines(item)) == Unfold(lines) + [Logical(item)]
  {
    hide Unfold, Lines, Prefix, Payload, IsName, IsBytes;
    if item.Pair? {
      UnfoldLines(lines, item.name, item.value);
      LinesAreLines(item.name, item.value);
    } else {
      UnfoldStart(lines, Logical(item));
    }
  }

  lemma {:induction false} UnfoldAll(items: seq<Item>)
    requires AreWritable(items)
    ensures forall i :: 0 <= i < |AllLines(items)| ==> IsLine(AllLines(items)[i])
    ensures |Unfold(AllLines(items))| == |items|
    ensures forall i :: 0 <= i < |items| ==> Unfold(AllLines(items))[i] == Logical(items[i])
  {
    hide Unfold, ItemLines, Logical, IsLine, IsWritable;
    if items == [] {
      UnfoldNothing();
    } else {
      UnfoldAll(items[..|items| - 1]);
      UnfoldItem(AllLines(items[..|items| - 1]), items[|items| - 1]);
    }
  }

  lemma UnfoldNothing()
    ensures Unfold([]) == []
  {
  }

  lemma {:induction false} ParseEach(lines: seq<string>, items: seq<Item>)
    requires |lines| == |items|
    ensures
      ParseAll(lines) == Some(items)
      <==> forall i :: 0 <= i < |items| ==> Parse(lines[i]) == Some(items[i])
  {
    hide Parse;
    if lines == [] {
    } else {
      ParseEach(lines[1..], items[1..]);
      assert items == [items[0]] + items[1..];
      if Parse(lines[0]) == Some(items[0]) && ParseAll(lines[1..]) == Some(items[1..]) {
        forall i | 0 <= i < |items|
          ensures Parse(lines[i]) == Some(items[i])
        {
          if i > 0 {
            assert Parse(lines[1..][i - 1]) == Some(items[1..][i - 1]);
          }
        }
      }
      if ParseAll(lines) == Some(items) {
        var tail := ParseAll(lines[1..]).value;
        assert items[1..] == tail && items[0] == Parse(lines[0]).value;
      }
    }
  }

  /** A file that the writer has written reads back as it was given iff every value in it is
      written in base 64 or is a SAFE-STRING. */
  lemma FileReadsBack(items: seq<Item>)
    requires AreWritable(items)
    ensures
      Read(Text(AllLines(items))) == Some(items)
      <==> forall i :: 0 <= i < |items| ==> ReadsBack(items[i])
  {
    hide Unfold, AllLines, Parse, Logical, ReadsBack, IsWritable, ParseAll;
    UnfoldAll(items);
    SplitText(AllLines(items));
    ParseEach(Unfold(AllLines(items)), items);
    forall i | 0 <= i < |items|
      ensures Parse(Logical(items[i])) == Some(items[i]) <==> ReadsBack(items[i])
    {
      assert IsWritable(items[i]);
      ParseItem(items[i]);
    }
  }

  /** A value that starts with a space is written as it is, and not read back. */
  lemma LeadingSpaceIsLost()
    ensures AreWritable([Pair("a", " b")]) && Read(Text(AllLines([Pair("a", " b")]))) != Some([Pair("a", " b")])
  {
    var item := Pair("a", " b");
    assert !NeedsEncoding(" b") && !IsSafe(" b");
    assert IsWritable(item);
    assert !ReadsBack([item][0]);
    hide Read, AllLines, Text, ReadsBack;
    FileReadsBack([item]);
  }
}
