/** The text that directory_logger.py writes for the attributes of an entry, and a reader for it. */
module LogText {
  import opened Base64
  import opened Ldif
  import opened Wrappers

  datatype Attribute = Attribute(key: string, value: string)

  /** SAFE_STRING_RE finds nothing in the value. */
  predicate IsPlain(value: string) {
    && (forall i :: 0 <= i < |value| ==> value[i] !in "\0\n\r" && value[i] as int < 128)
    && (value != "" ==> value[0] !in " :<" && value[|value| - 1] != ' ')
  }

  predicate IsLoggable(a: Attribute) {
    IsBytes(a.value) && forall i :: 0 <= i < |a.key| ==> a.key[i] !in ":\n"
  }

  function LogLine(a: Attribute): string
    requires IsLoggable(a)
  {
    if IsPlain(a.value) then a.key + ": " + a.value else a.key + ":: " + Encode(a.value)
  }

  /** ldapEntry2string, for the pairs in the order in which the dictionary yields them. */
  function EntryText(attributes: seq<Attribute>): string
    requires forall i :: 0 <= i < |attributes| ==> IsLoggable(attributes[i])
  {
    Text(seq(|attributes|, i requires 0 <= i < |attributes| => LogLine(attributes[i])))
  }

  function ReadValue(key: string, rest: string): Option<Attribute> {
    if ":: " <= rest then
      match Decode(rest[3..])
      case Some(value) => Some(Attribute(key, value))
      case None => None
    else if ": " <= rest then Some(Attribute(key, rest[2..]))
    else None
  }

  function ParseLog(line: string): Option<Attribute> {
    ReadValue(line[..Colon(line)], line[Colon(line)..])
  }

  function ParseLogs(lines: seq<string>): Option<seq<Attribute>> {
    if lines == [] then Some([])
    else
      match (ParseLog(lines[0]), ParseLogs(lines[1..]))
      case (Some(a), Some(more)) => Some([a] + more)
      case _ => None
  }

  lemma KeyIsRead(key: string, rest: string)
    requires (forall i :: 0 <= i < |key| ==> key[i] !in ":\n") && rest != "" && rest[0] == ':'
    ensures ParseLog(key + rest) == ReadValue(key, rest)
    ensures IsLine(rest) ==> IsLine(key + rest)
  {
    var line := key + rest;
    assert forall k :: 0 <= k < |key| ==> line[k] == key[k];
    assert line[|key|] == ':';
    assert Colon(line) == |key|;
    assert line[..|key|] == key && line[|key|..] == rest;
  }

  lemma LineIsRead(a: Attribute)
    requires IsLoggable(a)
    ensures ParseLog(LogLine(a)) == Some(a) && IsLine(LogLine(a))
  {
    hide IsPlain, ParseLog, ReadValue, Encode;
    if IsPlain(a.value) {
      PlainIsRead(a.key, a.value);
      KeyIsRead(a.key, ": " + a.value);
      assert a.key + ": " + a.value == a.key + (": " + a.value);
    } else {
      CodedIsRead(a.key, a.value);
      KeyIsRead(a.key, ":: " + Encode(a.value));
      assert a.key + ":: " + Encode(a.value) == a.key + (":: " + Encode(a.value));
    }
  }

  lemma PlainIsRead(key: string, value: string)
    requires IsPlain(value)
    ensures ReadValue(key, ": " + value) == Some(Attribute(key, value)) && IsLine(": " + value)
  {
    var rest := ": " + value;
    assert rest[1] == ' ' && rest[2..] == value;
  }

  lemma CodedIsRead(key: string, value: string)
    requires IsBytes(value)
    ensures ReadValue(key, ":: " + Encode(value)) == Some(Attribute(key, value)) && IsLine(":: " + Encode(value))
  {
    DecodeUndoesEncode(value);
    var code := Encode(value);
    hide Encode, Decode, IsLine;
    var rest := ":: " + code;
    assert rest[3..] == code;
    CodeIsLine(code);
  }

  lemma CodeIsLine(code: string)
    requires forall i :: 0 <= i < |code| ==> '+' <= code[i] <= 'z'
    ensures IsLine(":: " + code)
  {
  }

  lemma {:induction false} LinesAreRead(lines: seq<string>, attributes: seq<Attribute>)
    requires |lines| == |attributes|
    requires forall i :: 0 <= i < |lines| ==> ParseLog(lines[i]) == Some(attributes[i])
    ensures ParseLogs(lines) == Some(attributes)
  {
    hide ParseLog;
    if lines == [] {
    } else {
      LinesAreRead(lines[1..], attributes[1..]);
      assert [attributes[0]] + attributes[1..] == attributes;
    }
  }

  /** The logged text tells every attribute and value, whatever bytes the values hold. */
  lemma LogIsReadable(attributes: seq<Attribute>)
    requires forall i :: 0 <= i < |attributes| ==> IsLoggable(attributes[i])
    ensures ParseLogs(Split(EntryText(attributes))) == Some(attributes)
  {
    hide ParseLog, LogLine, IsLine, IsLoggable;
    var lines := seq(|attributes|, i requires 0 <= i < |attributes| => LogLine(attributes[i]));
    forall i | 0 <= i < |lines|
      ensures IsLine(lines[i]) && ParseLog(lines[i]) == Some(attributes[i])
    {
      LineIsRead(attributes[i]);
    }
    SplitText(lines);
    LinesAreRead(lines, attributes);
  }
}
