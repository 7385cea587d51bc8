/** Texts, character by character: base 64, a record in LDIF, the log, and the password file. */
module TextExamples {
  import opened Wrappers
  import Base64
  import Ldif
  import LogText
  import RootPw

  /** The alphabet of section 4 of RFC 4648. */
  lemma Letters()
    ensures Base64.Symbol(0) == 'A' && Base64.Symbol(1) == 'B' && Base64.Symbol(2) == 'C' && Base64.Symbol(3) == 'D'
    ensures Base64.Symbol(4) == 'E' && Base64.Symbol(5) == 'F' && Base64.Symbol(6) == 'G' && Base64.Symbol(7) == 'H'
    ensures Base64.Symbol(8) == 'I' && Base64.Symbol(9) == 'J' && Base64.Symbol(10) == 'K' && Base64.Symbol(11) == 'L'
    ensures Base64.Symbol(12) == 'M' && Base64.Symbol(13) == 'N' && Base64.Symbol(14) == 'O' && Base64.Symbol(15) == 'P'
    ensures Base64.Symbol(16) == 'Q' && Base64.Symbol(17) == 'R' && Base64.Symbol(18) == 'S' && Base64.Symbol(19) == 'T'
    ensures Base64.Symbol(20) == 'U' && Base64.Symbol(21) == 'V' && Base64.Symbol(22) == 'W' && Base64.Symbol(23) == 'X'
    ensures Base64.Symbol(24) == 'Y' && Base64.Symbol(25) == 'Z' && Base64.Symbol(26) == 'a' && Base64.Symbol(27) == 'b'
  {
  }

  lemma SmallLetters()
    ensures Base64.Symbol(28) == 'c' && Base64.Symbol(29) == 'd' && Base64.Symbol(30) == 'e' && Base64.Symbol(31) == 'f'
    ensures Base64.Symbol(32) == 'g' && Base64.Symbol(33) == 'h' && Base64.Symbol(34) == 'i' && Base64.Symbol(35) == 'j'
    ensures Base64.Symbol(36) == 'k' && Base64.Symbol(37) == 'l' && Base64.Symbol(38) == 'm' && Base64.Symbol(39) == 'n'
    ensures Base64.Symbol(40) == 'o' && Base64.Symbol(41) == 'p' && Base64.Symbol(42) == 'q' && Base64.Symbol(43) == 'r'
    ensures Base64.Symbol(44) == 's' && Base64.Symbol(45) == 't' && Base64.Symbol(46) == 'u' && Base64.Symbol(47) == 'v'
    ensures Base64.Symbol(48) == 'w' && Base64.Symbol(49) == 'x' && Base64.Symbol(50) == 'y' && Base64.Symbol(51) == 'z'
  {
  }

  lemma Figures()
    ensures Base64.Symbol(52) == '0' && Base64.Symbol(53) == '1' && Base64.Symbol(54) == '2' && Base64.Symbol(55) == '3'
    ensures Base64.Symbol(56) == '4' && Base64.Symbol(57) == '5' && Base64.Symbol(58) == '6' && Base64.Symbol(59) == '7'
    ensures Base64.Symbol(60) == '8' && Base64.Symbol(61) == '9' && Base64.Symbol(62) == '+' && Base64.Symbol(63) == '/'
  {
  }

  /** Test vectors of section 10 of RFC 4648, and the two values that are used below. */
  lemma ShortVectors()
    ensures Base64.Encode("f") == "Zg==" && Base64.Encode("fo") == "Zm8=" && Base64.Encode("foo") == "Zm9v"
  {
  }

  lemma Vectors()
    ensures Base64.Encode("a\nb") == "YQpi"
  {
  }

  lemma SpaceVector()
    ensures Base64.Encode(" a") == "IGE="
  {
  }

  lemma ThreeMore(s: string, rest: string)
    requires Base64.IsBytes(s) && Base64.IsBytes(rest) && |s| == 3 && rest != ""
    ensures Base64.IsBytes(s + rest) && Base64.Encode(s + rest) == Base64.Group(s) + Base64.Encode(rest)
  {
    hide Base64.Group;
    assert (s + rest)[..3] == s && (s + rest)[3..] == rest;
  }

  lemma LongVector()
    ensures Base64.Encode("foobar") == "Zm9vYmFy"
  {
    FirstGroup();
    LastGroup();
    hide Base64.Group, Base64.Encode;
    ThreeMore("foo", "bar");
    assert "foo" + "bar" == "foobar" && "Zm9v" + "YmFy" == "Zm9vYmFy";
  }

  lemma FirstGroup()
    ensures Base64.IsBytes("foo") && Base64.Group("foo") == "Zm9v"
  {
  }

  lemma LastGroup()
    ensures Base64.IsBytes("bar") && Base64.Encode("bar") == "YmFy"
  {
  }

  // A record in LDIF.

  function Xs(n: nat): string {
    seq(n, _ => 'x')
  }

  lemma NoEncoding(value: string)
    requires forall i :: 0 <= i < |value| ==> value[i] != '\n' && value[i] as int < 128
    ensures Ldif.Payload(value) == value && Ldif.Prefix("cn", value) == "cn" + ":"
    ensures forall name :: Ldif.Prefix(name, value) == name + ":"
  {
    assert !Ldif.NeedsEncoding(value);
    hide Ldif.NeedsEncoding;
  }

  /** A value that fits on the first line. */
  lemma ShortLine(name: string, value: string)
    requires forall i :: 0 <= i < |value| ==> value[i] != '\n' && value[i] as int < 128
    requires |name| + 1 + |value| <= 59
    ensures Ldif.Lines(name, value) == [name + ":" + value]
  {
    NoEncoding(value);
    hide Ldif.Prefix, Ldif.Payload;
    assert Ldif.SliceTo(value, 59 - |name| - 1) == value && Ldif.SliceFrom(value, 59 - |name| - 1) == "";
  }

  lemma CodedLine()
    ensures Ldif.Lines("note", "a\nb") == ["note::YQpi"]
  {
    Vectors();
    assert "a\nb"[1] == '\n';
    hide Base64.Encode;
    assert Ldif.Prefix("note", "a\nb") == "note::" && Ldif.Payload("a\nb") == "YQpi";
    hide Ldif.Prefix, Ldif.Payload;
    assert Ldif.SliceTo("YQpi", 53) == "YQpi" && Ldif.SliceFrom("YQpi", 53) == "";
    assert "note::" + "YQpi" == "note::YQpi";
    assert Ldif.Continuation("") == [];
  }

  lemma FoldedLine()
    ensures Ldif.Lines("d", Xs(70)) == ["d:" + Xs(57), " " + Xs(13)]
  {
    NoEncoding(Xs(70));
    assert "d" + ":" == "d:";
    hide Ldif.Prefix, Ldif.Payload;
    assert Ldif.SliceTo(Xs(70), 57) == Xs(57) && Ldif.SliceFrom(Xs(70), 57) == Xs(13);
    assert Ldif.SliceTo(Xs(13), 59) == Xs(13) && Ldif.SliceFrom(Xs(13), 59) == "";
    assert Ldif.Continuation("") == [];
    hide Ldif.SliceTo, Ldif.SliceFrom;
    assert Ldif.Continuation(Xs(13)) == [" " + Xs(13)];
  }

  const ENTRY: seq<(string, seq<string>)> := [("cn", ["u", "v"]), ("note", ["a\nb"]), ("d", [Xs(70)])]

  /** The record of an entry: a value in base 64 because of its newline, and one that is folded. */
  method WritesRecord(file: Ldif.LdifFile)
    requires file.fp == ""
    modifies file
    ensures file.fp == Ldif.Text(RECORD)
  {
    ItemsAre();
    LinesAre();
    hide *;
    file.AddS("cn=u", ENTRY);
    Nothing(Ldif.Text(RECORD));
  }

  lemma Nothing(s: string)
    ensures "" + s == s
  {
  }

  const ITEMS: seq<Ldif.Item> :=
    [Ldif.Pair("dn", "cn=u"), Ldif.Pair("changetype", "add"), Ldif.Pair("cn", "u"), Ldif.Pair("cn", "v"),
     Ldif.Pair("note", "a\nb"), Ldif.Pair("d", Xs(70)), Ldif.End]

  lemma ItemsAre()
    ensures Ldif.AddRecord("cn=u", ENTRY) == ITEMS
  {
    assert ENTRY[..2] == [("cn", ["u", "v"]), ("note", ["a\nb"])] && ENTRY[..2][..1] == [("cn", ["u", "v"])];
    assert ENTRY[..2][..1][..0] == [];
    assert Ldif.Attributes([]) == [];
    assert Ldif.Attributes(ENTRY[..1]) == Ldif.Values("cn", ["u", "v"]);
    assert ENTRY[..2][..1] == ENTRY[..1];
    assert Ldif.Attributes(ENTRY[..2]) == Ldif.Values("cn", ["u", "v"]) + Ldif.Values("note", ["a\nb"]);
    assert Ldif.Attributes(ENTRY)
        == Ldif.Values("cn", ["u", "v"]) + Ldif.Values("note", ["a\nb"]) + Ldif.Values("d", [Xs(70)]);
  }

  lemma Writable()
    ensures Ldif.AreWritable(ITEMS)
  {
  }

  lemma MoreLines(items: seq<Ldif.Item>, item: Ldif.Item, lines: seq<string>, more: seq<string>)
    requires Ldif.AreWritable(items) && Ldif.IsWritable(item)
    requires Ldif.AllLines(items) == lines && Ldif.ItemLines(item) == more
    ensures Ldif.AreWritable(items + [item]) && Ldif.AllLines(items + [item]) == lines + more
  {
    hide Ldif.ItemLines, Ldif.IsWritable;
    assert (items + [item])[..|items|] == items;
  }

  lemma PlainLine(name: string, value: string, line: string)
    requires forall i :: 0 <= i < |value| ==> value[i] != '\n' && value[i] as int < 128
    requires |name| + 1 + |value| <= 59 && line == name + ":" + value && Ldif.IsName(name)
    ensures Ldif.IsWritable(Ldif.Pair(name, value)) && Ldif.ItemLines(Ldif.Pair(name, value)) == [line]
  {
    ShortLine(name, value);
    hide Ldif.Lines;
  }

  lemma SpecialLines()
    requires Ldif.IsWritable(ITEMS[4]) && Ldif.IsWritable(ITEMS[5])
    ensures Ldif.ItemLines(ITEMS[4]) == ["note::YQpi"] && Ldif.ItemLines(ITEMS[5]) == ["d:" + Xs(57), " " + Xs(13)]
    ensures Ldif.ItemLines(Ldif.End) == [""]
  {
    CodedLine();
    FoldedLine();
    hide Ldif.Lines, Xs;
  }

  lemma LinesFrom(all: seq<string>)
    requires Ldif.AreWritable(ITEMS) && |all| == 8
    requires forall i :: 0 <= i < 5 ==> Ldif.ItemLines(ITEMS[i]) == all[i..i + 1]
    requires Ldif.ItemLines(ITEMS[5]) == all[5..7] && Ldif.ItemLines(ITEMS[6]) == all[7..8]
    ensures Ldif.AllLines(ITEMS) == all
  {
    hide Ldif.AllLines, Ldif.ItemLines, Ldif.IsWritable, Ldif.AreWritable;
    NoLines();
    assert ITEMS[..0] == [] && all[..0] == [];
    NextLines(0, all[..0], all[0..1]);
    NextLines(1, all[..1], all[1..2]);
    NextLines(2, all[..2], all[2..3]);
    NextLines(3, all[..3], all[3..4]);
    NextLines(4, all[..4], all[4..5]);
    NextLines(5, all[..5], all[5..7]);
    NextLines(6, all[..7], all[7..8]);
    assert all[..0] + all[0..1] == all[..1] && all[..1] + all[1..2] == all[..2] && all[..2] + all[2..3] == all[..3];
    assert all[..3] + all[3..4] == all[..4] && all[..4] + all[4..5] == all[..5] && all[..5] + all[5..7] == all[..7];
    assert all[..7] + all[7..8] == all && ITEMS[..7] == ITEMS;
  }

  const RECORD: seq<string> :=
    ["dn:cn=u", "changetype:add", "cn:u", "cn:v", "note::YQpi", "d:" + Xs(57), " " + Xs(13), ""]

  lemma FirstLines()
    ensures Ldif.IsWritable(ITEMS[0]) && Ldif.ItemLines(ITEMS[0]) == ["dn:cn=u"]
    ensures Ldif.IsWritable(ITEMS[1]) && Ldif.ItemLines(ITEMS[1]) == ["changetype:add"]
  {
    PlainLine("dn", "cn=u", "dn:cn=u");
    PlainLine("changetype", "add", "changetype:add");
    hide Ldif.ItemLines, Ldif.IsWritable;
  }

  lemma NameLines()
    ensures Ldif.IsWritable(ITEMS[2]) && Ldif.ItemLines(ITEMS[2]) == ["cn:u"]
    ensures Ldif.IsWritable(ITEMS[3]) && Ldif.ItemLines(ITEMS[3]) == ["cn:v"]
  {
    PlainLine("cn", "u", "cn:u");
    PlainLine("cn", "v", "cn:v");
    hide Ldif.ItemLines, Ldif.IsWritable;
  }

  lemma LinesAre()
    ensures Ldif.AreWritable(ITEMS) && Ldif.AllLines(ITEMS) == RECORD
  {
    Writable();
    hide Ldif.AllLines, Ldif.ItemLines, Xs, Ldif.IsWritable;
    FirstLines();
    NameLines();
    SpecialLines();
    assert ITEMS[6] == Ldif.End;
    LinesFrom(RECORD);
  }

  lemma NoLines()
    ensures Ldif.AllLines([]) == []
  {
  }

  lemma NextLines(n: nat, lines: seq<string>, more: seq<string>)
    requires n < 7 && Ldif.AreWritable(ITEMS) && Ldif.ItemLines(ITEMS[n]) == more
    ensures Ldif.AreWritable(ITEMS[..n]) && Ldif.AreWritable(ITEMS[..n + 1])
    ensures Ldif.AllLines(ITEMS[..n]) == lines ==> Ldif.AllLines(ITEMS[..n + 1]) == lines + more
  {
    hide Ldif.AllLines, Ldif.ItemLines, Ldif.IsWritable;
    assert ITEMS[..n] + [ITEMS[n]] == ITEMS[..n + 1];
    if Ldif.AllLines(ITEMS[..n]) == lines {
      MoreLines(ITEMS[..n], ITEMS[n], lines, more);
    }
  }

  /** Each line is followed by a newline. */
  lemma LinesToText(line: string, lines: seq<string>)
    ensures Ldif.Text([]) == "" && Ldif.Text([line] + lines) == line + "\n" + Ldif.Text(lines)
  {
    Ldif.TextFirst([line] + lines);
    assert ([line] + lines)[1..] == lines;
  }

  /** Values that a reader takes for something else, and one that it does not. */
  lemma SafeStrings()
    ensures !Ldif.IsSafe(" a") && !Ldif.IsSafe(":a") && !Ldif.IsSafe("<a") && !Ldif.IsSafe("a\0") && !Ldif.IsSafe("a\r")
    ensures Ldif.IsSafe("a :<") && Ldif.IsSafe("")
  {
    assert " a"[0] == ' ' && ":a"[0] == ':' && "<a"[0] == '<' && "a\0"[1] == '\0' && "a\r"[1] == '\r';
  }

  /** A colon or space at the front, a trailing space, a control character or one outside of ASCII makes
      the log write base 64. */
  lemma PlainValues()
    ensures LogText.IsPlain("a :<b") && LogText.IsPlain("")
    ensures !LogText.IsPlain(" a") && !LogText.IsPlain(":a") && !LogText.IsPlain("<a") && !LogText.IsPlain("a ")
    ensures !LogText.IsPlain("a\nb") && !LogText.IsPlain("a\rb") && !LogText.IsPlain("a\0b")
    ensures !LogText.IsPlain([128 as char])
  {
    assert " a"[0] == ' ' && ":a"[0] == ':' && "<a"[0] == '<' && "a "[1] == ' ';
    assert "a\nb"[1] == '\n' && "a\rb"[1] == '\r' && "a\0b"[1] == '\0' && [128 as char][0] as int == 128;
  }

  lemma PlainLog()
    ensures LogText.IsLoggable(LogText.Attribute("cn", "u"))
    ensures LogText.LogLine(LogText.Attribute("cn", "u")) == "cn: u"
  {
    assert LogText.IsPlain("u");
    hide LogText.IsPlain;
    assert "cn" + ": " + "u" == "cn: u";
  }

  lemma CodedLog()
    ensures LogText.IsLoggable(LogText.Attribute("note", " a"))
    ensures LogText.LogLine(LogText.Attribute("note", " a")) == "note:: IGE="
  {
    assert Base64.Encode(" a") == "IGE=" by { SpaceVector(); }
    assert !LogText.IsPlain(" a") by { assert " a"[0] == ' '; }
    hide LogText.IsPlain, Base64.Encode;
    assert "note" + ":: " + "IGE=" == "note:: IGE=";
  }

  // The password file.

  lemma EscapesCharacters()
    ensures RootPw.Escape("a\"b\\") == "a\\\"b\\\\"
  {
    RootPw.EscapeIsEscaped("a\"b\\");
    hide RootPw.Escape;
    var s := "a\"b\\";
    assert s[1..] == "\"b\\" && s[1..][1..] == "b\\" && s[1..][1..][1..] == "\\" && s[1..][1..][1..][1..] == "";
    assert RootPw.Escaped("\\") == "\\" + ['\\'] + "";
    assert RootPw.Escaped("b\\") == ['b'] + "\\\\";
    assert RootPw.Escaped("\"b\\") == "\\\"b\\\\";
  }

  /** The file of the password a"b\: both characters are escaped. */
  lemma WritesPassword()
    ensures RootPw.FileText("a\"b\\") == "rootpw \"a\\\"b\\\\\"\n"
  {
    EscapesCharacters();
    hide RootPw.Escape;
    assert "rootpw \"" + "a\\\"b\\\\" + "\"" + "\n" == "rootpw \"a\\\"b\\\\\"\n";
  }

  /** Blank space and a tab before the quote, and something after it. */
  lemma CapturesPassword()
    ensures RootPw.Capture("rootpw \t\"a\\\"b\\\\\" #\n") == Some("a\\\"b\\\\")
  {
    EscapesCharacters();
    RootPw.EscapeIsEscaped("a\"b\\");
    RootPw.EscapedIsEscaped("a\"b\\");
    hide RootPw.Escape, RootPw.Escaped, RootPw.Capture, RootPw.IsEscaped;
    var line, group := "rootpw \t\"a\\\"b\\\\\" #\n", "a\\\"b\\\\";
    assert line == "rootpw" + " \t" + "\"" + group + "\"" + " #\n";
    RootPw.MatchIsCaptured(line, " \t", group, " #\n");
  }

  lemma OtherLine()
    ensures RootPw.Capture("rootdn x\n") == None
  {
    assert "rootdn x\n"[4] == 'd' && "rootpw"[4] == 'p';
  }

  lemma SecondLine(a: string, b: string, group: string)
    requires RootPw.Capture(a) == None && RootPw.Capture(b) == Some(group)
    ensures RootPw.GetPassword([a, b]) == RootPw.Unescape(group)
  {
    hide RootPw.Capture, RootPw.Unescape;
    assert [a, b][1..] == [b];
  }

  /** The line is found after one of something else, and the password is read. */
  lemma ReadsPassword()
    ensures RootPw.GetPassword(["rootdn x\n", "rootpw \t\"a\\\"b\\\\\" #\n"]) == "a\"b\\"
  {
    CapturesPassword();
    OtherLine();
    EscapesCharacters();
    RootPw.UnescapeUndoesEscape("a\"b\\");
    hide *;
    SecondLine("rootdn x\n", "rootpw \t\"a\\\"b\\\\\" #\n", "a\\\"b\\\\");
  }
}
