/** The password file of replication.py: quoting on the way out, a regular expression and
    unquoting on the way back. */
module RootPw {
  import opened Wrappers

  /** Python's s.replace(from, to), which scans from the left and never looks back. */
  function Replace(s: string, from: string, to: string): string
    requires from != ""
    decreases |s|
  {
    if s == "" then ""
    else if from <= s then to + Replace(s[|from|..], from, to)
    else [s[0]] + Replace(s[1..], from, to)
  }

  /** What new_password writes between the quotes. */
  function Escape(pw: string): string {
    Replace(Replace(pw, "\\", "\\\\"), "\"", "\\\"")
  }

  /** What get_password makes of the text it has captured. */
  function Unescape(text: string): string {
    Replace(Replace(text, "\\\"", "\""), "\\\\", "\\")
  }

  function FileText(pw: string): string {
    "rootpw \"" + Escape(pw) + "\"" + "\n"
  }

  /** One character that is escaped iff it has to be. */
  predicate IsUnit(u: string) {
    (|u| == 1 && u[0] != '"' && u[0] != '\\') || u == "\\\"" || u == "\\\\"
  }

  /** A string of the regular expression's inner group, repeated any number of times. */
  predicate IsEscaped(s: string) {
    s == "" || (exists n :: 1 <= n <= |s| && n <= 2 && IsUnit(s[..n]) && IsEscaped(s[n..]))
  }

  predicate IsBlank(s: string) {
    forall i :: 0 <= i < |s| ==> s[i] == ' ' || s[i] == '\t'
  }

  /** The line matches ^rootpw[ \t]+"((?:[^"\\]|\\["\\])+)" with this group, blanks and rest. */
  predicate Matches(line: string, blanks: string, group: string, rest: string) {
    && line == "rootpw" + blanks + "\"" + group + "\"" + rest
    && blanks != "" && IsBlank(blanks)
    && group != "" && IsEscaped(group)
  }

  /** The longest prefix of s made of whole units. */
  function Units(s: string): (n: nat)
    ensures n <= |s| && IsEscaped(s[..n])
    decreases |s|
  {
    if s == "" then 0
    else if IsUnit(s[..1]) then
      var n := 1 + Units(s[1..]);
      assert s[..n][..1] == s[..1] && s[..n][1..] == s[1..][..n - 1];
      n
    else if |s| > 1 && IsUnit(s[..2]) then
      var n := 2 + Units(s[2..]);
      assert s[..n][..2] == s[..2] && s[..n][2..] == s[2..][..n - 2];
      n
    else 0
  }

  function Blanks(s: string): (n: nat)
    ensures n <= |s| && IsBlank(s[..n])
  {
    if s == "" || (s[0] != ' ' && s[0] != '\t') then 0 else 1 + Blanks(s[1..])
  }

  /** The group that the regular expression captures at the start of a line. */
  function Capture(line: string): Option<string> {
    if !("rootpw" <= line) then None
    else
      var b := Blanks(line[6..]);
      var s := line[6 + b..];
      if b == 0 || s == "" || s[0] != '"' then None
      else
        var n := Units(s[1..]);
        if n == 0 || n + 1 == |s| || s[n + 1] != '"' then None else Some(s[1..n + 1])
  }

  /** get_password: the first line that matches decides. */
  function GetPassword(lines: seq<string>): string {
    if lines == [] then ""
    else if Capture(lines[0]).Some? then Unescape(Capture(lines[0]).value)
    else GetPassword(lines[1..])
  }

  /** Escaping, character by character. */
  function Escaped(pw: string): (s: string)
    ensures s != "" ==> s[0] != '"'
    ensures |pw| <= |s|
  {
    if pw == "" then ""
    else (if pw[0] == '\\' || pw[0] == '"' then "\\" + [pw[0]] else [pw[0]]) + Escaped(pw[1..])
  }

  function Doubled(pw: string): string {
    if pw == "" then "" else (if pw[0] == '\\' then "\\\\" else [pw[0]]) + Doubled(pw[1..])
  }

  lemma ReplaceStep(from: string, to: string, s: string)
    requires from != ""
    ensures Replace(from + s, from, to) == to + Replace(s, from, to)
  {
    assert (from + s)[|from|..] == s;
  }

  lemma KeepStep(c: char, s: string, from: string, to: string)
    requires from != "" && (c != from[0] || (s != "" && |from| == 2 && s[0] != from[1]))
    ensures Replace([c] + s, from, to) == [c] + Replace(s, from, to)
  {
    assert ([c] + s)[1..] == s;
  }

  /** The two replacements that escape act on each character by itself. */
  lemma {:induction false} EscapeIsEscaped(pw: string)
    ensures Escape(pw) == Escaped(pw)
  {
    hide Replace;
    if pw == "" {
      ReplaceNothing("\\", "\\\\");
      ReplaceNothing("\"", "\\\"");
    } else {
      var c, rest := pw[0], pw[1..];
      EscapeIsEscaped(rest);
      var tail := Replace(rest, "\\", "\\\\");
      assert pw == [c] + rest;
      if c == '\\' {
        ReplaceStep("\\", "\\\\", rest);
        KeepStep('\\', tail, "\"", "\\\"");
        KeepStep('\\', "\\" + tail, "\"", "\\\"");
        assert ['\\'] + ("\\" + tail) == "\\\\" + tail;
        assert Escape(pw) == "\\\\" + Escape(rest);
      } else if c == '"' {
        KeepStep(c, rest, "\\", "\\\\");
        ReplaceStep("\"", "\\\"", tail);
      } else {
        KeepStep(c, rest, "\\", "\\\\");
        KeepStep(c, tail, "\"", "\\\"");
      }
    }
  }

  lemma ReplaceNothing(from: string, to: string)
    requires from != ""
    ensures Replace("", from, to) == ""
  {
  }

  /** Of the two replacements that unescape, the first only takes the escapes off the quotes ... */
  lemma {:induction false} QuotesUnescape(pw: string)
    ensures Replace(Escaped(pw), "\\\"", "\"") == Doubled(pw)
  {
    hide Replace;
    if pw == "" {
      ReplaceNothing("\\\"", "\"");
    } else {
      QuotesUnescape(pw[1..]);
      QuoteUnescapes(pw[0], Escaped(pw[1..]), Doubled(pw[1..]));
    }
  }

  lemma QuoteUnescapes(c: char, rest: string, doubled: string)
    requires rest != "" ==> rest[0] != '"'
    requires Replace(rest, "\\\"", "\"") == doubled
    ensures Replace((if c == '\\' || c == '"' then "\\" + [c] else [c]) + rest, "\\\"", "\"")
            == (if c == '\\' then "\\\\" else [c]) + doubled
  {
    hide Replace;
    if c == '\\' {
      BackslashStays(rest);
      KeepStep('\\', "\\" + rest, "\\\"", "\"");
      assert "\\" + [c] + rest == ['\\'] + ("\\" + rest);
      assert ['\\'] + ("\\" + doubled) == "\\\\" + doubled;
    } else if c == '"' {
      ReplaceStep("\\\"", "\"", rest);
      assert "\\" + [c] == "\\\"" && [c] == "\"";
    } else {
      KeepStep(c, rest, "\\\"", "\"");
    }
  }

  lemma BackslashStays(s: string)
    requires s != "" ==> s[0] != '"'
    ensures Replace("\\" + s, "\\\"", "\"") == "\\" + Replace(s, "\\\"", "\"")
  {
    if s == "" {
      assert Replace("\\"[1..], "\\\"", "\"") == "";
      assert "\\" + s == "\\";
    } else {
      KeepStep('\\', s, "\\\"", "\"");
    }
  }

  /** ... and the second halves the backslashes. */
  lemma {:induction false} BackslashesUnescape(pw: string)
    ensures Replace(Doubled(pw), "\\\\", "\\") == pw
  {
    hide Replace;
    if pw == "" {
      ReplaceNothing("\\\\", "\\");
    } else {
      var c, rest := pw[0], Doubled(pw[1..]);
      BackslashesUnescape(pw[1..]);
      if c == '\\' {
        ReplaceStep("\\\\", "\\", rest);
      } else {
        KeepStep(c, rest, "\\\\", "\\");
      }
      assert pw == [c] + pw[1..];
    }
  }

  lemma UnescapeUndoesEscape(pw: string)
    ensures Unescape(Escape(pw)) == pw
  {
    EscapeIsEscaped(pw);
    QuotesUnescape(pw);
    BackslashesUnescape(pw);
  }

  lemma {:induction false} EscapedIsEscaped(pw: string)
    ensures IsEscaped(Escaped(pw))
  {
    if pw == "" {
    } else {
      EscapedIsEscaped(pw[1..]);
      var n := if pw[0] == '\\' || pw[0] == '"' then 2 else 1;
      var s := Escaped(pw);
      assert s[n..] == Escaped(pw[1..]);
      assert IsUnit(s[..n]);
    }
  }

  lemma FirstUnit(s: string) returns (n: nat)
    requires IsEscaped(s) && s != ""
    ensures 1 <= n <= 2 && n <= |s| && IsUnit(s[..n]) && IsEscaped(s[n..])
  {
    n :| 1 <= n <= |s| && n <= 2 && IsUnit(s[..n]) && IsEscaped(s[n..]);
  }

  lemma QuoteIsNoUnit(rest: string)
    ensures Units("\"" + rest) == 0
  {
    hide IsEscaped;
    var s := "\"" + rest;
    assert s[..1][0] == '"';
    assert |s| > 1 ==> s[..2][0] == '"';
  }

  /** Scanning units stops at the quote that follows an escaped text, and not before. */
  lemma {:induction false} UnitsStopAtQuote(group: string, rest: string)
    requires IsEscaped(group)
    ensures Units(group + "\"" + rest) == |group|
    decreases |group|
  {
    hide IsUnit, Units;
    if group == "" {
      QuoteIsNoUnit(rest);
      assert group + "\"" + rest == "\"" + rest;
    } else {
      var s := group + "\"" + rest;
      var n := FirstUnit(group);
      hide IsEscaped;
      UnitsStopAtQuote(group[n..], rest);
      assert s[..n] == group[..n] && s[n..] == group[n..] + "\"" + rest;
      NextUnit(s, n);
    }
  }

  lemma NextUnit(s: string, n: nat)
    requires 1 <= n <= 2 && n <= |s| && IsUnit(s[..n])
    ensures Units(s) == n + Units(s[n..])
  {
    hide IsEscaped;
    if n == 2 {
      assert s[..2][0] == '\\' && s[..1] == "\\";
    }
  }

  lemma {:induction false} BlanksStopAtQuote(blanks: string, rest: string)
    requires IsBlank(blanks)
    ensures Blanks(blanks + "\"" + rest) == |blanks|
  {
    var s := blanks + "\"" + rest;
    if blanks == "" {
      assert s[0] == '"';
    } else {
      BlanksStopAtQuote(blanks[1..], rest);
      assert s[1..] == blanks[1..] + "\"" + rest && s[0] == blanks[0];
    }
  }

  lemma QuotedText(s: string, n: nat)
    requires n + 1 < |s| && s[0] == '"' && s[n + 1] == '"'
    ensures s == "\"" + s[1..n + 1] + "\"" + s[n + 2..]
  {
  }

  lemma Regroup(start: string, group: string, rest: string)
    ensures start + ("\"" + group + "\"" + rest) == start + "\"" + group + "\"" + rest
  {
  }

  lemma CapturedMatches(line: string)
    requires Capture(line).Some?
    ensures exists blanks, rest :: Matches(line, blanks, Capture(line).value, rest)
  {
    hide Blanks, Units, IsBlank, IsEscaped;
    var b := Blanks(line[6..]);
    var s := line[6 + b..];
    var n := Units(s[1..]);
    QuotedText(s, n);
    var blanks, group, rest := line[6..][..b], s[1..n + 1], s[n + 2..];
    assert line == "rootpw" + blanks + s;
    Regroup("rootpw" + blanks, group, rest);
    assert s[1..][..n] == group;
    assert Matches(line, blanks, group, rest);
  }

  /** The capture is the group of every match of the regular expression, and of some match. */
  lemma CaptureIsMatch(line: string)
    ensures forall blanks, group, rest :: Matches(line, blanks, group, rest) ==> Capture(line) == Some(group)
    ensures Capture(line).Some? ==> exists blanks, rest :: Matches(line, blanks, Capture(line).value, rest)
  {
    hide Capture, Matches;
    forall blanks, group, rest | Matches(line, blanks, group, rest)
      ensures Capture(line) == Some(group)
    {
      MatchIsCaptured(line, blanks, group, rest);
    }
    if Capture(line).Some? {
      CapturedMatches(line);
    }
  }

  lemma MatchIsCaptured(line: string, blanks: string, group: string, rest: string)
    requires Matches(line, blanks, group, rest)
    ensures Capture(line) == Some(group)
  {
    hide Capture, Units, Blanks, IsEscaped, IsBlank;
    var tail := group + "\"" + rest;
    BlanksStopAtQuote(blanks, tail);
    UnitsStopAtQuote(group, rest);
    Regroup("rootpw" + blanks, group, rest);
    assert "\"" + group + "\"" + rest == "\"" + tail;
    CaptureIs(line, blanks, tail, |group|);
    assert tail[..|group|] == group;
  }

  lemma CaptureIs(line: string, blanks: string, tail: string, n: nat)
    requires line == "rootpw" + blanks + ("\"" + tail) && blanks != ""
    requires Blanks(blanks + "\"" + tail) == |blanks|
    requires Units(tail) == n && 0 < n < |tail| && tail[n] == '"'
    ensures Capture(line) == Some(tail[..n])
  {
    hide Units, Blanks, Capture;
    var s := ['"'] + tail;
    assert "\"" + tail == s;
    AfterQuote(tail, n);
    QuoteBefore(blanks, tail);
    AfterKeyword(line, blanks, s);
    CaptureStep(line, |blanks|, n);
  }

  lemma QuoteBefore(blanks: string, tail: string)
    ensures blanks + "\"" + tail == blanks + (['"'] + tail)
  {
  }

  lemma AfterQuote(tail: string, n: nat)
    requires n < |tail|
    ensures var s := ['"'] + tail;
            s != "" && s[0] == '"' && s[1..] == tail && s[n + 1] == tail[n] && s[1..n + 1] == tail[..n]
  {
  }

  lemma CaptureStep(line: string, b: nat, n: nat)
    requires "rootpw" <= line && Blanks(line[6..]) == b && 0 < b && 6 + b < |line|
    requires var s := line[6 + b..];
             s[0] == '"' && Units(s[1..]) == n && 0 < n && n + 1 < |s| && s[n + 1] == '"'
    ensures Capture(line) == Some(line[6 + b..][1..n + 1])
  {
    hide Units, Blanks, IsEscaped, IsBlank;
  }

  lemma AfterKeyword(line: string, blanks: string, s: string)
    requires line == "rootpw" + blanks + s
    ensures "rootpw" <= line && line[6..] == blanks + s && line[6 + |blanks|..] == s
  {
  }

  /** The lines of a file as Python gives them, with the newline at the end of each. */
  function Lines(t: string): (ls: seq<string>)
    decreases |t|
  {
    if t == "" then []
    else
      var n := FirstLine(t);
      [t[..n]] + Lines(t[n..])
  }

  function FirstLine(t: string): (n: nat)
    requires t != ""
    ensures 1 <= n <= |t| && forall i :: 0 <= i < n - 1 ==> t[i] != '\n'
    ensures t[n - 1] == '\n' || n == |t|
  {
    if t[0] == '\n' || |t| == 1 then 1 else 1 + FirstLine(t[1..])
  }

  predicate HasNewline(s: string) {
    exists i :: 0 <= i < |s| && s[i] == '\n'
  }

  lemma {:induction false} ReplaceKeepsNewlinesOut(s: string, from: string, to: string)
    requires from != "" && !HasNewline(s) && !HasNewline(to)
    ensures !HasNewline(Replace(s, from, to))
    decreases |s|
  {
    if s == "" {
    } else {
      if from <= s {
        ReplaceKeepsNewlinesOut(s[|from|..], from, to);
      } else {
        ReplaceKeepsNewlinesOut(s[1..], from, to);
      }
    }
  }

  lemma {:induction false} PasswordHasNoNewline(t: string)
    ensures !HasNewline(GetPassword(Lines(t)))
    decreases |t|
  {
    if t == "" {
    } else {
      var line := Lines(t)[0];
      if Capture(line).Some? {
        var group := Capture(line).value;
        var b := Blanks(line[6..]);
        assert forall i :: 0 <= i < |group| ==> group[i] == line[7 + b + i];
        ReplaceKeepsNewlinesOut(group, "\\\"", "\"");
        ReplaceKeepsNewlinesOut(Replace(group, "\\\"", "\""), "\\\\", "\\");
      } else {
        PasswordHasNoNewline(t[FirstLine(t)..]);
      }
    }
  }

  lemma NewlineBefore(t: string, n: nat)
    requires 1 <= n < |t| && t[n - 1] == '\n'
    ensures HasNewline(t[..|t| - 1])
  {
    assert t[..|t| - 1][n - 1] == '\n';
  }

  lemma OneLine(t: string)
    requires t != "" && t[|t| - 1] == '\n' && !HasNewline(t[..|t| - 1])
    ensures Lines(t) == [t]
  {
    hide FirstLine, HasNewline;
    var n := FirstLine(t);
    if n < |t| {
      NewlineBefore(t, n);
      assert false;
    }
    assert t[..n] == t && t[n..] == "";
    assert Lines("") == [];
  }

  /** A password without newline is on one line, with the group around it. */
  lemma PasswordLine(pw: string)
    requires !HasNewline(pw)
    ensures Lines(FileText(pw)) == [FileText(pw)]
  {
    hide Replace;
    var t := FileText(pw);
    ReplaceKeepsNewlinesOut(pw, "\\", "\\\\");
    ReplaceKeepsNewlinesOut(Replace(pw, "\\", "\\\\"), "\"", "\\\"");
    assert t[..|t| - 1] == "rootpw \"" + Escape(pw) + "\"";
    OneLine(t);
  }

  /** The empty password does not match, and reads as the empty password all the same. */
  lemma EmptyPassword()
    ensures Capture(FileText("")) == None
  {
    var t := FileText("");
    EscapeIsEscaped("");
    assert t == "rootpw" + " " + "\"" + "" + "\"" + "\n";
    BlanksStopAtQuote(" ", "\"\n");
    assert t[6..] == " " + "\"" + "\"\n";
    UnitsStopAtQuote("", "\n");
    assert t[7..][1..] == "" + "\"" + "\n";
  }

  lemma PasswordIsCaptured(pw: string)
    requires pw != ""
    ensures Capture(FileText(pw)) == Some(Escape(pw))
  {
    hide Capture, Escape, Escaped;
    EscapeIsEscaped(pw);
    EscapedIsEscaped(pw);
    assert FileText(pw) == "rootpw" + " " + "\"" + Escaped(pw) + "\"" + "\n";
    MatchIsCaptured(FileText(pw), " ", Escaped(pw), "\n");
  }

  /** get_password returns what new_password wrote iff the password has no newline. */
  lemma PasswordComesBack(pw: string)
    ensures GetPassword(Lines(FileText(pw))) == pw <==> !HasNewline(pw)
  {
    hide Capture, Escape, Unescape, FileText, Lines;
    var t := FileText(pw);
    if HasNewline(pw) {
      PasswordHasNoNewline(t);
    } else {
      PasswordLine(pw);
      if pw == "" {
        EmptyPassword();
        assert GetPassword([t]) == "";
      } else {
        PasswordIsCaptured(pw);
        UnescapeUndoesEscape(pw);
      }
    }
  }

  /** A password of one newline is not read back. */
  lemma NewlineIsLost()
    ensures GetPassword(Lines(FileText("\n"))) != "\n"
  {
    hide GetPassword, Lines, FileText;
    assert "\n"[0] == '\n';
    PasswordComesBack("\n");
  }
}
