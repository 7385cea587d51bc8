/** The base-64 encoding of RFC 4648, section 4, on byte strings as Python 2 has them. */
module Base64 {
  import opened Wrappers

  predicate IsBytes(s: string) {
    forall i :: 0 <= i < |s| ==> s[i] as int < 256
  }

  function Symbol(n: nat): (c: char)
    requires n < 64
    ensures '+' <= c <= 'z'
  {
    if n < 26 then (n + 65) as char
    else if n < 52 then (n + 71) as char
    else if n < 62 then (n - 4) as char
    else if n == 62 then '+'
    else '/'
  }

  function Sextet(c: char): (r: Option<nat>)
    ensures r.Some? ==> r.value < 64
  {
    if 'A' <= c <= 'Z' then Some(c as int - 65)
    else if 'a' <= c <= 'z' then Some(c as int - 71)
    else if '0' <= c <= '9' then Some(c as int + 4)
    else if c == '+' then Some(62)
    else if c == '/' then Some(63)
    else None
  }

  lemma SextetOfSymbol(n: nat)
    requires n < 64
    ensures Sextet(Symbol(n)) == Some(n)
  {
  }

  lemma NoSextet()
    ensures Sextet('=') == None
  {
  }

  /** The sextets of three bytes, and the bytes of four sextets. */
  function Sextet1(a: nat): (x: nat)
    requires a < 256
    ensures x < 64
  {
    a / 4
  }

  function Sextet2(a: nat, b: nat): (x: nat)
    requires b < 256
    ensures x < 64
  {
    a % 4 * 16 + b / 16
  }

  function Sextet3(b: nat, c: nat): (x: nat)
    requires c < 256
    ensures x < 64
  {
    b % 16 * 4 + c / 64
  }

  function Sextet4(c: nat): (x: nat)
    ensures x < 64
  {
    c % 64
  }

  function Byte1(w: nat, x: nat): (b: nat)
    requires w < 64 && x < 64
    ensures b < 256
  {
    w * 4 + x / 16
  }

  function Byte2(x: nat, y: nat): (b: nat)
    requires y < 64
    ensures b < 256
  {
    x % 16 * 16 + y / 4
  }

  function Byte3(y: nat, z: nat): (b: nat)
    requires z < 64
    ensures b < 256
  {
    y % 4 * 64 + z
  }

  lemma SextetsHoldBytes(a: nat, b: nat, c: nat)
    requires a < 256 && b < 256 && c < 256
    ensures Byte1(Sextet1(a), Sextet2(a, b)) == a
    ensures Byte2(Sextet2(a, b), Sextet3(b, c)) == b
    ensures Byte3(Sextet3(b, c), Sextet4(c)) == c
  {
  }

  /** The byte of s at index i, or 0 beyond its end. */
  function ByteAt(s: string, i: nat): (b: nat)
    requires IsBytes(s)
    ensures b < 256
  {
    if i < |s| then s[i] as int else 0
  }

  /** The four characters of a group of one to three bytes. */
  function Group(s: string): (t: string)
    requires IsBytes(s) && 1 <= |s| <= 3
    ensures |t| == 4 && forall i :: 0 <= i < 4 ==> '+' <= t[i] <= 'z'
  {
    var a, b, c := ByteAt(s, 0), ByteAt(s, 1), ByteAt(s, 2);
    [Symbol(Sextet1(a)), Symbol(Sextet2(a, b)),
     if |s| > 1 then Symbol(Sextet3(b, c)) else '=', if |s| > 2 then Symbol(Sextet4(c)) else '=']
  }

  function Encode(s: string): (t: string)
    requires IsBytes(s)
    ensures forall i :: 0 <= i < |t| ==> '+' <= t[i] <= 'z'
    ensures s != "" ==> t != ""
  {
    if |s| <= 3 then if s == "" then "" else Group(s) else Group(s[..3]) + Encode(s[3..])
  }

  function First(w: nat, x: nat): (c: char)
    requires w < 64 && x < 64
    ensures c as int < 256
  {
    Byte1(w, x) as char
  }

  function Second(x: nat, y: nat): (c: char)
    requires x < 64 && y < 64
    ensures c as int < 256
  {
    Byte2(x, y) as char
  }

  function Third(y: nat, z: nat): (c: char)
    requires y < 64 && z < 64
    ensures c as int < 256
  {
    Byte3(y, z) as char
  }

  function Ungroup(t: string): (r: Option<string>)
    requires |t| == 4
    ensures r.Some? ==> IsBytes(r.value) && 1 <= |r.value| <= 3
  {
    match (Sextet(t[0]), Sextet(t[1]), Sextet(t[2]), Sextet(t[3]))
    case (Some(w), Some(x), Some(y), Some(z)) => Some([First(w, x), Second(x, y), Third(y, z)])
    case (Some(w), Some(x), Some(y), None) =>
      if t[3] == '=' then Some([First(w, x), Second(x, y)]) else None
    case (Some(w), Some(x), None, None) => if t[2] == t[3] == '=' then Some([First(w, x)]) else None
    case _ => None
  }

  function Decode(t: string): (r: Option<string>)
    ensures r.Some? ==> IsBytes(r.value) && |r.value| <= |t|
  {
    if t == "" then Some("")
    else if |t| < 4 then None
    else
      match (Ungroup(t[..4]), Decode(t[4..]))
      case (Some(b), Some(rest)) => if |b| < 3 && |t| > 4 then None else Some(b + rest)
      case _ => None
  }

  lemma UngroupGroup(s: string)
    requires IsBytes(s) && 1 <= |s| <= 3
    ensures Ungroup(Group(s)) == Some(s)
  {
    hide Symbol, Sextet, Sextet1, Sextet2, Sextet3, Sextet4, Byte1, Byte2, Byte3;
    var a, b, c := ByteAt(s, 0), ByteAt(s, 1), ByteAt(s, 2);
    SextetsHoldBytes(a, b, c);
    SextetOfSymbol(Sextet1(a));
    SextetOfSymbol(Sextet2(a, b));
    SextetOfSymbol(Sextet3(b, c));
    SextetOfSymbol(Sextet4(c));
    NoSextet();
    assert Ungroup(Group(s)).Some?;
    assert Ungroup(Group(s)).value == s;
  }

  lemma {:induction false} DecodeUndoesEncode(s: string)
    requires IsBytes(s)
    ensures Decode(Encode(s)) == Some(s)
  {
    hide Group, Ungroup;
    if 0 < |s| <= 3 {
      UngroupGroup(s);
      assert Encode(s)[..4] == Encode(s) && Decode(Encode(s)[4..]) == Some("");
      assert Decode(Encode(s)).value == s;
    } else if s != "" {
      UngroupGroup(s[..3]);
      DecodeUndoesEncode(s[3..]);
      assert Encode(s)[..4] == Group(s[..3]) && Encode(s)[4..] == Encode(s[3..]);
      assert s == s[..3] + s[3..];
    }
  }
}
