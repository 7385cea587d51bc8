/** BF_crypt: the whole bcrypt hash, from a setting string to an output string. */
module Bcrypt {
  import opened Feistel
  import opened Radix64
  import opened Wrappers
  import opened KeyExpansion
  import Blowfish

  /** The initial subkeys and S-boxes; no property depends on their values. */
  datatype Tables = Tables(p: seq<Word>, s: seq<Word>) {
    predicate Valid() {
      |p| == SUBKEYS && |s| == Blowfish.WORDS - SUBKEYS
    }
  }

  /** "OrpheanBeholderScryDoubt", big-endian. */
  const MAGIC: seq<Word> :=
    [0x4F727068, 0x65616E42, 0x65686F6C, 0x64657253, 0x63727944, 0x6F756274]

  /** The flags that the letter of a "$2a$", "$2x$" or "$2y$" prefix stands for; 0 for others. */
  function SubtypeFlags(c: Byte): Byte {
    if c == 0x61 then 2 else if c == 0x78 then 1 else if c == 0x79 then 4 else 0
  }

  predicate IsDigit(c: Byte) {
    0x30 <= c <= 0x39
  }

  /** "$2a$NN$" with a cost NN of at most 31. */
  predicate HasHeader(setting: seq<Byte>) {
    && At(setting, 0) == 0x24
    && At(setting, 1) == 0x32
    && SubtypeFlags(At(setting, 2)) != 0
    && At(setting, 3) == 0x24
    && 0x30 <= At(setting, 4) <= 0x33
    && IsDigit(At(setting, 5))
    && (At(setting, 4) == 0x33 ==> At(setting, 5) <= 0x31)
    && At(setting, 6) == 0x24
  }

  function Cost(setting: seq<Byte>): nat
    requires HasHeader(setting)
  {
    (At(setting, 4) - 0x30) as int * 10 + (At(setting, 5) - 0x30) as int
  }

  function Pow2(n: nat): (p: nat)
    ensures 0 < p
  {
    if n == 0 then 1 else 2 * Pow2(n - 1)
  }

  function SaltOf(b: seq<Byte>): Blowfish.Salt
    requires |b| == 16
  {
    seq(4, i requires 0 <= i < 4 => BigEndian(b[4 * i], b[4 * i + 1], b[4 * i + 2], b[4 * i + 3]))
  }

  /** The state that a key, a salt and a cost set up. */
  function Setup(t: Tables, flags: Byte, key: seq<Byte>, salt: Blowfish.Salt, cost: nat): Blowfish.State
    requires t.Valid()
  {
    Blowfish.Costly(
      Blowfish.Pass(Initial(t.p, key, flags & 1 != 0, flags & 2 != 0) + t.s, salt),
      salt, Expanded(key, flags & 1 != 0), Pow2(cost))
  }

  /** The magic words, each pair enciphered 64 times. */
  function Ciphertext(w: Blowfish.State): (c: seq<Word>)
    ensures |c| == 6
  {
    var x := Blowfish.EncTimes(w, Block(MAGIC[0], MAGIC[1]), 64);
    var y := Blowfish.EncTimes(w, Block(MAGIC[2], MAGIC[3]), 64);
    var z := Blowfish.EncTimes(w, Block(MAGIC[4], MAGIC[5]), 64);
    [x.l, x.r, y.l, y.r, z.l, z.r]
  }

  function BigEndianBytes(w: Word): seq<Byte> {
    [((w >> 24) & 0xFF) as Byte, ((w >> 16) & 0xFF) as Byte, ((w >> 8) & 0xFF) as Byte,
     (w & 0xFF) as Byte]
  }

  function Bytes(w: seq<Word>): (b: seq<Byte>)
    ensures |b| == 4 * |w|
  {
    if w == [] then [] else BigEndianBytes(w[0]) + Bytes(w[1..])
  }

  /** What BF_crypt returns: the setting with its last salt digit cleared of unused bits, then 23
      of the 24 bytes of the ciphertext. */
  function Crypt(t: Tables, key: seq<Byte>, setting: seq<Byte>, size: int, min: nat): (r: Option<seq<Byte>>)
    requires t.Valid()
  {
    if size < 7 + 22 + 31 + 1 || !HasHeader(setting) || Pow2(Cost(setting)) < min then None
    else
      match Decoded(setting, 7, 16)
      case None => None
      case Some(salt) =>
        LastSaltDigit(setting);
        var flags := SubtypeFlags(At(setting, 2));
        var w := Setup(t, flags, key, SaltOf(salt), Cost(setting));
        Some(setting[..28] + [Cleared(setting[28], 0x30)] + Encoded(Bytes(Ciphertext(w))[..23]))
  }

  /** A setting whose salt decodes is long enough. */
  lemma LastSaltDigit(setting: seq<Byte>)
    requires Decoded(setting, 7, 16).Some?
    ensures 28 < |setting| && Atoi(setting[28]).Some?
  {
    hide Decoded, Encoded, Cleared;
    EncodeCanonicalises(setting, 7, 16);
    assert Atoi(At(setting, 28)).Some?;
    assert Atoi(0) == None;
    hide Atoi, Canonical;
  }

  /** Hashing a password with an earlier hash of it as the setting returns that hash. */
  lemma HashIsItsOwnSetting(t: Tables, key: seq<Byte>, setting: seq<Byte>, size: int, min: nat)
    requires t.Valid() && Crypt(t, key, setting, size, min).Some?
    ensures
      var hash := Crypt(t, key, setting, size, min);
      Crypt(t, key, hash.value, size, min) == hash
  {
    hide Setup, Ciphertext, Bytes, Itoa, Atoi, Cleared, SaltOf, Encoded, Decoded, HasHeader, Cost, SubtypeFlags, At;
    LastSaltDigit(setting);
    var out := Crypt(t, key, setting, size, min).value;
    SaltSurvives(setting, out);
    SameHeader(setting, out);
    ClearedTwice(setting[28], 0x30);
    assert out[..28] == setting[..28];
  }

  lemma SameHeader(setting: seq<Byte>, out: seq<Byte>)
    requires forall i :: 0 <= i < 28 ==> At(out, i) == At(setting, i)
    ensures HasHeader(out) == HasHeader(setting) && At(out, 2) == At(setting, 2)
    ensures HasHeader(setting) ==> Cost(out) == Cost(setting)
  {
    hide At;
  }

  /** The 22 salt digits of a hash decode to the salt of its setting. */
  lemma SaltSurvives(setting: seq<Byte>, out: seq<Byte>)
    requires Decoded(setting, 7, 16).Some? && 29 <= |out| && 28 < |setting|
    requires Atoi(setting[28]).Some?
    requires out[..28] == setting[..28] && out[28] == Cleared(setting[28], 0x30)
    ensures Decoded(out, 7, 16) == Decoded(setting, 7, 16)
    ensures forall i :: 0 <= i < 28 ==> At(out, i) == At(setting, i)
  {
    hide Itoa, Atoi, Cleared, Decoded, Encoded;
    var salt := Decoded(setting, 7, 16).value;
    EncodeCanonicalises(setting, 7, 16);
    var e := Encoded(salt);
    assert Canonical(e, setting, 7, 16) && |e| == 22;
    assert e[21] == Cleared(At(setting, 28), 0x30);
    forall i | 0 <= i < 28
      ensures At(out, i) == At(setting, i)
    {
      assert out[..28][i] == setting[..28][i];
    }
    forall k | 0 <= k < 22
      ensures out[7 + k] == e[k]
    {
      if k < 21 {
        assert e[k] == At(setting, 7 + k) == At(out, 7 + k);
      }
    }
    assert out == out[..7] + e + out[29..];
    DecodeUndoesEncode(out[..7], salt, out[29..]);
  }

  lemma ClearedTwice(c: Byte, mask: Byte)
    requires Atoi(c).Some?
    ensures Atoi(Cleared(c, mask)).Some?
    ensures Cleared(Cleared(c, mask), mask) == Cleared(c, mask)
  {
    hide Itoa, Atoi;
    var x := Atoi(c).value;
    ClearedRange(x, mask);
    AtoiItoa(x & mask);
    MaskTwice(x, mask);
  }

  lemma MaskTwice(x: Byte, mask: Byte)
    ensures (x & mask) & mask == x & mask
  {
  }

  /** Unless the guard acts, the state that BF_crypt sets up is that of EksBlowfishSetup.  When it
      acts, the key of the first expansion has bit 16 of its first word flipped. */
  lemma SetupIsEksBlowfish(t: Tables, flags: Byte, key: seq<Byte>, salt: Blowfish.Salt, cost: nat)
    requires t.Valid()
    ensures
      var k := Expanded(key, flags & 1 != 0);
      var first := if Guarded(key, flags & 2 != 0) then k[0 := Xor(k[0], 0x1_0000)] else k;
      Setup(t, flags, key, salt, cost)
      == Blowfish.Costly(Blowfish.ExpandKey(t.p + t.s, salt, first), salt, k, Pow2(cost))
    ensures !Guarded(key, flags & 2 != 0) ==>
      Setup(t, flags, key, salt, cost)
      == Blowfish.EksBlowfishSetup(t.p + t.s, Pow2(cost), salt, Expanded(key, flags & 1 != 0))
  {
    hide Xor, Guarded, KeyWord, Blowfish.Pass, Blowfish.Costly;
    var k := Expanded(key, flags & 1 != 0);
    var first := if Guarded(key, flags & 2 != 0) then k[0 := Xor(k[0], 0x1_0000)] else k;
    var mixed := Initial(t.p, key, flags & 1 != 0, flags & 2 != 0);
    forall i | 0 <= i < SUBKEYS
      ensures mixed[i] == Xor(t.p[i], first[i])
    {
      XorAssociates(t.p[0], k[0], 0x1_0000);
    }
    assert mixed + t.s == Blowfish.MixKey(t.p + t.s, first);
  }

  /** BF_swap for one word. */
  function Swap(x: Word): Word {
    var t := (x << 16) | (x >> 16);
    ((t & 0x00FF_00FF) << 8) | ((t >> 8) & 0x00FF_00FF)
  }

  /** The bytes of a word in the memory of a little-endian machine, and the word of such bytes. */
  function Memory(w: Word): seq<Byte> {
    [(w & 0xFF) as Byte, ((w >> 8) & 0xFF) as Byte, ((w >> 16) & 0xFF) as Byte,
     ((w >> 24) & 0xFF) as Byte]
  }

  function FromMemory(a: Byte, b: Byte, c: Byte, d: Byte): Word {
    (a as Word) | ((b as Word) << 8) | ((c as Word) << 16) | ((d as Word) << 24)
  }

  /** On a little-endian machine, swapping makes words big-endian, either way. */
  lemma SwapIsBigEndian(w: Word, a: Byte, b: Byte, c: Byte, d: Byte)
    ensures Memory(Swap(w)) == BigEndianBytes(w)
    ensures Swap(FromMemory(a, b, c, d)) == BigEndian(a, b, c, d)
    ensures Swap(Swap(w)) == w
  {
  }

  /** The words that 16 bytes of memory hold, after BF_swap. */
  method SwappedSalt(b: seq<Byte>) returns (salt: Blowfish.Salt)
    requires |b| == 16
    ensures salt == SaltOf(b)
  {
    hide Swap, FromMemory, BigEndian;
    var w := [];
    var i := 0;
    while i < 4
      invariant i <= 4 && |w| == i
      invariant forall k :: 0 <= k < i ==>
        w[k] == BigEndian(b[4 * k], b[4 * k + 1], b[4 * k + 2], b[4 * k + 3])
    {
      SwapIsBigEndian(0, b[4 * i], b[4 * i + 1], b[4 * i + 2], b[4 * i + 3]);
      w := w + [Swap(FromMemory(b[4 * i], b[4 * i + 1], b[4 * i + 2], b[4 * i + 3]))];
      i := i + 1;
    }
    salt := w;
  }

  /** The bytes in memory of the words, after BF_swap. */
  method SwappedBytes(w: seq<Word>) returns (b: seq<Byte>)
    ensures b == Bytes(w)
  {
    hide Swap, Memory, BigEndianBytes;
    b := [];
    var i := 0;
    while i < |w|
      invariant i <= |w| && b + Bytes(w[i..]) == Bytes(w)
    {
      SwapIsBigEndian(w[i], 0, 0, 0, 0);
      assert w[i..][1..] == w[i + 1..];
      b := b + Memory(Swap(w[i]));
      i := i + 1;
    }
  }

  method EncipherMagic(ctx: Blowfish.Context, i: nat) returns (l: Word, r: Word)
    requires ctx.Valid() && i + 1 < 6
    ensures Block(l, r) == Blowfish.EncTimes(ctx.Words(), Block(MAGIC[i], MAGIC[i + 1]), 64)
  {
    hide Blowfish.Enc;
    l, r := MAGIC[i], MAGIC[i + 1];
    var count := 64;
    while count > 0
      invariant 0 <= count <= 64
      invariant Block(l, r)
             == Blowfish.EncTimes(ctx.Words(), Block(MAGIC[i], MAGIC[i + 1]), 64 - count)
    {
      l, r := ctx.Encrypt(l, r);
      count := count - 1;
    }
  }

  method EncipherAll(ctx: Blowfish.Context) returns (output: seq<Word>)
    requires ctx.Valid()
    ensures output == Ciphertext(ctx.Words())
  {
    hide Blowfish.EncTimes;
    var l, r := EncipherMagic(ctx, 0);
    output := [l, r];
    l, r := EncipherMagic(ctx, 2);
    output := output + [l, r];
    l, r := EncipherMagic(ctx, 4);
    output := output + [l, r];
  }

  /** The key schedule part of BF_crypt. */
  method SetUp(t: Tables, key: seq<Byte>, flags: Byte, salt: Blowfish.Salt, count: nat)
    returns (ctx: Blowfish.Context)
    requires t.Valid() && 0 < count
    requires forall k :: 0 <= k < |key| ==> key[k] != 0
    ensures fresh(ctx) && ctx.Valid()
    ensures
      var bug := flags & 1 != 0;
      ctx.Words() == Blowfish.Costly(
        Blowfish.Pass(Initial(t.p, key, bug, flags & 2 != 0) + t.s, salt),
        salt, Expanded(key, bug), count)
  {
    hide Blowfish.Pass, Blowfish.Costly, Initial, Expanded;
    ctx := new Blowfish.Context(t.p, t.s);
    assert ctx.Words()[SUBKEYS..] == ctx.S[..] == t.s;
    var expanded := new Word[SUBKEYS];
    SetKey(key, t.p, expanded, ctx.P, flags);
    ctx.SaltedPass(salt);
    ctx.CostlyLoop(salt, expanded[..], count);
  }

  /** BF_crypt.  The result lacks the NUL at its end. */
  method BFCrypt(t: Tables, key: seq<Byte>, setting: seq<Byte>, size: int, min: nat)
    returns (output: Option<seq<Byte>>)
    requires t.Valid()
    requires forall k :: 0 <= k < |key| ==> key[k] != 0
    ensures output == Crypt(t, key, setting, size, min)
  {
    hide Ciphertext, Bytes, Decoded, Encoded, Atoi, Itoa, SaltOf, Initial, Expanded, Blowfish.Pass, Blowfish.Costly;
    if size < 7 + 22 + 31 + 1 {
      return None;
    }
    if !HasHeader(setting) {
      return None;
    }
    var count := Pow2(Cost(setting));
    var binary := new Byte[16];
    var ok := Decode(binary, setting, 7);
    if count < min || !ok {
      return None;
    }
    LastSaltDigit(setting);
    var salt := SwappedSalt(binary[..]);
    var flags := SubtypeFlags(At(setting, 2));
    var ctx := SetUp(t, key, flags, salt, count);
    assert ctx.Words() == Setup(t, flags, key, salt, Cost(setting));
    var words := EncipherAll(ctx);
    var bytes := SwappedBytes(words);
    var digits := Encode(bytes[..23]);
    output := Some(setting[..28] + [Cleared(setting[28], 0x30)] + digits);
  }
}
