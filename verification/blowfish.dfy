/** The Blowfish state of crypt_blowfish.c and the passes that rewrite it. */
module Blowfish {
  import opened Feistel

  const WORDS := 1042

  /** The 18 subkeys followed by the four S-boxes of 256 words each. */
  type State = w: seq<Word> | |w| == WORDS witness seq(WORDS, _ => 0)

  type Salt = s: seq<Word> | |s| == 4 witness [0, 0, 0, 0]

  const NO_SALT: Salt := [0, 0, 0, 0]

  function Byte(x: Word): (n: nat)
    ensures n < 256
  {
    (x & 0xFF) as int
  }

  function Plus(a: Word, b: Word): Word {
    a + b
  }

  lemma PlusCommutes(a: Word, b: Word)
    ensures Plus(a, b) == Plus(b, a)
  {
  }

  /** Blowfish's round function: four S-box words, looked up by the bytes of x, high byte first. */
  function Mix(w: State, x: Word): Word {
    Plus(Xor(Plus(w[SUBKEYS + Byte(x >> 24)], w[SUBKEYS + 256 + Byte(x >> 16)]),
             w[SUBKEYS + 512 + Byte(x >> 8)]),
         w[SUBKEYS + 768 + Byte(x)])
  }

  function Mixer(w: State): Word -> Word {
    x => Mix(w, x)
  }

  function Enc(w: State, b: Block): Block {
    Encipher(Mixer(w), w[..SUBKEYS], b)
  }

  /** Encipher a block k times over. */
  function EncTimes(w: State, b: Block, k: nat): Block {
    if k == 0 then b else Enc(w, EncTimes(w, b, k - 1))
  }

  /** The C code mixes the subkey of the next round into the half it has just updated, and does
      not swap: before its round n, a is the half to be mixed next and b the other. */
  ghost predicate BeforeRound(w: State, plain: Block, n: nat, a: Word, b: Word)
    requires n < SUBKEYS
  {
    var c := Rounds(Mixer(w), w[..SUBKEYS], plain, n);
    a == Xor(c.l, w[n]) && b == c.r
  }

  lemma NoRounds(w: State, plain: Block)
    ensures Rounds(Mixer(w), w[..SUBKEYS], plain, 0) == plain
  {
  }

  lemma NextRound(w: State, plain: Block, n: nat, a: Word, b: Word)
    requires n + 1 < SUBKEYS && BeforeRound(w, plain, n, a, b)
    ensures BeforeRound(w, plain, n + 1, Xor(Xor(b, w[n + 1]), Mix(w, a)), a)
  {
    hide Xor, Mix;
    XorSwap(b, w[n + 1], Mix(w, a));
    assert Mixer(w)(a) == Mix(w, a);
  }

  datatype Chain = Chain(w: State, b: Block)

  /** The state after the first k steps of a pass over all words: step k enciphers the previous
      block mixed with salt words 2k and 2k + 1 (cyclically), under the state as it then is, and
      stores the result as words 2k and 2k + 1. */
  function Steps(w: State, salt: Salt, k: nat): Chain
    requires 2 * k <= WORDS
  {
    if k == 0 then Chain(w, Block(0, 0)) else Step(Steps(w, salt, k - 1), salt, k - 1)
  }

  function Step(c: Chain, salt: Salt, k: nat): Chain
    requires 2 * k + 1 < WORDS
  {
    EncryptInto(c.w, 2 * k, Block(Xor(c.b.l, salt[2 * k % 4]), Xor(c.b.r, salt[(2 * k + 1) % 4])))
  }

  /** Encipher a block and store it as words i and i + 1. */
  function EncryptInto(w: State, i: nat, b: Block): Chain
    requires i + 1 < WORDS
  {
    var e := Enc(w, b);
    Chain(w[i := e.l][i + 1 := e.r], e)
  }

  lemma UnsaltedStep(c: Chain, k: nat)
    requires 2 * k + 1 < WORDS
    ensures EncryptInto(c.w, 2 * k, c.b) == Step(c, NO_SALT, k)
  {
    XorZero(c.b.l);
    XorZero(c.b.r);
  }

  lemma SaltedStep(c: Chain, salt: Salt, k: nat)
    requires 2 * k + 1 < WORDS
    ensures
      EncryptInto(c.w, 2 * k, Block(Xor(c.b.l, salt[2 * k % 4]), Xor(c.b.r, salt[2 * k % 4 + 1])))
      == Step(c, salt, k)
  {
    hide Xor, EncryptInto;
    assert (2 * k + 1) % 4 == 2 * k % 4 + 1;
  }

  lemma StepWrites(c: Chain, salt: Salt, k: nat)
    requires 2 * k + 1 < WORDS
    ensures var s := Step(c, salt, k); s.w == c.w[2 * k := s.b.l][2 * k + 1 := s.b.r]
  {
    hide Enc, Xor;
  }

  lemma {:induction false} WordsWritten(w: State, salt: Salt, k: nat, j: nat)
    requires j < k && 2 * k <= WORDS
    ensures
      var b := Steps(w, salt, j + 1).b;
      Steps(w, salt, k).w[2 * j] == b.l && Steps(w, salt, k).w[2 * j + 1] == b.r
  {
    hide Step;
    StepWrites(Steps(w, salt, k - 1), salt, k - 1);
    if j == k - 1 {
    } else {
      WordsWritten(w, salt, k - 1, j);
    }
  }

  lemma {:induction false} WordUntouched(w: State, salt: Salt, k: nat, i: nat)
    requires 2 * k <= i < WORDS
    ensures Steps(w, salt, k).w[i] == w[i]
  {
    hide Step;
    if k == 0 {
    } else {
      StepWrites(Steps(w, salt, k - 1), salt, k - 1);
      WordUntouched(w, salt, k - 1, i);
    }
  }

  /** A pass writes each word once: the first k steps leave their k ciphertexts, in order, in the
      first 2k words and have not touched the others. */
  lemma StepsWriteOnce(w: State, salt: Salt, k: nat)
    requires 2 * k <= WORDS
    ensures
      forall j :: 0 <= j < k ==>
        var b := Steps(w, salt, j + 1).b;
        Steps(w, salt, k).w[2 * j] == b.l && Steps(w, salt, k).w[2 * j + 1] == b.r
    ensures forall i :: 2 * k <= i < WORDS ==> Steps(w, salt, k).w[i] == w[i]
  {
    hide Steps;
    forall j | 0 <= j < k
      ensures
        var b := Steps(w, salt, j + 1).b;
        Steps(w, salt, k).w[2 * j] == b.l && Steps(w, salt, k).w[2 * j + 1] == b.r
    {
      WordsWritten(w, salt, k, j);
    }
    forall i | 2 * k <= i < WORDS
      ensures Steps(w, salt, k).w[i] == w[i]
    {
      WordUntouched(w, salt, k, i);
    }
  }

  function Pass(w: State, salt: Salt): State {
    Steps(w, salt, WORDS / 2).w
  }

  function MixKey(w: State, key: seq<Word>): State
    requires 0 < |key|
  {
    seq(WORDS, i requires 0 <= i < WORDS => if i < SUBKEYS then Xor(w[i], key[i % |key|]) else w[i])
  }

  lemma MixedSubkeys(p: seq<Word>, q: seq<Word>, s: seq<Word>, salt: Salt)
    requires |p| == |q| == SUBKEYS && |s| == WORDS - SUBKEYS
    requires forall i :: 0 <= i < SUBKEYS ==> q[i] == Xor(p[i], SaltWord(salt, i))
    ensures q + s == MixKey(p + s, salt)
  {
    hide Xor;
  }

  function SaltWord(salt: Salt, k: nat): Word {
    salt[k % 4]
  }

  lemma FourSaltWords(salt: Salt, i: nat)
    requires i % 4 == 0
    ensures SaltWord(salt, i) == salt[0] && SaltWord(salt, i + 1) == salt[1]
    ensures SaltWord(salt, i + 2) == salt[2] && SaltWord(salt, i + 3) == salt[3]
  {
  }

  /** ExpandKey of Provos and Mazieres. */
  function ExpandKey(w: State, salt: Salt, key: seq<Word>): State
    requires 0 < |key|
  {
    Pass(MixKey(w, key), salt)
  }

  /** n rounds of the expensive loop.  That the key comes first and the salt second is the order of
      this implementation. */
  function Costly(w: State, salt: Salt, key: seq<Word>, n: nat): State
    requires 0 < |key|
  {
    if n == 0 then w
    else ExpandKey(ExpandKey(Costly(w, salt, key, n - 1), NO_SALT, key), NO_SALT, salt)
  }

  /** EksBlowfishSetup of Provos and Mazieres, with the loop in this implementation's order. */
  function EksBlowfishSetup(init: State, n: nat, salt: Salt, key: seq<Word>): State
    requires 0 < |key|
  {
    Costly(ExpandKey(init, salt, key), salt, key, n)
  }

  /** The context of the C code, with its two arrays. */
  class Context {
    const P: array<Word>
    const S: array<Word>

    ghost predicate Valid() {
      P.Length == SUBKEYS && S.Length == WORDS - SUBKEYS && P != S
    }

    ghost function Words(): State
      requires Valid()
      reads P, S
    {
      P[..] + S[..]
    }

    constructor (p: seq<Word>, s: seq<Word>)
      requires |p| == SUBKEYS && |s| == WORDS - SUBKEYS
      ensures Valid() && fresh(P) && fresh(S) && Words() == p + s
    {
      P := new Word[SUBKEYS](i requires 0 <= i < SUBKEYS => p[i]);
      S := new Word[WORDS - SUBKEYS](i requires 0 <= i < WORDS - SUBKEYS => s[i]);
      new;
      assert P[..] == p && S[..] == s;
    }

    /** The box with the given number, at the given byte. */
    method Look(box: nat, x: Word) returns (y: Word)
      requires Valid() && box < 4
      ensures y == Words()[SUBKEYS + 256 * box + Byte(x)]
    {
      y := S[256 * box + Byte(x)];
    }

    /** The macro BF_ROUND; plain is the block being enciphered. */
    method HalfRound(l: Word, r: Word, n: nat, ghost plain: Block) returns (r': Word)
      requires Valid() && n < 16
      requires BeforeRound(Words(), plain, n, l, r)
      ensures r' == Xor(Xor(r, P[n + 1]), Mix(Words(), l))
      ensures BeforeRound(Words(), plain, n + 1, r', l)
    {
      hide Xor, Plus, Byte, BeforeRound;
      var x1 := Look(3, l);
      var x2 := Look(2, l >> 8);
      var x3 := Look(1, l >> 16);
      var x4 := Look(0, l >> 24);
      PlusCommutes(x3, x4);
      x3 := Plus(x3, x4);
      x3 := Xor(x3, x2);
      r' := Xor(r, P[n + 1]);
      x3 := Plus(x3, x1);
      r' := Xor(r', x3);
      NextRound(Words(), plain, n, l, r);
    }

    /** The macro BF_ENCRYPT, unrolled. */
    method Encrypt(left: Word, right: Word) returns (l: Word, r: Word)
      requires Valid()
      ensures Block(l, r) == Enc(Words(), Block(left, right))
    {
      hide Xor, Mix, Rounds;
      ghost var b := Block(left, right);
      assert Rounds(Mixer(Words()), Words()[..SUBKEYS], b, 0) == b by { NoRounds(Words(), b); }
      l, r := Xor(left, P[0]), right;
      r := HalfRound(l, r, 0, b);
      l := HalfRound(r, l, 1, b);
      r := HalfRound(l, r, 2, b);
      l := HalfRound(r, l, 3, b);
      r := HalfRound(l, r, 4, b);
      l := HalfRound(r, l, 5, b);
      r := HalfRound(l, r, 6, b);
      l := HalfRound(r, l, 7, b);
      r := HalfRound(l, r, 8, b);
      l := HalfRound(r, l, 9, b);
      r := HalfRound(l, r, 10, b);
      l := HalfRound(r, l, 11, b);
      r := HalfRound(l, r, 12, b);
      l := HalfRound(r, l, 13, b);
      r := HalfRound(l, r, 14, b);
      l := HalfRound(r, l, 15, b);
      r, l := l, Xor(r, P[17]);
    }

    method StoreP(i: nat, l: Word, r: Word)
      requires Valid() && i + 1 < SUBKEYS
      modifies P
      ensures Words() == old(Words())[i := l][i + 1 := r]
    {
      P[i] := l;
      P[i + 1] := r;
    }

    method StoreS(i: nat, l: Word, r: Word)
      requires Valid() && i + 1 < WORDS - SUBKEYS
      modifies S
      ensures Words() == old(Words())[SUBKEYS + i := l][SUBKEYS + i + 1 := r]
    {
      S[i] := l;
      S[i + 1] := r;
    }

    /** Encipher a block and store it as words i and i + 1, both in P. */
    method AdvanceP(i: nat, l: Word, r: Word) returns (l': Word, r': Word)
      requires Valid() && i + 1 < SUBKEYS
      modifies P
      ensures Chain(Words(), Block(l', r')) == EncryptInto(old(Words()), i, Block(l, r))
    {
      hide Enc;
      l', r' := Encrypt(l, r);
      StoreP(i, l', r');
    }

    method AdvanceS(i: nat, l: Word, r: Word) returns (l': Word, r': Word)
      requires Valid() && i + 1 < WORDS - SUBKEYS
      modifies S
      ensures Chain(Words(), Block(l', r')) == EncryptInto(old(Words()), SUBKEYS + i, Block(l, r))
    {
      hide Enc;
      l', r' := Encrypt(l, r);
      StoreS(i, l', r');
    }

    /** The salted pass that ends the key setup: a loop over P, and one over S that takes four
        words at a time. */
    method SaltedPass(salt: Salt)
      requires Valid()
      modifies P, S
      ensures Words() == Pass(old(Words()), salt)
    {
      hide Xor, Step;
      ghost var w := Words();
      var l, r: Word := 0, 0;
      var i := 0;
      while i < 18
        invariant i % 2 == 0 && i <= 18
        invariant Chain(Words(), Block(l, r)) == Steps(w, salt, i / 2)
      {
        l, r := TwoSubkeys(i, l, r, salt);
        i := i + 2;
      }
      var ptr := 0;
      while ptr < 1023
        invariant ptr % 4 == 0 && ptr <= 1024
        invariant Chain(Words(), Block(l, r)) == Steps(w, salt, (18 + ptr) / 2)
      {
        ptr := ptr + 4;
        l, r := FourWords(ptr, l, r, salt);
      }
    }

    /** The body of the loop over P; the index expression is C's i & 2. */
    method TwoSubkeys(i: nat, l: Word, r: Word, salt: Salt) returns (l': Word, r': Word)
      requires Valid() && i + 1 < SUBKEYS && i % 2 == 0
      modifies P
      ensures
        Chain(Words(), Block(l', r')) == Step(Chain(old(Words()), Block(l, r)), salt, i / 2)
    {
      hide Xor, EncryptInto, Step;
      assert i / 2 % 2 * 2 == 2 * (i / 2) % 4;
      SaltedStep(Chain(Words(), Block(l, r)), salt, i / 2);
      l' := Xor(l, salt[i / 2 % 2 * 2]);
      r' := Xor(r, salt[i / 2 % 2 * 2 + 1]);
      l', r' := AdvanceP(i, l', r');
    }

    /** The body of the loop over S; ptr is already past the four words. */
    method FourWords(ptr: nat, l: Word, r: Word, salt: Salt) returns (l': Word, r': Word)
      requires Valid() && 4 <= ptr <= 1024 && ptr % 4 == 0
      modifies S
      ensures
        var k := (14 + ptr) / 2;
        Chain(Words(), Block(l', r'))
        == Step(Step(Chain(old(Words()), Block(l, r)), salt, k), salt, k + 1)
    {
      hide Xor, EncryptInto, Step;
      SaltedStep(Chain(Words(), Block(l, r)), salt, (14 + ptr) / 2);
      l' := Xor(l, salt[(16 + 2) % 4]);
      r' := Xor(r, salt[(16 + 3) % 4]);
      l', r' := AdvanceS(ptr - 4, l', r');
      SaltedStep(Chain(Words(), Block(l', r')), salt, (16 + ptr) / 2);
      l' := Xor(l', salt[(16 + 4) % 4]);
      r' := Xor(r', salt[(16 + 5) % 4]);
      l', r' := AdvanceS(ptr - 2, l', r');
    }

    /** The macro BF_body. */
    method Body()
      requires Valid()
      modifies P, S
      ensures Words() == Pass(old(Words()), NO_SALT)
    {
      hide Xor, EncryptInto, Step;
      ghost var w := Words();
      var l, r: Word := 0, 0;
      var ptr := 0;
      while ptr < 18
        invariant ptr % 2 == 0 && ptr <= 18
        invariant Chain(Words(), Block(l, r)) == Steps(w, NO_SALT, ptr / 2)
      {
        ptr := ptr + 2;
        UnsaltedStep(Chain(Words(), Block(l, r)), (ptr - 2) / 2);
        l, r := AdvanceP(ptr - 2, l, r);
      }
      ptr := 0;
      while ptr < 1023
        invariant ptr % 2 == 0 && ptr <= 1024
        invariant Chain(Words(), Block(l, r)) == Steps(w, NO_SALT, (18 + ptr) / 2)
      {
        ptr := ptr + 2;
        UnsaltedStep(Chain(Words(), Block(l, r)), (16 + ptr) / 2);
        l, r := AdvanceS(ptr - 2, l, r);
      }
    }

    method MixExpandedKey(key: seq<Word>)
      requires Valid() && |key| == SUBKEYS
      modifies P
      ensures Words() == MixKey(old(Words()), key)
    {
      hide Xor;
      var i := 0;
      while i < 18
        invariant i % 2 == 0 && i <= 18
        invariant forall k :: 0 <= k < i ==> P[k] == Xor(old(P[k]), key[k])
        invariant forall k :: i <= k < 18 ==> P[k] == old(P[k])
      {
        P[i] := Xor(P[i], key[i]);
        P[i + 1] := Xor(P[i + 1], key[i + 1]);
        i := i + 2;
      }
    }

    method MixFour(i: nat, t1: Word, t2: Word, t3: Word, t4: Word)
      requires Valid() && i + 3 < SUBKEYS
      modifies P
      ensures P[i] == Xor(old(P[i]), t1) && P[i + 1] == Xor(old(P[i + 1]), t2)
      ensures P[i + 2] == Xor(old(P[i + 2]), t3) && P[i + 3] == Xor(old(P[i + 3]), t4)
      ensures forall k :: 0 <= k < SUBKEYS && !(i <= k < i + 4) ==> P[k] == old(P[k])
    {
      hide Xor;
      P[i] := Xor(P[i], t1);
      P[i + 1] := Xor(P[i + 1], t2);
      P[i + 2] := Xor(P[i + 2], t3);
      P[i + 3] := Xor(P[i + 3], t4);
    }

    method MixSalt(salt: Salt)
      requires Valid()
      modifies P
      ensures Words() == MixKey(old(Words()), salt)
    {
      hide Xor, MixKey, SaltWord;
      var t1, t2, t3, t4 := salt[0], salt[1], salt[2], salt[3];
      var i := 0;
      while i < 16
        invariant i % 4 == 0 && i <= 16
        invariant forall k :: 0 <= k < i ==> P[k] == Xor(old(P[k]), SaltWord(salt, k))
        invariant forall k :: i <= k < 18 ==> P[k] == old(P[k])
      {
        MixFour(i, t1, t2, t3, t4);
        FourSaltWords(salt, i);
        i := i + 4;
      }
      MixLastTwo(t1, t2);
      FourSaltWords(salt, 16);
      MixedSubkeys(old(P[..]), P[..], S[..], salt);
    }

    method MixLastTwo(t1: Word, t2: Word)
      requires Valid()
      modifies P
      ensures P[16] == Xor(old(P[16]), t1) && P[17] == Xor(old(P[17]), t2)
      ensures forall k :: 0 <= k < 16 ==> P[k] == old(P[k])
    {
      hide Xor;
      P[16] := Xor(P[16], t1);
      P[17] := Xor(P[17], t2);
    }

    method CostlyRound(salt: Salt, key: seq<Word>)
      requires Valid() && |key| == SUBKEYS
      modifies P, S
      ensures Words() == ExpandKey(ExpandKey(old(Words()), NO_SALT, key), NO_SALT, salt)
    {
      hide Pass, MixKey;
      MixExpandedKey(key);
      Body();
      MixSalt(salt);
      Body();
    }

    /** The loop whose length the cost sets.  Its inner loop runs BF_body twice, and mixes the
        salt in between. */
    method CostlyLoop(salt: Salt, key: seq<Word>, count: nat)
      requires Valid() && |key| == SUBKEYS && 0 < count
      modifies P, S
      ensures Words() == Costly(old(Words()), salt, key, count)
    {
      hide ExpandKey;
      var left := count;
      while true
        invariant 0 < left <= count
        invariant Words() == Costly(old(Words()), salt, key, count - left)
        decreases left
      {
        CostlyRound(salt, key);
        left := left - 1;
        if left == 0 { break; }
      }
    }
  }
}
