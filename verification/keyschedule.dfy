/** The key schedule word by word: what a pass writes, what a round of the expensive loop does, and
    the words of some keys. */
module KeySchedule {
  import opened Feistel
  import opened Blowfish
  import opened KeyExpansion

  /** What step k of a pass enciphers: the block that it wrote last, with salt words 0 and 1, or 2 and 3. */
  function Mixed(z: State, salt: Salt, k: nat): Block
    requires 2 * k + 1 < 1042
  {
    var l, r := if k == 0 then 0 else z[2 * k - 2], if k == 0 then 0 else z[2 * k - 1];
    if k % 2 == 0 then Block(Xor(l, salt[0]), Xor(r, salt[1])) else Block(Xor(l, salt[2]), Xor(r, salt[3]))
  }

  /** Words 2k and 2k + 1 after a pass: that block enciphered under the words written so far and the old
      ones behind them. */
  lemma PassWrites(w: State, salt: Salt, k: nat)
    requires k < 521
    ensures var z := Pass(w, salt); Block(z[2 * k], z[2 * k + 1]) == Enc(z[..2 * k] + w[2 * k..], Mixed(z, salt, k))
  {
    hide Steps, Enc, Xor;
    var z := Pass(w, salt);
    WrittenSoFar(w, salt, k);
    StepsWriteOnce(w, salt, 521);
    LastBlock(w, salt, k);
    assert Steps(w, salt, k + 1) == Step(Steps(w, salt, k), salt, k) by { OneStep(w, salt, k); }
    assert 2 * k % 4 == (if k % 2 == 0 then 0 else 2) && (2 * k + 1) % 4 == (if k % 2 == 0 then 1 else 3);
  }

  lemma OneStep(w: State, salt: Salt, k: nat)
    requires k < 521
    ensures Steps(w, salt, k + 1) == Step(Steps(w, salt, k), salt, k)
  {
    hide Step;
  }

  lemma LastBlock(w: State, salt: Salt, k: nat)
    requires k < 521
    ensures var z := Pass(w, salt);
            Steps(w, salt, k).b == if k == 0 then Block(0, 0) else Block(z[2 * k - 2], z[2 * k - 1])
  {
    hide Step;
    if k > 0 {
      StepsWriteOnce(w, salt, 521);
      var b := Steps(w, salt, k - 1 + 1).b;
      hide Steps;
      assert Pass(w, salt)[2 * (k - 1)] == b.l && Pass(w, salt)[2 * (k - 1) + 1] == b.r;
    }
  }

  lemma WrittenSoFar(w: State, salt: Salt, k: nat)
    requires k < 521
    ensures Steps(w, salt, k).w == Pass(w, salt)[..2 * k] + w[2 * k..]
  {
    hide Steps;
    var s, z := Steps(w, salt, k).w, Pass(w, salt);
    StepsWriteOnce(w, salt, k);
    StepsWriteOnce(w, salt, 521);
    forall i | 0 <= i < 2 * k
      ensures s[i] == z[i]
    {
      var j := i / 2;
      var b := Steps(w, salt, j + 1).b;
      assert s[2 * j] == b.l && z[2 * j] == b.l && s[2 * j + 1] == b.r && z[2 * j + 1] == b.r;
    }
  }

  /** One round more of the expensive loop: the key's words into the subkeys, a pass without salt, the
      salt's words into the subkeys, and another pass. */
  lemma OneMoreRound(w: State, salt: Salt, key: seq<Word>, n: nat) returns (u: State, v: State)
    requires |key| == 18
    ensures forall i :: 0 <= i < 1042 ==> u[i] == if i < 18 then Xor(Costly(w, salt, key, n)[i], key[i])
                                                   else Costly(w, salt, key, n)[i]
    ensures forall i :: 0 <= i < 1042 ==> v[i] == if i < 18 then Xor(Pass(u, [0, 0, 0, 0])[i], salt[i % 4])
                                                   else Pass(u, [0, 0, 0, 0])[i]
    ensures Costly(w, salt, key, n + 1) == Pass(v, [0, 0, 0, 0])
    ensures Costly(w, salt, key, 0) == w
  {
    hide Pass, Xor, MixKey;
    var x := Costly(w, salt, key, n);
    u := MixKey(x, key);
    v := MixKey(Pass(u, NO_SALT), salt);
    KeyMixed(x, key);
    SaltMixed(Pass(u, NO_SALT), salt);
    assert ExpandKey(x, NO_SALT, key) == Pass(u, NO_SALT);
    hide Costly;
    assert Costly(w, salt, key, n + 1) == Pass(v, NO_SALT) && Costly(w, salt, key, 0) == w by {
      Unrolled(w, salt, key, n);
    }
  }

  lemma KeyMixed(x: State, key: seq<Word>)
    requires |key| == 18
    ensures forall i :: 0 <= i < 1042 ==> MixKey(x, key)[i] == if i < 18 then Xor(x[i], key[i]) else x[i]
  {
    hide Xor;
    assert forall i :: 0 <= i < 18 ==> i % 18 == i;
  }

  lemma SaltMixed(x: State, salt: Salt)
    ensures forall i :: 0 <= i < 1042 ==> MixKey(x, salt)[i] == if i < 18 then Xor(x[i], salt[i % 4]) else x[i]
  {
    hide Xor;
  }

  lemma Unrolled(w: State, salt: Salt, key: seq<Word>, n: nat)
    requires |key| == 18
    ensures Costly(w, salt, key, n + 1) == ExpandKey(ExpandKey(Costly(w, salt, key, n), NO_SALT, key), NO_SALT, salt)
    ensures Costly(w, salt, key, 0) == w
  {
    hide ExpandKey;
  }

  /** The words of the keys 61 62 and ff a3, with and without sign extension: the bytes and a zero byte,
      over and over. */
  lemma PlainKey(bug: bool)
    ensures Expanded([0x61, 0x62], bug)[..3] == [0x6162_0061, 0x6200_6162, 0x0061_6200]
  {
  }

  lemma ExtendedKey()
    ensures Expanded([0xFF, 0xA3], true)[..3] == [0xFFFF_FFFF, 0xFFFF_FFA3, 0xFFFF_A300]
  {
  }

  lemma NotExtendedKey()
    ensures Expanded([0xFF, 0xA3], false)[..3] == [0xFFA3_00FF, 0xA300_FFA3, 0x00FF_A300]
  {
  }

  /** The guard flips bit 16 of the first initial subkey, and no other bit. */
  lemma GuardedSubkeys(init: seq<Word>)
    requires |init| == 18 && init[0] == 0
    ensures Initial(init, [0xFF, 0xFF, 0xFF], false, true)[0] == 0xFFFE_FF00
    ensures Initial(init, [0xFF, 0xFF, 0xFF], false, false)[0] == 0xFFFF_FF00
    ensures Initial(init, [0xFF, 0xFF, 0xFF], false, true)[1..] == Initial(init, [0xFF, 0xFF, 0xFF], false, false)[1..]
  {
    FullKey([0xFF, 0xFF, 0xFF]);
    FirstWord();
    hide Agree, Extended, CorrectWord, BuggyWord;
  }

  lemma FirstWord()
    ensures CorrectWord([0xFF, 0xFF, 0xFF], 0) == 0xFFFF_FF00
    ensures Xor(0, 0xFFFF_FF00) == 0xFFFF_FF00 && Xor(0xFFFF_FF00, 0x1_0000) == 0xFFFE_FF00
  {
  }
}
