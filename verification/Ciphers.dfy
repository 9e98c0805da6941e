/** Steps taken along a list of keys, from either end. */
module Chains {

  function Forward<S, K>(s: S, keys: seq<K>, step: (S, K) -> S): S
    decreases |keys|
  {
    if keys == [] then s else Forward(step(s, keys[0]), keys[1..], step)
  }

  function Backward<S, K>(s: S, keys: seq<K>, step: (S, K) -> S): S
    decreases |keys|
  {
    if keys == [] then s else Backward(step(s, keys[|keys| - 1]), keys[..|keys| - 1], step)
  }

  lemma {:induction false} LastForward<S, K>(s: S, keys: seq<K>, step: (S, K) -> S)
    requires keys != []
    ensures Forward(s, keys, step) == step(Forward(s, keys[..|keys| - 1], step), keys[|keys| - 1])
    decreases |keys|
  {
    if |keys| > 1 {
      LastForward(step(s, keys[0]), keys[1..], step);
      assert keys[1..][..|keys| - 2] == keys[..|keys| - 1][1..];
    }
  }

  lemma {:induction false} LastBackward<S, K>(s: S, keys: seq<K>, step: (S, K) -> S)
    requires keys != []
    ensures Backward(s, keys, step) == step(Backward(s, keys[1..], step), keys[0])
    decreases |keys|
  {
    if |keys| > 1 {
      var n := |keys| - 1;
      LastBackward(step(s, keys[n]), keys[..n], step);
      assert keys[..n][1..] == keys[1..][..n - 1];
    }
  }

  /** Every state on the way. */
  function States<S, K>(s: S, keys: seq<K>, step: (S, K) -> S): (r: seq<S>)
    ensures |r| == |keys| + 1 && r[0] == s
    decreases |keys|
  {
    if keys == [] then [s] else [s] + States(step(s, keys[0]), keys[1..], step)
  }

  lemma {:induction false} StatesFollow<S, K>(s: S, keys: seq<K>, step: (S, K) -> S)
    ensures States(s, keys, step)[|keys|] == Forward(s, keys, step)
    ensures forall i :: 0 <= i < |keys| ==> States(s, keys, step)[i + 1] == step(States(s, keys, step)[i], keys[i])
    decreases |keys|
  {
    if keys != [] {
      var next := step(s, keys[0]);
      StatesFollow(next, keys[1..], step);
      forall i | 0 <= i < |keys|
        ensures States(s, keys, step)[i + 1] == step(States(s, keys, step)[i], keys[i])
      {
        if i > 0 {
          assert States(next, keys[1..], step)[i] == step(States(next, keys[1..], step)[i - 1], keys[1..][i - 1]);
        }
      }
    }
  }

  function Reversed<K>(keys: seq<K>): (r: seq<K>)
    ensures |r| == |keys|
    ensures forall i :: 0 <= i < |r| ==> r[i] == keys[|keys| - 1 - i]
  {
    seq(|keys|, i requires 0 <= i < |keys| => keys[|keys| - 1 - i])
  }

  /** The chain from the end is one from the start, with the keys the other way round. */
  lemma {:induction false} BackwardIsForward<S, K>(s: S, keys: seq<K>, step: (S, K) -> S)
    ensures Backward(s, keys, step) == Forward(s, Reversed(keys), step)
    decreases |keys|
  {
    if keys != [] {
      var n := |keys| - 1;
      assert Reversed(keys)[1..] == Reversed(keys[..n]);
      BackwardIsForward(step(s, keys[n]), keys[..n], step);
    }
  }

  /** Where back leads from the view of a step's result to the view of its start, so do the chains. */
  lemma {:induction false} ForwardUndone<S(!new), K(!new)>(
    s: S, keys: seq<K>, step: (S, K) -> S, back: (S, K) -> S, view: S -> S)
    requires forall t, k :: back(view(step(t, k)), k) == view(t)
    ensures Backward(view(Forward(s, keys, step)), keys, back) == view(s)
    decreases |keys|
  {
    if keys != [] {
      var n := |keys| - 1;
      LastForward(s, keys, step);
      ForwardUndone(s, keys[..n], step, back, view);
    }
  }

  lemma {:induction false} BackwardUndone<S(!new), K(!new)>(
    s: S, keys: seq<K>, step: (S, K) -> S, back: (S, K) -> S, view: S -> S)
    requires forall t, k :: step(view(back(t, k)), k) == view(t)
    ensures Forward(view(Backward(s, keys, back)), keys, step) == view(s)
    decreases |keys|
  {
    if keys != [] {
      LastBackward(s, keys, back);
      BackwardUndone(s, keys[1..], step, back, view);
    }
  }
}

/**
  A cipher of rounds that substitute, mix and add a key, over blocks of any kind, and why its
  equivalent inverse decrypts (section 5.3.5 of FIPS 197).
 */
module Ciphers {

  import opened Chains

  datatype Cipher<!S> = Cipher(sub: S -> S, unsub: S -> S, mix: S -> S, unmix: S -> S, add: (S, S) -> S)

  ghost predicate Undoes<S(!new)>(g: S -> S, f: S -> S, s: S) {
    g(f(s)) == s
  }

  ghost predicate AddsTwice<S(!new)>(add: (S, S) -> S, s: S, t: S) {
    add(add(s, t), t) == s
  }

  ghost predicate Distributes<S(!new)>(f: S -> S, add: (S, S) -> S, s: S, t: S) {
    f(add(s, t)) == add(f(s), f(t))
  }

  /** Substitution and mixing can be undone from either side, a key added twice is gone, and unmixing is additive. */
  ghost predicate IsCipher<S(!new)>(c: Cipher<S>) {
    && (forall s :: Undoes(c.unsub, c.sub, s)) && (forall s :: Undoes(c.sub, c.unsub, s))
    && (forall s :: Undoes(c.unmix, c.mix, s)) && (forall s :: Undoes(c.mix, c.unmix, s))
    && (forall s, t :: AddsTwice(c.add, s, t))
    && (forall s, t :: Distributes(c.unmix, c.add, s, t))
  }

  function Round<S>(c: Cipher<S>, s: S, key: S, inverse: bool, last: bool): S {
    var t := if inverse then c.unsub(s) else c.sub(s);
    c.add(if last then t else if inverse then c.unmix(t) else c.mix(t), key)
  }

  function EncryptRound<S>(c: Cipher<S>): (S, S) -> S {
    (s: S, key: S) => Round(c, s, key, false, false)
  }

  /** An inverse round takes the key mixed. */
  function DecryptRound<S>(c: Cipher<S>): (S, S) -> S {
    (s: S, key: S) => Round(c, s, c.unmix(key), true, false)
  }

  /** The rounds between the first key and the last take the keys in order. */
  function EncryptRounds<S>(c: Cipher<S>, s: S, keys: seq<S>): S {
    Forward(s, keys, EncryptRound(c))
  }

  /** The inverse rounds take them from the last to the first. */
  function DecryptRounds<S>(c: Cipher<S>, s: S, keys: seq<S>): S {
    Backward(s, keys, DecryptRound(c))
  }

  function Encrypt<S>(c: Cipher<S>, plain: S, first: S, keys: seq<S>, last: S): S {
    Round(c, EncryptRounds(c, c.add(plain, first), keys), last, false, true)
  }

  function Decrypt<S>(c: Cipher<S>, cipher: S, first: S, keys: seq<S>, last: S): S {
    Round(c, DecryptRounds(c, c.add(cipher, last), keys), first, true, true)
  }

  /** An inverse round takes the substitutes of a round's result back to those of its input. */
  lemma RoundUndone<S(!new)>(c: Cipher<S>, s: S, key: S)
    requires IsCipher(c)
    ensures DecryptRound(c)(c.sub(EncryptRound(c)(s, key)), key) == c.sub(s)
  {
    var t := c.sub(s);
    assert Undoes(c.unsub, c.sub, c.add(c.mix(t), key));
    assert Distributes(c.unmix, c.add, c.mix(t), key);
    assert Undoes(c.unmix, c.mix, t);
    assert AddsTwice(c.add, t, c.unmix(key));
  }

  lemma InverseRoundUndone<S(!new)>(c: Cipher<S>, s: S, key: S)
    requires IsCipher(c)
    ensures EncryptRound(c)(c.unsub(DecryptRound(c)(s, key)), key) == c.unsub(s)
  {
    var t := c.unsub(s);
    assert Distributes(c.unmix, c.add, t, key);
    assert Undoes(c.sub, c.unsub, c.unmix(c.add(t, key)));
    assert Undoes(c.mix, c.unmix, c.add(t, key));
    assert AddsTwice(c.add, t, key);
  }

  lemma EncryptRoundsUndone<S(!new)>(c: Cipher<S>, s: S, keys: seq<S>)
    requires IsCipher(c)
    ensures DecryptRounds(c, c.sub(EncryptRounds(c, s, keys)), keys) == c.sub(s)
  {
    forall t, k
      ensures DecryptRound(c)(c.sub(EncryptRound(c)(t, k)), k) == c.sub(t)
    {
      RoundUndone(c, t, k);
    }
    ForwardUndone(s, keys, EncryptRound(c), DecryptRound(c), c.sub);
  }

  lemma DecryptRoundsUndone<S(!new)>(c: Cipher<S>, s: S, keys: seq<S>)
    requires IsCipher(c)
    ensures EncryptRounds(c, c.unsub(DecryptRounds(c, s, keys)), keys) == c.unsub(s)
  {
    forall t, k
      ensures EncryptRound(c)(c.unsub(DecryptRound(c)(t, k)), k) == c.unsub(t)
    {
      InverseRoundUndone(c, t, k);
    }
    BackwardUndone(s, keys, EncryptRound(c), DecryptRound(c), c.unsub);
  }

  /** For any number of rounds and any keys, the inverse chain decrypts what the chain encrypted. */
  lemma DecryptEncrypt<S(!new)>(c: Cipher<S>, plain: S, first: S, keys: seq<S>, last: S)
    requires IsCipher(c)
    ensures Decrypt(c, Encrypt(c, plain, first, keys, last), first, keys, last) == plain
  {
    var s := c.add(plain, first);
    assert AddsTwice(c.add, c.sub(EncryptRounds(c, s, keys)), last);
    EncryptRoundsUndone(c, s, keys);
    assert Undoes(c.unsub, c.sub, s);
    assert AddsTwice(c.add, plain, first);
  }

  lemma EncryptDecrypt<S(!new)>(c: Cipher<S>, cipher: S, first: S, keys: seq<S>, last: S)
    requires IsCipher(c)
    ensures Encrypt(c, Decrypt(c, cipher, first, keys, last), first, keys, last) == cipher
  {
    var s := c.add(cipher, last);
    assert AddsTwice(c.add, c.unsub(DecryptRounds(c, s, keys)), first);
    DecryptRoundsUndone(c, s, keys);
    assert Undoes(c.sub, c.unsub, s);
    assert AddsTwice(c.add, cipher, last);
  }

  /** The two chains undo each other on these. */
  ghost predicate AreInverse<S(!new)>(c: Cipher<S>, block: S, first: S, keys: seq<S>, last: S) {
    && Decrypt(c, Encrypt(c, block, first, keys, last), first, keys, last) == block
    && Encrypt(c, Decrypt(c, block, first, keys, last), first, keys, last) == block
  }
}
