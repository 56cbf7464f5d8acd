/** The encrypting key store, over abstract ciphers and key pairs. */
module KeyStore {
  import Ordered
  import opened Wrappers

  type Bytes = seq<nat>

  datatype Key = Key(secret: Bytes, compressed: bool)

  type PubKey = nat

  datatype Sealed = Sealed(pub: PubKey, secret: Bytes)

  /** The ciphers, on 32-byte master keys, and the key pairs: a key's public key, its id, hash and compression flag. */
  datatype Crypto = Crypto(enc: (Bytes, Bytes, nat) -> Option<Bytes>, dec: (Bytes, Bytes, nat) -> Option<Bytes>,
                           pubOf: Key -> PubKey, idOf: PubKey -> int, hashOf: PubKey -> nat,
                           isCompressed: PubKey -> bool)

  function EncryptSecret(c: Crypto, master: Bytes, secret: Bytes, iv: nat): Option<Bytes> {
    if |master| != 32 then None else c.enc(master, secret, iv)
  }

  function DecryptSecret(c: Crypto, master: Bytes, sealed: Bytes, iv: nat): Option<Bytes> {
    if |master| != 32 then None else c.dec(master, sealed, iv)
  }

  /** Decryption inverts encryption, and a public key knows its compression. */
  ghost predicate Laws(c: Crypto) {
    && (forall m, s, iv | c.enc(m, s, iv).Some? :: c.dec(m, c.enc(m, s, iv).value, iv) == Some(s))
    && (forall k :: c.isCompressed(c.pubOf(k)) == k.compressed)
  }

  /** The store's fields. */
  datatype Store = Store(useCrypto: bool, keys: map<int, Key>, sealed: map<int, Sealed>, master: Bytes)

  /** Keys have 32 bytes and stand under the id of their own public key. */
  predicate Filed(c: Crypto, keys: map<int, Key>) {
    forall id | id in keys :: |keys[id].secret| == 32 && c.idOf(c.pubOf(keys[id])) == id
  }

  /** What holds even after an encryption that failed on the way. */
  predicate Usable(c: Crypto, s: Store) {
    && (!s.useCrypto ==> s.master == [] && s.sealed == map[])
    && Filed(c, s.keys)
    && forall id | id in s.sealed :: c.idOf(s.sealed[id].pub) == id
  }

  /** The invariant that the header states, and that keys are filed properly. */
  predicate Sound(c: Crypto, s: Store) {
    (s.useCrypto ==> s.keys == map[]) && Usable(c, s)
  }

  predicate Locked(s: Store) { s.useCrypto && s.master == [] }

  predicate Have(s: Store, id: int) {
    if s.useCrypto then id in s.sealed else id in s.keys
  }

  function Open(c: Crypto, master: Bytes, e: Sealed): Option<Key> {
    match DecryptSecret(c, master, e.secret, c.hashOf(e.pub))
    case None => None
    case Some(secret) => if |secret| != 32 then None else Some(Key(secret, c.isCompressed(e.pub)))
  }

  function Get(c: Crypto, s: Store, id: int): Option<Key> {
    if !s.useCrypto then (if id in s.keys then Some(s.keys[id]) else None)
    else if id in s.sealed then Open(c, s.master, s.sealed[id])
    else None
  }

  function GetPub(c: Crypto, s: Store, id: int): Option<PubKey> {
    if !s.useCrypto then (if id in s.keys then Some(c.pubOf(s.keys[id])) else None)
    else if id in s.sealed then Some(s.sealed[id].pub) else None
  }

  /** A locked store gives out no key. */
  lemma LockedGivesNothing(c: Crypto, s: Store, id: int)
    requires Locked(s)
    ensures Get(c, s, id) == None
  {
  }

  // ----- encryption of the whole store -----

  function SecretFor(c: Crypto, k: Key, master: Bytes): Option<Bytes> {
    EncryptSecret(c, master, k.secret, c.hashOf(c.pubOf(k)))
  }

  predicate Encryptable(c: Crypto, keys: map<int, Key>, master: Bytes) {
    forall id | id in keys :: SecretFor(c, keys[id], master).Some?
  }

  function SealedKey(c: Crypto, k: Key, master: Bytes): Sealed
    requires SecretFor(c, k, master).Some?
  {
    Sealed(c.pubOf(k), SecretFor(c, k, master).value)
  }

  /** The store after every key has been encrypted. */
  function Encrypted(c: Crypto, s: Store, master: Bytes): Store
    requires Encryptable(c, s.keys, master)
  {
    Store(true, map[], map id | id in s.keys :: SealedKey(c, s.keys[id], master), s.master)
  }

  lemma OpensAgain(c: Crypto, k: Key, master: Bytes)
    requires Laws(c) && |k.secret| == 32 && SecretFor(c, k, master).Some?
    ensures Open(c, master, SealedKey(c, k, master)) == Some(k)
  {
    assert c.enc(master, k.secret, c.hashOf(c.pubOf(k))).Some?;
  }

  /** An encrypted store gives the same answers when it is opened with the same master key, and before that it
      knows the same ids and public keys but gives out no key. */
  lemma EncryptedAnswersTheSame(c: Crypto, s: Store, master: Bytes, id: int)
    requires Laws(c) && Sound(c, s) && !s.useCrypto && Encryptable(c, s.keys, master)
    ensures var e := Encrypted(c, s, master);
      Sound(c, e) && Locked(e) && Get(c, e, id) == None
      && Have(e, id) == Have(s, id) && GetPub(c, e, id) == GetPub(c, s, id)
      && Get(c, e.(master := master), id) == Get(c, s, id)
  {
    if id in s.keys {
      OpensAgain(c, s.keys[id], master);
    }
  }

  /** Unlock looks at the first key only. */
  predicate Unlocks(c: Crypto, s: Store, master: Bytes) {
    (s.useCrypto || s.keys == map[])
    && (s.sealed != map[] ==>
      s.sealed.Keys != {} && var e := s.sealed[Ordered.Least(s.sealed.Keys)];
      Open(c, master, e).Some? && c.pubOf(Open(c, master, e).value) == e.pub)
  }

  lemma EncryptedUnlocks(c: Crypto, s: Store, master: Bytes)
    requires Laws(c) && Sound(c, s) && !s.useCrypto && Encryptable(c, s.keys, master)
    ensures Unlocks(c, Encrypted(c, s, master), master)
  {
    var e := Encrypted(c, s, master);
    if e.sealed != map[] {
      assert e.sealed.Keys != {} by { NonEmpty(e.sealed); }
      OpensAgain(c, s.keys[Ordered.Least(e.sealed.Keys)], master);
    }
  }

  lemma NonEmpty<T>(m: map<int, T>)
    requires m != map[]
    ensures m.Keys != {}
  {
  }

  // ----- whole runs -----

  /** A master key that was not used for sealing never opens a key that fits the public key. */
  ghost predicate WrongKeyFails(c: Crypto) {
    forall k, m, w | Fits(c, k, m, w) :: w == m
  }

  /** Key `k` sealed under `m` and opened under `w` has the public key of `k`. */
  predicate Fits(c: Crypto, k: Key, m: Bytes, w: Bytes) {
    SecretFor(c, k, m).Some?
    && var o := Open(c, w, SealedKey(c, k, m));
       o.Some? && c.pubOf(o.value) == c.pubOf(k)
  }

  /** AddKeyPubKey of a key with its own public key. */
  function Added(c: Crypto, s: Store, key: Key): (bool, Store) {
    var id := c.idOf(c.pubOf(key));
    if !s.useCrypto then (true, s.(keys := s.keys[id := key]))
    else if s.master == [] || SecretFor(c, key, s.master) == None then (false, s)
    else (true, s.(sealed := s.sealed[id := SealedKey(c, key, s.master)]))
  }

  /** EncryptKeys failed on the way: some keys are sealed, all are still in place, and the flag is set. */
  predicate HalfEncrypted(c: Crypto, s: Store, t: Store, master: Bytes) {
    && t == s.(useCrypto := true, sealed := t.sealed) && s.keys != map[]
    && forall id | id in t.sealed ::
         id in s.keys && SecretFor(c, s.keys[id], master).Some? && t.sealed[id] == SealedKey(c, s.keys[id], master)
  }

  /** Afterwards exactly the sealed ids are found, though every key is still in place. */
  lemma HalfEncryptedLoses(c: Crypto, s: Store, t: Store, master: Bytes, id: int)
    requires Sound(c, s) && !s.useCrypto && HalfEncrypted(c, s, t, master)
    ensures !Sound(c, t) && t.keys == s.keys && (Have(t, id) <==> id in t.sealed) && Get(c, t, id) == None
  {
    hide SecretFor;
  }

  /** A cipher that refuses everything. */
  function Refusing(): Crypto {
    Crypto((_, _, _) => None, (_, _, _) => None, (k: Key) => if k.compressed then 1 else 0,
           p => p, p => p, p => p == 1)
  }

  /** A store with one key and that cipher: whatever EncryptKeys leaves, the key was found before and is not found
      after. */
  lemma RefusedEncryption(t: Store, master: Bytes)
    requires var s := Store(false, map[1 := Key(seq(32, _ => 7), true)], map[], []);
      HalfEncrypted(Refusing(), s, t, master)
    ensures var c, k := Refusing(), Key(seq(32, _ => 7), true);
      var s := Store(false, map[1 := k], map[], []);
      && Laws(c) && Sound(c, s) && !Encryptable(c, s.keys, master) && Get(c, s, 1) == Some(k)
      && !Sound(c, t) && t.keys == s.keys && !Have(t, 1) && Get(c, t, 1) == None
  {
    var c, k := Refusing(), Key(seq(32, _ => 7), true);
    var s := Store(false, map[1 := k], map[], []);
    assert 1 in s.keys && SecretFor(c, s.keys[1], master) == None;
    assert 1 !in t.sealed;
    HalfEncryptedLoses(c, s, t, master, 1);
  }

  /** The store holds the logged keys, sealed ones all under `m`; none is missing while the header's invariant holds. */
  ghost predicate Logged(c: Crypto, s: Store, log: map<int, Key>, m: Bytes) {
    && Usable(c, s) && Filed(c, log)
    && if !s.useCrypto then s.keys == log
       else
         && s.sealed.Keys <= log.Keys && (s.keys == map[] ==> s.sealed.Keys == log.Keys)
         && (forall id | id in s.sealed ::
               SecretFor(c, log[id], m).Some? && s.sealed[id] == SealedKey(c, log[id], m))
         && (s.sealed != map[] ==> s.master == [] || s.master == m)
  }

  lemma AddLogged(c: Crypto, s: Store, log: map<int, Key>, m: Bytes, key: Key)
    requires Logged(c, s, log, m) && |key.secret| == 32
    ensures var (ok, t) := Added(c, s, key);
      Logged(c, t, if ok then log[c.idOf(c.pubOf(key)) := key] else log,
             if s.useCrypto && s.sealed == map[] then s.master else m)
  {
    hide SecretFor;
  }

  lemma LockLogged(c: Crypto, s: Store, log: map<int, Key>, m: Bytes)
    requires Logged(c, s, log, m) && (s.useCrypto || s.keys == map[])
    ensures Logged(c, s.(useCrypto := true, master := []), log, m)
  {
    hide SecretFor;
  }

  /** One fitting key shows that the master key is the one that sealed them all. */
  lemma UnlockLogged(c: Crypto, s: Store, log: map<int, Key>, m: Bytes, w: Bytes)
    requires WrongKeyFails(c) && Logged(c, s, log, m) && Unlocks(c, s, w)
    ensures Logged(c, s.(useCrypto := true, master := w), log, m)
  {
    hide SecretFor, Open;
    if s.sealed != map[] {
      NonEmpty(s.sealed);
      var id := Ordered.Least(s.sealed.Keys);
      assert id in s.sealed;
      assert Fits(c, log[id], m, w);
    }
  }

  lemma EncryptLogged(c: Crypto, s: Store, log: map<int, Key>, m: Bytes, master: Bytes)
    requires Logged(c, s, log, m) && !s.useCrypto && Encryptable(c, s.keys, master)
    ensures Logged(c, Encrypted(c, s, master), log, master)
  {
    hide SecretFor;
  }

  lemma HalfLogged(c: Crypto, s: Store, t: Store, log: map<int, Key>, m: Bytes, master: Bytes)
    requires Logged(c, s, log, m) && !s.useCrypto && HalfEncrypted(c, s, t, master)
    ensures Logged(c, t, log, master)
  {
    hide SecretFor;
    assert t.keys == log && t.master == [] && t.useCrypto;
    forall id | id in t.sealed
      ensures id in log && SecretFor(c, log[id], master).Some?
      ensures t.sealed[id] == SealedKey(c, log[id], master) && c.idOf(t.sealed[id].pub) == id
    {
    }
  }

  /** An unlocked store gives out the logged key for every id it has. */
  lemma LoggedAnswers(c: Crypto, s: Store, log: map<int, Key>, m: Bytes, id: int)
    requires Laws(c) && Logged(c, s, log, m) && !Locked(s)
    ensures Have(s, id) ==> id in log && Get(c, s, id) == Some(log[id])
    ensures !Have(s, id) ==> Get(c, s, id) == None
    ensures Sound(c, s) ==> (Have(s, id) <==> id in log)
  {
    hide SecretFor, Open;
    if s.useCrypto && id in s.sealed {
      OpensAgain(c, log[id], m);
    }
  }

  datatype Op = Add(key: Key) | Lock | Unlock(master: Bytes) | Encrypt(master: Bytes)

  /** The last key added under each id, as far as adding succeeded. */
  function LastAdded(c: Crypto, ops: seq<Op>, results: seq<bool>): map<int, Key>
    requires |results| == |ops|
  {
    if ops == [] then map[] else
    var i := |ops| - 1;
    var log := LastAdded(c, ops[..i], results[..i]);
    if ops[i].Add? && results[i] then log[c.idOf(c.pubOf(ops[i].key)) := ops[i].key] else log
  }

  class CCryptoKeyStore {
    const c: Crypto
    var fUseCrypto: bool
    var mapKeys: map<int, Key>
    var mapCryptedKeys: map<int, Sealed>
    var vMasterKey: Bytes

    ghost function Contents(): Store
      reads this
    {
      Store(fUseCrypto, mapKeys, mapCryptedKeys, vMasterKey)
    }

    ghost predicate Valid()
      reads this
    {
      Sound(c, Contents())
    }

    ghost predicate Intact()
      reads this
    {
      Usable(c, Contents())
    }

    constructor (c: Crypto)
      ensures Valid() && Contents() == Store(false, map[], map[], []) && this.c == c
    {
      this.c := c;
      fUseCrypto, mapKeys, mapCryptedKeys, vMasterKey := false, map[], map[], [];
    }

    method SetCrypted() returns (ok: bool)
      requires Intact()
      modifies this`fUseCrypto
      ensures Intact() && (old(Valid()) ==> Valid()) && ok == (old(fUseCrypto) || mapKeys == map[])
          && fUseCrypto == (old(fUseCrypto) || ok)
    {
      if fUseCrypto {
        return true;
      }
      if mapKeys != map[] {
        return false;
      }
      fUseCrypto := true;
      return true;
    }

    method LockKeyStore() returns (ok: bool)
      requires Intact()
      modifies this
      ensures (old(Valid()) ==> Valid()) && ok == (old(fUseCrypto) || old(mapKeys) == map[])
      ensures ok ==> Locked(Contents()) && Contents() == old(Contents()).(useCrypto := true, master := [])
      ensures !ok ==> Contents() == old(Contents())
    {
      ok := SetCrypted();
      if !ok {
        return;
      }
      vMasterKey := [];
    }

    method Unlock(master: Bytes) returns (ok: bool)
      requires Intact()
      modifies this
      ensures (old(Valid()) ==> Valid()) && ok == Unlocks(c, old(Contents()), master)
      ensures ok ==> Contents() == old(Contents()).(useCrypto := true, master := master)
      ensures !ok ==> Contents() == old(Contents())
    {
      ok := SetCrypted();
      if !ok {
        return;
      }
      // The loop over the encrypted keys is left in its first turn, one way or the other.
      if mapCryptedKeys != map[] {
        NonEmpty(mapCryptedKeys);
        var e := mapCryptedKeys[Ordered.Least(mapCryptedKeys.Keys)];
        var secret := DecryptSecret(c, master, e.secret, c.hashOf(e.pub));
        if secret == None {
          return false;
        }
        if |secret.value| != 32 {
          return false;
        }
        if c.pubOf(Key(secret.value, c.isCompressed(e.pub))) != e.pub {
          return false;
        }
      }
      vMasterKey := master;
    }

    method AddCryptedKey(pub: PubKey, secret: Bytes) returns (ok: bool)
      requires Intact()
      modifies this`fUseCrypto, this`mapCryptedKeys
      ensures Intact() && (old(Valid()) ==> Valid()) && ok == (old(fUseCrypto) || mapKeys == map[])
      ensures Contents() == if ok
        then old(Contents()).(useCrypto := true, sealed := old(mapCryptedKeys)[c.idOf(pub) := Sealed(pub, secret)])
        else old(Contents())
    {
      ok := SetCrypted();
      if ok {
        mapCryptedKeys := mapCryptedKeys[c.idOf(pub) := Sealed(pub, secret)];
      }
    }

    /** The caller passes a key with its own public key. */
    method AddKeyPubKey(key: Key, pub: PubKey) returns (ok: bool)
      requires Intact() && Laws(c) && pub == c.pubOf(key) && |key.secret| == 32
      modifies this
      ensures (ok, Contents()) == Added(c, old(Contents()), key)
      ensures Intact() && (old(Valid()) ==> Valid()) && fUseCrypto == old(fUseCrypto) && vMasterKey == old(vMasterKey)
      ensures ok ==> Get(c, Contents(), c.idOf(pub)) == Some(key)
      ensures forall id | id != c.idOf(pub) :: Get(c, Contents(), id) == Get(c, old(Contents()), id)
      ensures !ok ==> Contents() == old(Contents())
      ensures Locked(old(Contents())) ==> !ok
    {
      if !fUseCrypto {
        mapKeys := mapKeys[c.idOf(pub) := key];
        return true;
      }
      if vMasterKey == [] {
        return false;
      }
      var secret := EncryptSecret(c, vMasterKey, key.secret, c.hashOf(pub));
      if secret == None {
        return false;
      }
      OpensAgain(c, key, vMasterKey);
      ok := AddCryptedKey(pub, secret.value);
    }

    method HaveKey(id: int) returns (b: bool)
      ensures b == Have(Contents(), id)
    {
      if !fUseCrypto {
        return id in mapKeys;
      }
      return id in mapCryptedKeys;
    }

    method GetKey(id: int) returns (k: Option<Key>)
      ensures k == Get(c, Contents(), id)
    {
      if !fUseCrypto {
        return if id in mapKeys then Some(mapKeys[id]) else None;
      }
      if id in mapCryptedKeys {
        var e := mapCryptedKeys[id];
        var secret := DecryptSecret(c, vMasterKey, e.secret, c.hashOf(e.pub));
        if secret == None {
          return None;
        }
        if |secret.value| != 32 {
          return None;
        }
        return Some(Key(secret.value, c.isCompressed(e.pub)));
      }
      return None;
    }

    method GetKeys() returns (ids: set<int>)
      ensures forall id :: id in ids <==> Have(Contents(), id)
    {
      ids := {};
      var all := if fUseCrypto then mapCryptedKeys.Keys else mapKeys.Keys;
      var todo := all;
      while todo != {}
        invariant todo <= all && ids == all - todo
        decreases |todo|
      {
        var id := Ordered.Least(todo);
        ids := ids + {id};
        todo := todo - {id};
      }
    }

    /** Encrypts every key in turn. The store counts as encrypted from the start, so a failure on the way leaves the
        plain keys in place under a set flag, and they are no longer found. */
    method EncryptKeys(master: Bytes) returns (ok: bool)
      requires Intact()
      modifies this
      ensures ok == (old(mapCryptedKeys) == map[] && !old(fUseCrypto) && Encryptable(c, old(mapKeys), master))
      ensures ok ==> Valid() && Contents() == Encrypted(c, old(Contents()), master)
      ensures !ok && (old(mapCryptedKeys) != map[] || old(fUseCrypto)) ==> Contents() == old(Contents())
      ensures !ok && old(mapCryptedKeys) == map[] && !old(fUseCrypto) ==>
        HalfEncrypted(c, old(Contents()), Contents(), master) && !Valid()
    {
      if mapCryptedKeys != map[] || fUseCrypto {
        return false;
      }
      fUseCrypto := true;
      ok := SealAll(master);
      if !ok {
        return;
      }
      mapKeys := map[];
    }

    /** The loop of EncryptKeys. */
    method SealAll(master: Bytes) returns (ok: bool)
      requires fUseCrypto && mapCryptedKeys == map[] && Filed(c, mapKeys)
      modifies this`mapCryptedKeys
      ensures ok == Encryptable(c, mapKeys, master)
      ensures ok ==> mapCryptedKeys == Encrypted(c, Contents(), master).sealed
      ensures !ok ==> mapKeys != map[] && forall id | id in mapCryptedKeys ::
        id in mapKeys && SecretFor(c, mapKeys[id], master).Some?
        && mapCryptedKeys[id] == SealedKey(c, mapKeys[id], master)
    {
      hide SecretFor;
      var todo := mapKeys.Keys;
      while todo != {}
        invariant todo <= mapKeys.Keys
        invariant forall id | id in mapKeys && id !in todo :: SecretFor(c, mapKeys[id], master).Some?
        invariant mapCryptedKeys.Keys == mapKeys.Keys - todo
        invariant forall id | id in mapCryptedKeys :: mapCryptedKeys[id] == SealedKey(c, mapKeys[id], master)
        decreases |todo|
      {
        var id := Ordered.Least(todo);
        var key := mapKeys[id];
        var pub := c.pubOf(key);
        var secret := SecretFor(c, key, master);
        if secret == None {
          assert !Encryptable(c, mapKeys, master);
          return false;
        }
        mapCryptedKeys := mapCryptedKeys[c.idOf(pub) := Sealed(pub, secret.value)];
        todo := todo - {id};
      }
      ghost var all := Encrypted(c, Contents(), master).sealed;
      assert mapCryptedKeys.Keys == all.Keys;
      forall id | id in all
        ensures mapCryptedKeys[id] == all[id]
      {
        assert id in mapCryptedKeys && id in mapKeys;
        assert all[id] == SealedKey(c, mapKeys[id], master);
      }
      assert mapCryptedKeys == all;
      ok := true;
    }

    /** Encryption followed by Unlock with the same master key changes no answer. */
    method EncryptAndUnlock(master: Bytes) returns (ok: bool)
      requires Valid() && Laws(c) && !fUseCrypto
      modifies this
      ensures ok == Encryptable(c, old(mapKeys), master)
      ensures ok ==> Valid() && forall id ::
        Get(c, Contents(), id) == Get(c, old(Contents()), id) && Have(Contents(), id) == Have(old(Contents()), id)
    {
      ok := EncryptKeys(master);
      if ok {
        EncryptedUnlocks(c, old(Contents()), master);
        forall id
          ensures Get(c, Contents().(master := master), id) == Get(c, old(Contents()), id)
          ensures Have(Contents(), id) == Have(old(Contents()), id)
        {
          EncryptedAnswersTheSame(c, old(Contents()), master, id);
        }
        var unlocked := Unlock(master);
      }
    }

    method Apply(op: Op, ghost log: map<int, Key>, ghost m: Bytes) returns (ok: bool, ghost m': Bytes)
      requires Laws(c) && WrongKeyFails(c) && Logged(c, Contents(), log, m)
      requires op.Add? ==> |op.key.secret| == 32
      modifies this
      ensures Logged(c, Contents(), if op.Add? && ok then log[c.idOf(c.pubOf(op.key)) := op.key] else log, m')
      ensures old(Valid()) && (op.Encrypt? ==> ok) ==> Valid()
    {
      hide Logged, SecretFor;
      ghost var s := Contents();
      assert Usable(c, s) by { LoggedUsable(c, s, log, m); }
      m' := m;
      match op
      case Add(key) =>
        AddLogged(c, s, log, m, key);
        m' := if s.useCrypto && s.sealed == map[] then s.master else m;
        ok := AddKeyPubKey(key, c.pubOf(key));
      case Lock =>
        ok := LockKeyStore();
        if ok {
          LockLogged(c, s, log, m);
        }
      case Unlock(master) =>
        ok := this.Unlock(master);
        if ok {
          UnlockLogged(c, s, log, m, master);
        }
      case Encrypt(master) =>
        ok := EncryptKeys(master);
        if ok {
          EncryptLogged(c, s, log, m, master);
          m' := master;
        } else if !s.useCrypto && s.sealed == map[] {
          HalfLogged(c, s, Contents(), log, m, master);
          m' := master;
        }
    }

    static lemma LoggedUsable(c: Crypto, s: Store, log: map<int, Key>, m: Bytes)
      requires Logged(c, s, log, m)
      ensures Usable(c, s)
    {
    }

    /** In any run of a new store, whenever it is not locked, as after an Unlock that succeeded, every id it has yields
        the last key added for it, although Unlock looks at the first key only; and it has them all as long as no
        encryption failed on the way. */
    method Run(ops: seq<Op>) returns (results: seq<bool>)
      requires Laws(c) && WrongKeyFails(c) && Contents() == Store(false, map[], map[], [])
      requires forall i | 0 <= i < |ops| && ops[i].Add? :: |ops[i].key.secret| == 32
      modifies this
      ensures |results| == |ops|
      ensures !Locked(Contents()) ==> forall id ::
        if Have(Contents(), id)
        then id in LastAdded(c, ops, results) && Get(c, Contents(), id) == Some(LastAdded(c, ops, results)[id])
        else Get(c, Contents(), id) == None
      ensures Valid() && !Locked(Contents()) ==>
        forall id :: Have(Contents(), id) <==> id in LastAdded(c, ops, results)
      ensures (forall i | 0 <= i < |ops| && ops[i].Encrypt? :: results[i]) ==> Valid()
    {
      hide Logged, Get;
      results := [];
      ghost var m: Bytes := [];
      assert Logged(c, Contents(), map[], m) by { NothingLogged(c, m); }
      for i := 0 to |ops|
        invariant |results| == i && Logged(c, Contents(), LastAdded(c, ops[..i], results), m)
        invariant (forall k | 0 <= k < i && ops[k].Encrypt? :: results[k]) ==> Valid()
      {
        var ok, m' := Apply(ops[i], LastAdded(c, ops[..i], results), m);
        assert ops[..i + 1][..i] == ops[..i] && (results + [ok])[..i] == results;
        results := results + [ok];
        m := m';
      }
      assert ops[..|ops|] == ops;
      if !Locked(Contents()) {
        forall id
          ensures Have(Contents(), id) ==>
            id in LastAdded(c, ops, results) && Get(c, Contents(), id) == Some(LastAdded(c, ops, results)[id])
          ensures !Have(Contents(), id) ==> Get(c, Contents(), id) == None
          ensures Valid() ==> (Have(Contents(), id) <==> id in LastAdded(c, ops, results))
        {
          LoggedAnswers(c, Contents(), LastAdded(c, ops, results), m, id);
        }
      }
    }

    static lemma NothingLogged(c: Crypto, m: Bytes)
      ensures Logged(c, Store(false, map[], map[], []), map[], m)
    {
    }
  }

  /** The same as a run of the store. */
  method RefuseToEncrypt(master: Bytes)
    returns (store: CCryptoKeyStore, added: bool, before: Option<Key>, ok: bool, after: Option<Key>)
    ensures fresh(store) && store.c == Refusing()
    ensures added && before == Some(Key(seq(32, _ => 7), true)) && !ok && after == None
    ensures !store.Valid() && 1 in store.mapKeys
  {
    var key := Key(seq(32, _ => 7), true);
    store := new CCryptoKeyStore(Refusing());
    added := store.AddKeyPubKey(key, 1);
    before := store.GetKey(1);
    ghost var s := store.Contents();
    assert s == Store(false, map[1 := key], map[], []);
    assert s.keys[1] == key && SecretFor(store.c, key, master) == None;
    ok := store.EncryptKeys(master);
    RefusedEncryption(store.Contents(), master);
    after := store.GetKey(1);
  }
}
