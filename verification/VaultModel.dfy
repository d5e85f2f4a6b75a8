/** The encrypted vault store: salts, version counters and one authenticated
    envelope per user on disk, and the keys of the tokens now logged in. Keys,
    ciphertexts and authentication codes are symbolic terms. */
module VaultModel {
  import opened Prelude

  datatype Key = Derived(password: string, salt: nat)

  datatype Cipher = Enc(key: Key, nonce: nat, plain: string)

  datatype Mac = MacOf(key: Key, version: nat, data: map<string, Cipher>)

  datatype Envelope = Envelope(version: nat, mac: Mac, data: map<string, Cipher>)

  datatype Store = Store(salts: map<string, nat>, versions: map<string, nat>,
                         files: map<string, Envelope>, active: map<string, (string, Key)>)

  datatype Fault = Locked | BadMac | Rollback | Undecryptable

  datatype Outcome<+T> = Ok(value: T) | Err(fault: Fault)

  const WORD := 0x1_0000_0000_0000_0000

  function Decrypt(key: Key, c: Cipher): Outcome<string> {
    if c.key == key then Ok(c.plain) else Err(Undecryptable)
  }

  // ---------- disk ----------

  function WithSalt(s: Store, user: string, salt: nat): Store {
    if user in s.salts then s else s.(salts := s.salts[user := salt])
  }

  function Known(s: Store, user: string): nat {
    if user in s.versions then s.versions[user] else 0
  }

  /** The next version; the counter is a 64-bit word. */
  function Next(version: nat): nat {
    (version + 1) % WORD
  }

  function LoadData(s: Store, user: string, key: Key): Outcome<map<string, Cipher>> {
    if user !in s.files then Ok(map[])
    else
      var envelope := s.files[user];
      if envelope.mac != MacOf(key, envelope.version, envelope.data) then Err(BadMac)
      else if envelope.version < Known(s, user) then Err(Rollback)
      else Ok(envelope.data)
  }

  function SaveData(s: Store, user: string, key: Key, data: map<string, Cipher>): Store {
    var version := Next(Known(s, user));
    s.(files := s.files[user := Envelope(version, MacOf(key, version, data), data)],
       versions := s.versions[user := version])
  }

  // ---------- the operations ----------

  /** Logging in derives a key from whatever password is given; it is checked
      only when the vault file is read. */
  function Unlock(s: Store, token: string, user: string, password: string, salt: nat): Store {
    var salted := WithSalt(s, user, salt);
    salted.(active := salted.active[token := (user, Derived(password, salted.salts[user]))])
  }

  function Lock(s: Store, token: string): Store {
    s.(active := s.active - {token})
  }

  function StoreSecret(s: Store, token: string, name: string, value: string, nonce: nat): (Store, Outcome<()>) {
    if token !in s.active then (s, Err(Locked))
    else
      var (user, key) := s.active[token];
      match LoadData(s, user, key)
      case Err(f) => (s, Err(f))
      case Ok(data) => (SaveData(s, user, key, data[name := Enc(key, nonce, value)]), Ok(()))
  }

  function GetSecret(s: Store, token: string, name: string): Outcome<Option<string>> {
    if token !in s.active then Err(Locked)
    else
      var (user, key) := s.active[token];
      match LoadData(s, user, key)
      case Err(f) => Err(f)
      case Ok(data) =>
        if name !in data then Ok(None)
        else
          match Decrypt(key, data[name])
          case Err(f) => Err(f)
          case Ok(plain) => Ok(Some(plain))
  }

  function ListSecrets(s: Store, token: string): Outcome<set<string>> {
    if token !in s.active then Err(Locked)
    else
      var (user, key) := s.active[token];
      match LoadData(s, user, key)
      case Err(f) => Err(f)
      case Ok(data) => Ok(data.Keys)
  }

  predicate AllUnder(data: map<string, Cipher>, key: Key) {
    forall name <- data :: data[name].key == key
  }

  function Recrypted(data: map<string, Cipher>, key: Key, nonces: string -> nat): map<string, Cipher> {
    map name <- data :: Enc(key, nonces(name), data[name].plain)
  }

  /** Re-encrypts every secret under a key from a new salt. The salt is stored
      only after the new file. */
  function RotateKey(s: Store, user: string, oldPassword: string, newPassword: string, salt: nat, newSalt: nat,
                     nonces: string -> nat): (Store, Outcome<()>)
  {
    var salted := WithSalt(s, user, salt);
    var oldKey, newKey := Derived(oldPassword, salted.salts[user]), Derived(newPassword, newSalt);
    match LoadData(salted, user, oldKey)
    case Err(f) => (salted, Err(f))
    case Ok(data) =>
      if !AllUnder(data, oldKey) then (salted, Err(Undecryptable))
      else
        var saved := SaveData(salted, user, newKey, Recrypted(data, newKey, nonces));
        (saved.(salts := saved.salts[user := newSalt]), Ok(()))
  }

  // ---------- runs ----------

  /** One call, with the random values it draws. */
  datatype Call =
    | CallUnlock(token: string, user: string, password: string, salt: nat)
    | CallLock(token: string)
    | CallStore(token: string, name: string, value: string, nonce: nat)
    | CallGet(token: string, name: string)
    | CallList(token: string)
    | CallRotate(user: string, oldPassword: string, newPassword: string, salt: nat, newSalt: nat, nonces: string -> nat)

  datatype Reply = Fine | Secret(value: Option<string>) | Names(names: set<string>) | Failed(fault: Fault)

  function Acknowledge(r: Outcome<()>): Reply {
    match r
    case Ok(_) => Fine
    case Err(f) => Failed(f)
  }

  function Perform(s: Store, c: Call): (Store, Reply) {
    match c
    case CallUnlock(t, u, p, salt) => (Unlock(s, t, u, p, salt), Fine)
    case CallLock(t) => (Lock(s, t), Fine)
    case CallStore(t, n, v, nonce) => var r := StoreSecret(s, t, n, v, nonce); (r.0, Acknowledge(r.1))
    case CallGet(t, n) => (s, match GetSecret(s, t, n) case Ok(v) => Secret(v) case Err(f) => Failed(f))
    case CallList(t) => (s, match ListSecrets(s, t) case Ok(ns) => Names(ns) case Err(f) => Failed(f))
    case CallRotate(u, o, n, salt, newSalt, nonces) =>
      var r := RotateKey(s, u, o, n, salt, newSalt, nonces); (r.0, Acknowledge(r.1))
  }

  function Run(s: Store, calls: seq<Call>): (Store, seq<Reply>)
    decreases |calls|
  {
    if |calls| == 0 then (s, [])
    else
      var (next, reply) := Perform(s, calls[0]);
      var (end, replies) := Run(next, calls[1..]);
      (end, [reply] + replies)
  }

  function SaltsOf(c: Call): set<nat> {
    match c
    case CallUnlock(_, _, _, salt) => {salt}
    case CallRotate(_, _, _, salt, newSalt, _) => {salt, newSalt}
    case _ => {}
  }

  /** No salt is ever drawn twice. */
  predicate FreshSalts(calls: seq<Call>, spent: set<nat>)
    decreases |calls|
  {
    |calls| == 0 ||
    (&& SaltsOf(calls[0]) !! spent
     && (calls[0].CallRotate? ==> calls[0].salt != calls[0].newSalt)
     && FreshSalts(calls[1..], spent + SaltsOf(calls[0])))
  }
}
