/** The vault store behaves like a plain map of secrets per user. */
module VaultRefinement {
  import opened Prelude
  import opened VaultModel

  // ---------- the plain map ----------

  /** A session is live until its user's key is rotated. */
  datatype Session = Session(user: string, password: string, live: bool)

  datatype Vault = Vault(password: string, secrets: map<string, string>)

  datatype Plain = Plain(sessions: map<string, Session>, vaults: map<string, Vault>)

  /** Whoever writes first fixes the password. */
  predicate Admits(p: Plain, token: string)
    requires token in p.sessions
  {
    var s := p.sessions[token];
    s.live && (s.user in p.vaults ==> p.vaults[s.user].password == s.password)
  }

  function Secrets(p: Plain, user: string): map<string, string> {
    if user in p.vaults then p.vaults[user].secrets else map[]
  }

  function PlainStep(p: Plain, c: Call): (Plain, Reply) {
    match c
    case CallUnlock(t, u, pw, _) => (p.(sessions := p.sessions[t := Session(u, pw, true)]), Fine)
    case CallLock(t) => (p.(sessions := p.sessions - {t}), Fine)
    case CallStore(t, n, v, _) =>
      if t !in p.sessions then (p, Failed(Locked))
      else if !Admits(p, t) then (p, Failed(BadMac))
      else
        var s := p.sessions[t];
        (p.(vaults := p.vaults[s.user := Vault(s.password, Secrets(p, s.user)[n := v])]), Fine)
    case CallGet(t, n) =>
      (p,
       if t !in p.sessions then Failed(Locked)
       else if !Admits(p, t) then Failed(BadMac)
       else
         var secrets := Secrets(p, p.sessions[t].user);
         Secret(if n in secrets then Some(secrets[n]) else None))
    case CallList(t) =>
      (p,
       if t !in p.sessions then Failed(Locked)
       else if !Admits(p, t) then Failed(BadMac)
       else Names(Secrets(p, p.sessions[t].user).Keys))
    case CallRotate(u, o, n, _, _, _) =>
      if u in p.vaults && p.vaults[u].password != o then (p, Failed(BadMac))
      else (Plain(Retired(p.sessions, u), p.vaults[u := Vault(n, Secrets(p, u))]), Fine)
  }

  function Retired(sessions: map<string, Session>, user: string): map<string, Session> {
    map t <- sessions :: if sessions[t].user == user then sessions[t].(live := false) else sessions[t]
  }

  function PlainRun(p: Plain, calls: seq<Call>): (Plain, seq<Reply>)
    decreases |calls|
  {
    if |calls| == 0 then (p, [])
    else
      var (next, reply) := PlainStep(p, calls[0]);
      var (end, replies) := PlainRun(next, calls[1..]);
      (end, [reply] + replies)
  }

  // ---------- agreement ----------

  ghost predicate Encrypts(data: map<string, Cipher>, key: Key, secrets: map<string, string>) {
    && data.Keys == secrets.Keys
    && forall n <- data :: data[n].key == key && data[n].plain == secrets[n]
  }

  ghost predicate TokenAgrees(s: Store, p: Plain, spent: set<nat>, t: string) {
    && (t in s.active <==> t in p.sessions)
    && (t in s.active ==>
          var (user, key) := s.active[t];
          var session := p.sessions[t];
          && session.user == user && session.password == key.password
          && user in s.salts && key.salt in spent
          && (session.live <==> key.salt == s.salts[user])
          && (!session.live ==> user in s.files))
  }

  ghost predicate UserAgrees(s: Store, p: Plain, spent: set<nat>, u: string) {
    && (u in s.salts ==> s.salts[u] in spent)
    && (u in s.files <==> u in p.vaults)
    && (u in s.files ==>
          && u in s.salts
          && Sealed(s.files[u], Derived(p.vaults[u].password, s.salts[u]), Known(s, u))
          && Encrypts(s.files[u].data, Derived(p.vaults[u].password, s.salts[u]), p.vaults[u].secrets))
  }

  ghost predicate Sealed(envelope: Envelope, key: Key, version: nat) {
    envelope.version == version && envelope.mac == MacOf(key, version, envelope.data)
  }

  ghost predicate Agree(s: Store, p: Plain, spent: set<nat>) {
    && (forall t :: TokenAgrees(s, p, spent, t))
    && (forall u :: UserAgrees(s, p, spent, u))
  }

  lemma SpendMore(s: Store, p: Plain, spent: set<nat>, more: set<nat>)
    requires Agree(s, p, spent)
    ensures Agree(s, p, spent + more)
  {
    forall t ensures TokenAgrees(s, p, spent + more, t) { assert TokenAgrees(s, p, spent, t); }
    forall u ensures UserAgrees(s, p, spent + more, u) { assert UserAgrees(s, p, spent, u); }
  }

  // ---------- reading ----------

  /** A read through a session succeeds exactly when the plain map admits it. */
  lemma LoadAgrees(s: Store, p: Plain, spent: set<nat>, token: string)
    requires Agree(s, p, spent) && token in s.active
    ensures token in p.sessions
    ensures var (user, key) := s.active[token];
      && (!Admits(p, token) ==> LoadData(s, user, key) == Err(BadMac))
      && (Admits(p, token) ==> LoadData(s, user, key).Ok? &&
                               Encrypts(LoadData(s, user, key).value, key, Secrets(p, user)))
  {
    assert TokenAgrees(s, p, spent, token);
    var (user, key) := s.active[token];
    assert UserAgrees(s, p, spent, user);
  }

  lemma RotationLoadAgrees(s: Store, p: Plain, spent: set<nat>, user: string, password: string)
    requires Agree(s, p, spent) && user in s.salts
    ensures var key := Derived(password, s.salts[user]);
      && (user in p.vaults && p.vaults[user].password != password ==> LoadData(s, user, key) == Err(BadMac))
      && ((user in p.vaults ==> p.vaults[user].password == password) ==>
            LoadData(s, user, key).Ok? && Encrypts(LoadData(s, user, key).value, key, Secrets(p, user)))
  {
    assert UserAgrees(s, p, spent, user);
  }

  // ---------- writing ----------

  lemma SaveAgrees(s: Store, p: Plain, spent: set<nat>, user: string, password: string,
                   data: map<string, Cipher>, secrets: map<string, string>)
    requires Agree(s, p, spent) && user in s.salts
    requires Encrypts(data, Derived(password, s.salts[user]), secrets)
    ensures Agree(SaveData(s, user, Derived(password, s.salts[user]), data),
                  p.(vaults := p.vaults[user := Vault(password, secrets)]), spent)
  {
    var s' := SaveData(s, user, Derived(password, s.salts[user]), data);
    var p' := p.(vaults := p.vaults[user := Vault(password, secrets)]);
    forall t ensures TokenAgrees(s', p', spent, t) { assert TokenAgrees(s, p, spent, t); }
    forall u ensures UserAgrees(s', p', spent, u) { assert UserAgrees(s, p, spent, u); }
  }

  lemma WithSaltAgrees(s: Store, p: Plain, spent: set<nat>, user: string, salt: nat)
    requires Agree(s, p, spent)
    ensures Agree(WithSalt(s, user, salt), p, spent + {salt})
  {
    var s' := WithSalt(s, user, salt);
    forall t ensures TokenAgrees(s', p, spent + {salt}, t) { assert TokenAgrees(s, p, spent, t); }
    forall u ensures UserAgrees(s', p, spent + {salt}, u) { assert UserAgrees(s, p, spent, u); }
  }

  lemma UnlockAgrees(s: Store, p: Plain, spent: set<nat>, token: string, user: string, password: string, salt: nat)
    requires Agree(s, p, spent)
    ensures Agree(Unlock(s, token, user, password, salt),
                  p.(sessions := p.sessions[token := Session(user, password, true)]), spent + {salt})
  {
    WithSaltAgrees(s, p, spent, user, salt);
    var salted := WithSalt(s, user, salt);
    var s' := Unlock(s, token, user, password, salt);
    var p' := p.(sessions := p.sessions[token := Session(user, password, true)]);
    forall u ensures UserAgrees(s', p', spent + {salt}, u) { assert UserAgrees(salted, p, spent + {salt}, u); }
    assert UserAgrees(salted, p, spent + {salt}, user);
    forall t ensures TokenAgrees(s', p', spent + {salt}, t) { assert TokenAgrees(salted, p, spent + {salt}, t); }
  }

  lemma LockAgrees(s: Store, p: Plain, spent: set<nat>, token: string)
    requires Agree(s, p, spent)
    ensures Agree(Lock(s, token), p.(sessions := p.sessions - {token}), spent)
  {
    var s', p' := Lock(s, token), p.(sessions := p.sessions - {token});
    forall t ensures TokenAgrees(s', p', spent, t) { assert TokenAgrees(s, p, spent, t); }
    forall u ensures UserAgrees(s', p', spent, u) { assert UserAgrees(s, p, spent, u); }
  }

  lemma StoreAgrees(s: Store, p: Plain, spent: set<nat>, token: string, name: string, value: string, nonce: nat)
    requires Agree(s, p, spent)
    ensures var c := CallStore(token, name, value, nonce);
      Agree(Perform(s, c).0, PlainStep(p, c).0, spent) && Perform(s, c).1 == PlainStep(p, c).1
  {
    hide Agree, LoadData, SaveData;
    AgreeOnToken(s, p, spent, token);
    if token in s.active {
      var (user, key) := s.active[token];
      LoadAgrees(s, p, spent, token);
      if Admits(p, token) {
        var data := LoadData(s, user, key).value[name := Enc(key, nonce, value)];
        var secrets := Secrets(p, user)[name := value];
        assert key == Derived(p.sessions[token].password, s.salts[user]);
        SaveAgrees(s, p, spent, user, key.password, data, secrets);
      }
    }
  }

  lemma AgreeOnToken(s: Store, p: Plain, spent: set<nat>, t: string)
    requires Agree(s, p, spent)
    ensures TokenAgrees(s, p, spent, t)
  {
  }

  lemma ReadsAgree(s: Store, p: Plain, spent: set<nat>, c: Call)
    requires Agree(s, p, spent) && (c.CallGet? || c.CallList?)
    ensures Perform(s, c).1 == PlainStep(p, c).1
  {
    hide Agree, LoadData;
    AgreeOnToken(s, p, spent, c.token);
    if c.token in s.active { LoadAgrees(s, p, spent, c.token); }
  }

  /** The store after a new salt replaced the user's, against the retired sessions. */
  lemma RetireAgrees(s: Store, p: Plain, spent: set<nat>, user: string, newSalt: nat, data: map<string, Cipher>,
                     password: string, secrets: map<string, string>)
    requires Agree(s, p, spent) && newSalt !in spent
    requires Encrypts(data, Derived(password, newSalt), secrets)
    ensures var saved := SaveData(s, user, Derived(password, newSalt), data);
      Agree(saved.(salts := saved.salts[user := newSalt]),
            Plain(Retired(p.sessions, user), p.vaults[user := Vault(password, secrets)]), spent + {newSalt})
  {
    var saved := SaveData(s, user, Derived(password, newSalt), data);
    var s' := saved.(salts := saved.salts[user := newSalt]);
    var p' := Plain(Retired(p.sessions, user), p.vaults[user := Vault(password, secrets)]);
    forall t ensures TokenAgrees(s', p', spent + {newSalt}, t) { assert TokenAgrees(s, p, spent, t); }
    forall u ensures UserAgrees(s', p', spent + {newSalt}, u) { assert UserAgrees(s, p, spent, u); }
  }

  lemma RotateAgrees(s: Store, p: Plain, spent: set<nat>, c: Call)
    requires Agree(s, p, spent) && c.CallRotate? && SaltsOf(c) !! spent && c.salt != c.newSalt
    ensures Agree(Perform(s, c).0, PlainStep(p, c).0, spent + SaltsOf(c))
    ensures Perform(s, c).1 == PlainStep(p, c).1
  {
    hide Agree, LoadData, SaveData;
    var salted := WithSalt(s, c.user, c.salt);
    var oldKey, newKey := Derived(c.oldPassword, salted.salts[c.user]), Derived(c.newPassword, c.newSalt);
    WithSaltAgrees(s, p, spent, c.user, c.salt);
    RotationLoadAgrees(salted, p, spent + {c.salt}, c.user, c.oldPassword);
    var secrets := Secrets(p, c.user);
    assert spent + {c.salt} + {c.newSalt} == spent + SaltsOf(c);
    if c.user in p.vaults && p.vaults[c.user].password != c.oldPassword {
      SpendMore(salted, p, spent + {c.salt}, {c.newSalt});
    } else {
      var data := LoadData(salted, c.user, oldKey).value;
      assert Encrypts(Recrypted(data, newKey, c.nonces), newKey, secrets);
      RetireAgrees(salted, p, spent + {c.salt}, c.user, c.newSalt, Recrypted(data, newKey, c.nonces),
                   c.newPassword, secrets);
    }
  }

  // ---------- whole runs ----------

  /** Every call, whoever makes it, answers as the plain map does. */
  lemma StepRefines(s: Store, p: Plain, spent: set<nat>, c: Call)
    requires Agree(s, p, spent) && SaltsOf(c) !! spent && (c.CallRotate? ==> c.salt != c.newSalt)
    ensures Agree(Perform(s, c).0, PlainStep(p, c).0, spent + SaltsOf(c))
    ensures Perform(s, c).1 == PlainStep(p, c).1
  {
    hide Agree;
    match c
    case CallUnlock(t, u, pw, salt) => UnlockAgrees(s, p, spent, t, u, pw, salt);
    case CallLock(t) => LockAgrees(s, p, spent, t); assert spent + {} == spent;
    case CallStore(t, n, v, nonce) => StoreAgrees(s, p, spent, t, n, v, nonce); assert spent + {} == spent;
    case CallGet(_, _) => ReadsAgree(s, p, spent, c); assert spent + {} == spent;
    case CallList(_) => ReadsAgree(s, p, spent, c); assert spent + {} == spent;
    case CallRotate(_, _, _, _, _, _) => RotateAgrees(s, p, spent, c);
  }

  /** Over any interleaving of calls by many tokens and users, every reply is that
      of the plain map. */
  lemma {:induction false} RunRefines(s: Store, p: Plain, spent: set<nat>, calls: seq<Call>)
    requires Agree(s, p, spent) && FreshSalts(calls, spent)
    ensures Run(s, calls).1 == PlainRun(p, calls).1
    ensures exists after :: Agree(Run(s, calls).0, PlainRun(p, calls).0, after)
    decreases |calls|
  {
    hide Agree, Perform, PlainStep;
    if |calls| > 0 {
      StepRefines(s, p, spent, calls[0]);
      RunRefines(Perform(s, calls[0]).0, PlainStep(p, calls[0]).0, spent + SaltsOf(calls[0]), calls[1..]);
    }
  }

  /** In particular over any run from an empty disk. */
  lemma RunRefinesFromEmpty(calls: seq<Call>)
    requires FreshSalts(calls, {})
    ensures Run(Store(map[], map[], map[], map[]), calls).1 == PlainRun(Plain(map[], map[]), calls).1
  {
    RunRefines(Store(map[], map[], map[], map[]), Plain(map[], map[]), {}, calls);
  }

  // ---------- rotation ----------

  /** What a session read before a rotation, a session with the new password reads
      after it, for every name; and the old session reads nothing more. */
  lemma RotationKeepsSecrets(s: Store, p: Plain, spent: set<nat>, rotate: Call, login: Call, token: string,
                             name: string)
    requires Agree(s, p, spent) && FreshSalts([rotate, login], spent)
    requires rotate.CallRotate? && login.CallUnlock?
    requires login.user == rotate.user && login.password == rotate.newPassword && login.token != token
    requires token in s.active && s.active[token].0 == rotate.user && GetSecret(s, token, name).Ok?
    requires s.active[token].1.password == rotate.oldPassword
    ensures var after := Run(s, [rotate, login]).0;
      && GetSecret(after, login.token, name) == GetSecret(s, token, name)
      && GetSecret(after, token, name) == Err(BadMac)
  {
    hide Agree, Perform, GetSecret;
    var calls := [rotate, login];
    assert calls[1..] == [login] && [login][1..] == [];
    GetAgrees(s, p, spent, token, name);
    AgreeOnToken(s, p, spent, token);
    var s1, p1 := Perform(s, rotate).0, PlainStep(p, rotate).0;
    StepRefines(s, p, spent, rotate);
    var spent1 := spent + SaltsOf(rotate);
    var s2, p2 := Perform(s1, login).0, PlainStep(p1, login).0;
    StepRefines(s1, p1, spent1, login);
    GetAgrees(s2, p2, spent1 + SaltsOf(login), login.token, name);
    GetAgrees(s2, p2, spent1 + SaltsOf(login), token, name);
    assert Run(s, calls).0 == Run(s1, [login]).0 == Run(s2, []).0 == s2;
  }

  function PlainGet(p: Plain, token: string, name: string): Outcome<Option<string>> {
    if token !in p.sessions then Err(Locked)
    else if !Admits(p, token) then Err(BadMac)
    else
      var secrets := Secrets(p, p.sessions[token].user);
      Ok(if name in secrets then Some(secrets[name]) else None)
  }

  lemma GetAgrees(s: Store, p: Plain, spent: set<nat>, token: string, name: string)
    requires Agree(s, p, spent)
    ensures GetSecret(s, token, name) == PlainGet(p, token, name)
  {
    hide Agree, LoadData;
    AgreeOnToken(s, p, spent, token);
    if token in s.active { LoadAgrees(s, p, spent, token); }
  }
}
