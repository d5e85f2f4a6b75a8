/** The version counter, and what a replaced vault file is worth. */
module VaultVersions {
  import opened Prelude
  import opened VaultModel

  // ---------- one save ----------

  /** A save raises the stored version exactly when the counter is not at its last
      value, where the 64-bit word wraps to zero. */
  lemma SaveRaisesIff(s: Store, user: string, key: Key, data: map<string, Cipher>)
    requires Known(s, user) < WORD
    ensures var after := SaveData(s, user, key, data);
      && Known(after, user) < WORD
      && after.files[user].version == Known(after, user)
      && (Known(after, user) > Known(s, user) <==> Known(s, user) != WORD - 1)
      && (forall other :: other != user ==> Known(after, other) == Known(s, other))
  {
  }

  // ---------- whole runs ----------

  ghost predicate Recorded(s: Store) {
    forall u <- s.files :: s.files[u].version == Known(s, u)
  }

  lemma SaveRecords(s: Store, user: string, key: Key, data: map<string, Cipher>)
    requires Recorded(s)
    ensures Recorded(SaveData(s, user, key, data))
  {
    var after := SaveData(s, user, key, data);
    forall u | u in after.files ensures after.files[u].version == Known(after, u) {}
  }

  /** Every file carries the stored version, in every state of any run. */
  lemma {:induction false} EveryRunIsRecorded(s: Store, calls: seq<Call>)
    requires Recorded(s)
    ensures Recorded(Run(s, calls).0)
    decreases |calls|
  {
    hide Recorded, Perform;
    if |calls| > 0 {
      StepRecords(s, calls[0]);
      EveryRunIsRecorded(Perform(s, calls[0]).0, calls[1..]);
    }
  }

  lemma StepRecords(s: Store, c: Call)
    requires Recorded(s)
    ensures Recorded(Perform(s, c).0)
  {
    hide LoadData, SaveData, Recrypted, AllUnder;
    match c
    case CallStore(token, name, value, nonce) =>
      if token in s.active {
        var (owner, key) := s.active[token];
        var loaded := LoadData(s, owner, key);
        if loaded.Ok? { SaveRecords(s, owner, key, loaded.value[name := Enc(key, nonce, value)]); }
      }
    case CallRotate(user, oldPassword, newPassword, salt, newSalt, nonces) =>
      var salted := WithSalt(s, user, salt);
      var oldKey, newKey := Derived(oldPassword, salted.salts[user]), Derived(newPassword, newSalt);
      var loaded := LoadData(salted, user, oldKey);
      assert Recorded(salted);
      if loaded.Ok? { SaveRecords(salted, user, newKey, Recrypted(loaded.value, newKey, nonces)); }
    case _ =>
      assert Perform(s, c).0.files == s.files && Perform(s, c).0.versions == s.versions;
  }

  /** From one state to a later one a user's version rises by at most `steps`, and
      while it stays the file stays. */
  ghost predicate Advances(s: Store, after: Store, user: string, steps: nat) {
    && Known(s, user) <= Known(after, user) <= Known(s, user) + steps
    && (Known(after, user) == Known(s, user) ==>
          && (user in after.files <==> user in s.files)
          && (user in s.files ==> after.files[user] == s.files[user]))
  }

  lemma SaveAdvances(s: Store, owner: string, key: Key, data: map<string, Cipher>, user: string)
    requires Recorded(s) && Known(s, user) < WORD - 1
    ensures Recorded(SaveData(s, owner, key, data)) && Advances(s, SaveData(s, owner, key, data), user, 1)
  {
    var after := SaveData(s, owner, key, data);
    forall u | u in after.files ensures after.files[u].version == Known(after, u) {}
  }

  lemma RotateAdvances(s: Store, c: Call, user: string)
    requires Recorded(s) && Known(s, user) < WORD - 1 && c.CallRotate?
    ensures Recorded(Perform(s, c).0) && Advances(s, Perform(s, c).0, user, 1)
  {
    hide LoadData, SaveData, Recrypted, AllUnder;
    var salted := WithSalt(s, c.user, c.salt);
    var oldKey, newKey := Derived(c.oldPassword, salted.salts[c.user]), Derived(c.newPassword, c.newSalt);
    assert salted.files == s.files && salted.versions == s.versions;
    var loaded := LoadData(salted, c.user, oldKey);
    if loaded.Ok? { SaveAdvances(salted, c.user, newKey, Recrypted(loaded.value, newKey, c.nonces), user); }
  }

  lemma StoreAdvances(s: Store, c: Call, user: string)
    requires Recorded(s) && Known(s, user) < WORD - 1 && c.CallStore?
    ensures Recorded(Perform(s, c).0) && Advances(s, Perform(s, c).0, user, 1)
  {
    hide LoadData, SaveData;
    if c.token in s.active {
      var (owner, key) := s.active[c.token];
      var loaded := LoadData(s, owner, key);
      if loaded.Ok? { SaveAdvances(s, owner, key, loaded.value[c.name := Enc(key, c.nonce, c.value)], user); }
    }
  }

  lemma StepAdvances(s: Store, c: Call, user: string)
    requires Recorded(s) && Known(s, user) < WORD - 1
    ensures Recorded(Perform(s, c).0) && Advances(s, Perform(s, c).0, user, 1)
  {
    hide LoadData, SaveData;
    match c
    case CallStore(_, _, _, _) => StoreAdvances(s, c, user);
    case CallRotate(_, _, _, _, _, _) => RotateAdvances(s, c, user);
    case _ =>
      assert Perform(s, c).0.files == s.files && Perform(s, c).0.versions == s.versions;
  }

  lemma {:induction false} RunAdvances(s: Store, calls: seq<Call>, user: string)
    requires Recorded(s) && Known(s, user) + |calls| < WORD
    ensures Recorded(Run(s, calls).0) && Advances(s, Run(s, calls).0, user, |calls|)
    decreases |calls|
  {
    hide Perform, Recorded;
    if |calls| > 0 {
      StepAdvances(s, calls[0], user);
      RunAdvances(Perform(s, calls[0]).0, calls[1..], user);
    }
  }

  // ---------- putting an earlier file back ----------

  /** The store `now` with the user's file as it was at an earlier moment: the old
      file, or none if there was none. */
  function Restored(now: Store, earlier: Store, user: string): Store {
    now.(files := if user in earlier.files then now.files[user := earlier.files[user]] else now.files - {user})
  }

  /** Putting back an earlier moment's file works exactly when there was no file at
      that moment or the stored version has not passed the file's; short of a
      wrapping counter, when nothing was saved for the user since. Otherwise every
      key is refused. */
  lemma OldFileIsRefusedIff(s: Store, calls: seq<Call>, user: string, key: Key)
    requires Recorded(s) && LoadData(s, user, key).Ok?
    ensures var after := Run(s, calls).0;
      var restored := Restored(after, s, user);
      && (LoadData(restored, user, key).Ok? <==> user !in s.files || Known(after, user) <= Known(s, user))
      && (LoadData(restored, user, key) == Err(Rollback) <==> user in s.files && Known(after, user) > Known(s, user))
      && (user in s.files && Known(after, user) > Known(s, user) ==> forall k :: LoadData(restored, user, k).Err?)
      && (Known(s, user) + |calls| < WORD ==>
            && (Known(after, user) <= Known(s, user) <==> Known(after, user) == Known(s, user))
            && (Known(after, user) == Known(s, user) ==> restored.files == after.files))
  {
    hide Run;
    if Known(s, user) + |calls| < WORD { RunAdvances(s, calls, user); }
  }

  /** A file that some key reads, altered: with another version or other contents
      every key finds the authentication code wrong, and a file left as it was is
      still read. */
  lemma AlteredFileIsRefusedIff(s: Store, user: string, key: Key, version: nat, data: map<string, Cipher>)
    requires user in s.files && LoadData(s, user, key).Ok?
    ensures var altered := s.(files := s.files[user := s.files[user].(version := version, data := data)]);
      && (LoadData(altered, user, key).Ok? <==> version == s.files[user].version && data == s.files[user].data)
      && (version != s.files[user].version || data != s.files[user].data ==>
            forall k :: LoadData(altered, user, k) == Err(BadMac))
  {
    assert s.files[user].mac == MacOf(key, s.files[user].version, s.files[user].data);
  }

  /** A key other than the one the file was written with is refused before the
      counter is looked at. */
  lemma OtherKeyIsRefused(s: Store, user: string, key: Key, other: Key)
    requires user in s.files && LoadData(s, user, key).Ok?
    ensures LoadData(s, user, other).Ok? <==> other == key
    ensures other != key ==> LoadData(s, user, other) == Err(BadMac)
  {
    assert s.files[user].mac == MacOf(key, s.files[user].version, s.files[user].data);
  }

  /** Once a file is removed, every key reads an empty vault, whatever the counter. */
  lemma RemovedFileReadsEmpty(s: Store, user: string, key: Key)
    ensures LoadData(s.(files := s.files - {user}), user, key) == Ok(map[])
  {
  }

  /** So removing a user's file after its first save is a rollback that is
      accepted: the secret is gone, the counter says 1, and nothing is reported. */
  lemma RemovalGoesUnnoticed()
    ensures var key := Derived("pw", 0);
      var saved := SaveData(Store(map["ann" := 0], map[], map[], map[]), "ann", key, map["k" := Enc(key, 0, "v")]);
      && Known(saved, "ann") == 1
      && LoadData(saved, "ann", key) == Ok(map["k" := Enc(key, 0, "v")])
      && LoadData(saved.(files := saved.files - {"ann"}), "ann", key) == Ok(map[])
  {
  }
}
