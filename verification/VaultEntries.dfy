/** Single entries of a vault file: under which key and nonce each is written, and
    what becomes of one written under another key. */
module VaultEntries {
  import opened Prelude
  import opened VaultModel

  /** Reading a name yields what was encrypted under the session's key; an entry
      under another key is refused, and a missing name is no error. */
  lemma EntryIsReadIff(s: Store, token: string, name: string, value: string)
    requires token in s.active && LoadData(s, s.active[token].0, s.active[token].1).Ok?
    ensures var (user, key) := s.active[token];
      var data, read := LoadData(s, user, key).value, GetSecret(s, token, name);
      && (read == Ok(None) <==> name !in data)
      && (read == Err(Undecryptable) <==> name in data && data[name].key != key)
      && (read == Ok(Some(value)) <==> name in data && data[name].key == key && data[name].plain == value)
  {
  }

  /** A stored secret is encrypted under the session's key with the nonce drawn for
      it; every other entry of the file stays as it is. */
  lemma StoredEntry(s: Store, token: string, name: string, value: string, nonce: nat, other: string)
    requires StoreSecret(s, token, name, value, nonce).1.Ok?
    ensures token in s.active
    ensures var (user, key) := s.active[token];
      var before, after := LoadData(s, user, key).value, StoreSecret(s, token, name, value, nonce).0;
      && user in after.files
      && var data := after.files[user].data;
        && data.Keys == before.Keys + {name}
        && data[name] == Enc(key, nonce, value)
        && (other != name && other in before ==> data[other] == before[other])
        && after.files[user].mac == MacOf(key, after.files[user].version, data)
  {
  }

  /** Rotation is refused, with the files as they were, when some entry is under
      another key than the old one; otherwise every entry is written anew under the
      new key, with the nonce drawn for it and the secret it held. */
  lemma RotatedEntries(s: Store, user: string, oldPassword: string, newPassword: string, salt: nat, newSalt: nat,
                       nonces: string -> nat)
    ensures
      var (after, result) := RotateKey(s, user, oldPassword, newPassword, salt, newSalt, nonces);
      var oldKey := Derived(oldPassword, if user in s.salts then s.salts[user] else salt);
      var newKey := Derived(newPassword, newSalt);
      match LoadData(s, user, oldKey)
      case Err(f) => result == Err(f) && after.files == s.files && after.versions == s.versions
      case Ok(data) =>
        if exists name :: name in data && data[name].key != oldKey then
          result == Err(Undecryptable) && after.files == s.files && after.versions == s.versions
        else
          && result == Ok(()) && user in after.files && user in after.salts && after.salts[user] == newSalt
          && after.files[user].data.Keys == data.Keys
          && (forall name :: name in data ==>
                after.files[user].data[name] == Enc(newKey, nonces(name), data[name].plain))
          && after.files[user].mac == MacOf(newKey, after.files[user].version, after.files[user].data)
  {
    var salted := WithSalt(s, user, salt);
    var oldKey := Derived(oldPassword, salted.salts[user]);
    assert LoadData(salted, user, oldKey) == LoadData(s, user, oldKey);
  }
}
