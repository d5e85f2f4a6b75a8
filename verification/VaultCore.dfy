/** The vault store object: its files and the keys it holds in memory. */
module VaultCore {
  import opened Prelude
  import opened VaultModel

  class VaultStore {
    var salts: map<string, nat>
    var versions: map<string, nat>
    var files: map<string, Envelope>
    var activeKeys: map<string, (string, Key)>

    function View(): Store
      reads this
    {
      Store(salts, versions, files, activeKeys)
    }

    constructor ()
      ensures View() == Store(map[], map[], map[], map[])
    {
      salts, versions, files, activeKeys := map[], map[], map[], map[];
    }

    /** `fresh` values drawn at random come in as arguments. */
    method GetOrCreateSalt(username: string, drawn: nat) returns (salt: nat)
      modifies this`salts
      ensures View() == WithSalt(old(View()), username, drawn)
      ensures username in salts && salt == salts[username]
    {
      if username in salts { return salts[username]; }
      salt := drawn;
      salts := salts[username := salt];
    }

    method ReadData(username: string, key: Key) returns (data: Outcome<map<string, Cipher>>)
      ensures data == LoadData(View(), username, key)
    {
      if username !in files { return Ok(map[]); }
      var envelope := files[username];
      var expected := MacOf(key, envelope.version, envelope.data);
      if envelope.mac != expected { return Err(BadMac); }
      var known := if username in versions then versions[username] else 0;
      if envelope.version < known { return Err(Rollback); }
      data := Ok(envelope.data);
    }

    /** The counter is stored after the file it belongs to. */
    method WriteData(data: map<string, Cipher>, username: string, key: Key)
      modifies this`files, this`versions
      ensures View() == SaveData(old(View()), username, key, data)
    {
      var current := if username in versions then versions[username] else 0;
      var version := Next(current);
      files := files[username := Envelope(version, MacOf(key, version, data), data)];
      versions := versions[username := version];
    }

    method OpenSession(token: string, username: string, password: string, drawn: nat)
      modifies this`salts, this`activeKeys
      ensures View() == Unlock(old(View()), token, username, password, drawn)
    {
      var salt := GetOrCreateSalt(username, drawn);
      activeKeys := activeKeys[token := (username, Derived(password, salt))];
    }

    method CloseSession(token: string)
      modifies this`activeKeys
      ensures View() == Lock(old(View()), token)
    {
      activeKeys := activeKeys - {token};
    }

    /** Encrypts under the session's key and writes the whole map back; a refused
        read leaves the disk alone. */
    method Put(token: string, name: string, value: string, nonce: nat) returns (result: Outcome<()>)
      modifies this`files, this`versions
      ensures (View(), result) == StoreSecret(old(View()), token, name, value, nonce)
      ensures result.Err? ==> View() == old(View())
    {
      hide LoadData, SaveData;
      if token !in activeKeys { return Err(Locked); }
      var (username, key) := activeKeys[token];
      var encrypted := Enc(key, nonce, value);
      var data := ReadData(username, key);
      if data.Err? { return Err(data.fault); }
      WriteData(data.value[name := encrypted], username, key);
      result := Ok(());
    }

    method Get(token: string, name: string) returns (result: Outcome<Option<string>>)
      ensures result == GetSecret(View(), token, name)
    {
      hide LoadData;
      if token !in activeKeys { return Err(Locked); }
      var (username, key) := activeKeys[token];
      var data := ReadData(username, key);
      if data.Err? { return Err(data.fault); }
      if name !in data.value { return Ok(None); }
      var plain := Decrypt(key, data.value[name]);
      if plain.Err? { return Err(plain.fault); }
      result := Ok(Some(plain.value));
    }

    method List(token: string) returns (result: Outcome<set<string>>)
      ensures result == ListSecrets(View(), token)
    {
      hide LoadData;
      if token !in activeKeys { return Err(Locked); }
      var (username, key) := activeKeys[token];
      var data := ReadData(username, key);
      if data.Err? { return Err(data.fault); }
      result := Ok(data.value.Keys);
    }

    /** Decrypts and re-encrypts each entry, in no particular order. */
    static method Recrypt(data: map<string, Cipher>, oldKey: Key, newKey: Key, nonces: string -> nat)
      returns (result: Outcome<map<string, Cipher>>)
      ensures result == if AllUnder(data, oldKey) then Ok(Recrypted(data, newKey, nonces)) else Err(Undecryptable)
    {
      var left := data.Keys;
      var done: map<string, Cipher> := map[];
      while left != {}
        invariant left <= data.Keys
        invariant done == map name | name in data && name !in left :: Enc(newKey, nonces(name), data[name].plain)
        invariant forall name <- data :: name !in left ==> data[name].key == oldKey
        decreases left
      {
        var name := PickFrom(left);
        var plain := Decrypt(oldKey, data[name]);
        if plain.Err? { return Err(Undecryptable); }
        done := done[name := Enc(newKey, nonces(name), plain.value)];
        left := left - {name};
      }
      assert done == Recrypted(data, newKey, nonces);
      result := Ok(done);
    }

    /** The old file is moved aside, the new one written, and the new salt stored
        last; a wrong old password leaves the vault as it was. */
    method Rotate(username: string, oldPassword: string, newPassword: string, drawn: nat, newSalt: nat,
                  nonces: string -> nat) returns (result: Outcome<()>)
      modifies this`salts, this`files, this`versions
      ensures (View(), result) == RotateKey(old(View()), username, oldPassword, newPassword, drawn, newSalt, nonces)
      ensures result.Err? ==> files == old(files) && versions == old(versions)
    {
      hide LoadData, AllUnder, Recrypted;
      var salt := GetOrCreateSalt(username, drawn);
      var oldKey, newKey := Derived(oldPassword, salt), Derived(newPassword, newSalt);
      var data := ReadData(username, oldKey);
      if data.Err? { return Err(data.fault); }
      var recrypted := Recrypt(data.value, oldKey, newKey, nonces);
      if recrypted.Err? { return Err(recrypted.fault); }
      files := files - {username};
      WriteData(recrypted.value, username, newKey);
      assert files == old(files)[username := files[username]];
      salts := salts[username := newSalt];
      result := Ok(());
    }
  }
}
