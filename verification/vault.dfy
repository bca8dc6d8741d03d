/**
 * The vault process: the in-memory master-password session, the stored list of login
 * records (each sensitive field encrypted on its own), and the IPC handlers that read and
 * change them (main.js).
 */
module Vault {
  import opened Wrappers
  import Seqs

  /**
   * The AES cipher and the SHA-256 digest the vault calls into, known only by their
   * behaviour. `decrypt` yields None where the library throws (the source maps that to null).
   */
  datatype Cipher = Cipher(
    encrypt: (string, string) -> string,
    decrypt: (string, string) -> Option<string>,
    hash: string -> string)

  /**
   * What the model requires of the cipher: decrypting with the key used to encrypt gives the
   * plaintext back, and a ciphertext is never the empty string (the library's output always
   * carries a salt header).
   */
  ghost predicate Sound(c: Cipher) {
    && (forall text, key :: c.decrypt(c.encrypt(text, key), key) == Some(text))
    && (forall text, key :: c.encrypt(text, key) != "")
  }

  /** The session as the handlers that touch records see it: `masterPassword` is truthy. */
  predicate Unlocked(session: Option<string>) {
    session.Some? && session.value != ""
  }

  /** The session as GET /status and `ping` report it: `masterPassword !== null`. */
  predicate ReportsUnlocked(session: Option<string>) {
    session.Some?
  }

  /** A login record as it is persisted: every field but id and timestamps is ciphertext; url and notes may be null. */
  datatype StoredEntry = StoredEntry(
    id: string,
    title: string,
    username: string,
    password: string,
    url: Option<string>,
    notes: Option<string>,
    createdAt: string,
    updatedAt: string)

  /** The plaintext fields the renderer sends to add-password / update-password. */
  datatype EntryInput = EntryInput(title: string, username: string, password: string, url: string, notes: string)

  /** A record as getDecryptedPasswords hands it out; a field whose decryption failed is None (null). */
  datatype PlainEntry = PlainEntry(
    id: string,
    title: Option<string>,
    username: Option<string>,
    password: Option<string>,
    url: Option<string>,
    notes: Option<string>,
    createdAt: string,
    updatedAt: string)

  /** `data.url ? encrypt(data.url, key) : null`. */
  function SealOptional(c: Cipher, key: string, text: string): Option<string> {
    if text == "" then None else Some(c.encrypt(text, key))
  }

  /** `entry.url ? decrypt(entry.url, key) : ''`. */
  function OpenOptional(c: Cipher, key: string, stored: Option<string>): Option<string> {
    if stored.Some? && stored.value != "" then c.decrypt(stored.value, key) else Some("")
  }

  /**
   * The record add-password builds from its input and a fresh id; the clock is read twice,
   * once for createdAt and once for updatedAt, and the two readings may differ.
   */
  function Seal(c: Cipher, key: string, data: EntryInput, id: string, created: string, updated: string): StoredEntry {
    StoredEntry(
      id,
      c.encrypt(data.title, key),
      c.encrypt(data.username, key),
      c.encrypt(data.password, key),
      SealOptional(c, key, data.url),
      SealOptional(c, key, data.notes),
      created,
      updated)
  }

  /** The record update-password writes over `prev`: new ciphertexts, prev's id and createdAt, a new updatedAt. */
  function Reseal(c: Cipher, key: string, prev: StoredEntry, data: EntryInput, now: string): StoredEntry {
    prev.(
      title := c.encrypt(data.title, key),
      username := c.encrypt(data.username, key),
      password := c.encrypt(data.password, key),
      url := SealOptional(c, key, data.url),
      notes := SealOptional(c, key, data.notes),
      updatedAt := now)
  }

  /** One step of getDecryptedPasswords. */
  function Open(c: Cipher, key: string, e: StoredEntry): PlainEntry {
    PlainEntry(
      e.id,
      c.decrypt(e.title, key),
      c.decrypt(e.username, key),
      c.decrypt(e.password, key),
      OpenOptional(c, key, e.url),
      OpenOptional(c, key, e.notes),
      e.createdAt,
      e.updatedAt)
  }

  /** getDecryptedPasswords: every stored record, decrypted, in stored order. */
  function OpenAll(c: Cipher, key: string, es: seq<StoredEntry>): (r: seq<PlainEntry>)
    ensures |r| == |es|
    ensures forall i :: 0 <= i < |es| ==> r[i].id == es[i].id && r[i] == Open(c, key, es[i])
    decreases |es|
  {
    if es == [] then [] else [Open(c, key, es[0])] + OpenAll(c, key, es[1..])
  }

  /** `passwords.findIndex(p => p.id === id)`. */
  function IndexOfId(es: seq<StoredEntry>, id: string): Option<nat> {
    Seqs.FirstWhere((e: StoredEntry) => e.id == id, es)
  }

  /** `passwords.filter(p => p.id !== id)`. */
  function WithoutId(es: seq<StoredEntry>, id: string): seq<StoredEntry> {
    Seqs.Filter((e: StoredEntry) => e.id != id, es)
  }

  /** The plaintext a sealed record decrypts to, under a sound cipher and the same key. */
  function Expected(data: EntryInput, id: string, created: string, updated: string): PlainEntry {
    PlainEntry(id, Some(data.title), Some(data.username), Some(data.password), Some(data.url), Some(data.notes), created, updated)
  }

  /**
   * Round trip of one record: what add-password stores decrypts to what the renderer sent,
   * including url and notes, which go through null on the way when they are empty.
   */
  lemma OpenSeal(c: Cipher, key: string, data: EntryInput, id: string, created: string, updated: string)
    requires Sound(c)
    ensures Open(c, key, Seal(c, key, data, id, created, updated)) == Expected(data, id, created, updated)
  {
    assert c.decrypt(c.encrypt(data.title, key), key) == Some(data.title);
    assert c.decrypt(c.encrypt(data.username, key), key) == Some(data.username);
    assert c.decrypt(c.encrypt(data.password, key), key) == Some(data.password);
    if data.url != "" {
      assert c.encrypt(data.url, key) != "";
      assert c.decrypt(c.encrypt(data.url, key), key) == Some(data.url);
    }
    if data.notes != "" {
      assert c.encrypt(data.notes, key) != "";
      assert c.decrypt(c.encrypt(data.notes, key), key) == Some(data.notes);
    }
  }

  /** Listing after an append lists the old records unchanged, then the new one. */
  lemma {:induction false} OpenAllAppend(c: Cipher, key: string, es: seq<StoredEntry>, e: StoredEntry)
    ensures OpenAll(c, key, es + [e]) == OpenAll(c, key, es) + [Open(c, key, e)]
    decreases |es|
  {
    if es == [] {
      assert es + [e] == [e];
    } else {
      assert (es + [e])[1..] == es[1..] + [e];
      OpenAllAppend(c, key, es[1..], e);
    }
  }

  /**
   * A record added while unlocked is listed, last, with exactly the title, username and
   * password (and url and notes) that were given; the records before it are listed as before.
   */
  lemma AddedRecordIsListed(
    c: Cipher, key: string, es: seq<StoredEntry>, data: EntryInput, id: string, created: string, updated: string)
    requires Sound(c)
    ensures OpenAll(c, key, es + [Seal(c, key, data, id, created, updated)])
         == OpenAll(c, key, es) + [Expected(data, id, created, updated)]
  {
    OpenAllAppend(c, key, es, Seal(c, key, data, id, created, updated));
    OpenSeal(c, key, data, id, created, updated);
  }

  /** Updating a record keeps what identifies it and decrypts to the new input. */
  lemma OpenReseal(c: Cipher, key: string, prev: StoredEntry, data: EntryInput, now: string)
    requires Sound(c)
    ensures Open(c, key, Reseal(c, key, prev, data, now)) == Expected(data, prev.id, prev.createdAt, now)
  {
    OpenSeal(c, key, data, prev.id, prev.createdAt, now);
  }

  /** delete-password removes every record with the id and keeps every other record, in order. */
  lemma WithoutIdSpec(es: seq<StoredEntry>, id: string)
    ensures forall i :: 0 <= i < |WithoutId(es, id)| ==> WithoutId(es, id)[i].id != id
    ensures forall i :: 0 <= i < |es| && es[i].id != id ==> es[i] in WithoutId(es, id)
    ensures IndexOfId(es, id).None? ==> WithoutId(es, id) == es
    ensures forall a, b :: es == a + b ==> WithoutId(es, id) == WithoutId(a, id) + WithoutId(b, id)
  {
    Seqs.FilterComplete((e: StoredEntry) => e.id != id, es);
    if IndexOfId(es, id).None? {
      Seqs.FilterKeepsAll((e: StoredEntry) => e.id != id, es);
    }
    forall a, b | es == a + b ensures WithoutId(es, id) == WithoutId(a, id) + WithoutId(b, id) {
      Seqs.FilterConcat((e: StoredEntry) => e.id != id, a, b);
    }
  }

  /**
   * The process-wide state of main.js: the persisted master hash and login records
   * (the electron-store keys 'masterHash' and 'passwords') and the module-level
   * `masterPassword` session variable.
   */
  class VaultProcess {
    const cipher: Cipher
    var masterHash: Option<string>
    var masterPassword: Option<string>
    var passwords: seq<StoredEntry>

    /** Start-up: the store as found on disk, the session locked (main.js line 15). */
    constructor (cipher: Cipher, masterHash: Option<string>, passwords: seq<StoredEntry>)
      ensures this.cipher == cipher && this.masterHash == masterHash && this.passwords == passwords
      ensures masterPassword == None
    {
      this.cipher := cipher;
      this.masterHash := masterHash;
      this.passwords := passwords;
      masterPassword := None;
    }

    /** check-master-password: does a vault exist? */
    method CheckMasterPassword() returns (exists_: bool)
      ensures exists_ <==> masterHash.Some?
    {
      exists_ := masterHash.Some?;
    }

    /** set-master-password: overwrites the hash whether or not one exists, and unlocks. */
    method SetMasterPassword(password: string) returns (ok: bool)
      modifies this
      ensures ok
      ensures masterHash == Some(cipher.hash(password)) && masterPassword == Some(password)
      ensures passwords == old(passwords)
    {
      masterHash := Some(cipher.hash(password));
      masterPassword := Some(password);
      ok := true;
    }

    /** verify-master-password: unlocks exactly when the digest matches; a mismatch leaves the session as it was. */
    method VerifyMasterPassword(password: string) returns (ok: bool)
      modifies this
      ensures ok <==> masterHash == Some(cipher.hash(password))
      ensures ok ==> masterPassword == Some(password)
      ensures !ok ==> masterPassword == old(masterPassword)
      ensures masterHash == old(masterHash) && passwords == old(passwords)
    {
      if masterHash == Some(cipher.hash(password)) {
        masterPassword := Some(password);
        ok := true;
      } else {
        ok := false;
      }
    }

    /** lock-vault: drops the session. */
    method LockVault() returns (ok: bool)
      modifies this
      ensures ok && masterPassword == None
      ensures masterHash == old(masterHash) && passwords == old(passwords)
    {
      masterPassword := None;
      ok := true;
    }

    /** get-passwords: [] while locked, otherwise every record decrypted with the session password. */
    method GetPasswords() returns (r: seq<PlainEntry>)
      ensures !Unlocked(masterPassword) ==> r == []
      ensures Unlocked(masterPassword) ==> r == OpenAll(cipher, masterPassword.value, passwords)
    {
      if masterPassword.None? || masterPassword.value == "" {
        return [];
      }
      r := OpenAll(cipher, masterPassword.value, passwords);
    }

    /**
     * add-password: while locked returns false (None) and stores nothing; otherwise appends one
     * record sealed with the session password and returns its id. `newId` stands for uuidv4(),
     * `created` and `updated` for the two ISO timestamps.
     */
    method AddPassword(data: EntryInput, newId: string, created: string, updated: string) returns (r: Option<string>)
      modifies this
      ensures masterHash == old(masterHash) && masterPassword == old(masterPassword)
      ensures !Unlocked(masterPassword) ==> r == None && passwords == old(passwords)
      ensures Unlocked(masterPassword) ==>
        && r == Some(newId)
        && passwords == old(passwords) + [Seal(cipher, masterPassword.value, data, newId, created, updated)]
    {
      if masterPassword.None? || masterPassword.value == "" {
        return None;
      }
      var encrypted := Seal(cipher, masterPassword.value, data, newId, created, updated);
      var list := passwords;
      list := list + [encrypted];
      passwords := list;
      r := Some(encrypted.id);
    }

    /**
     * update-password: false while locked or when no record has the id, and nothing changes;
     * otherwise the first record with the id is re-sealed in place and every other record is untouched.
     */
    method UpdatePassword(id: string, data: EntryInput, now: string) returns (ok: bool)
      modifies this
      ensures masterHash == old(masterHash) && masterPassword == old(masterPassword)
      ensures ok <==> Unlocked(masterPassword) && IndexOfId(old(passwords), id).Some?
      ensures !ok ==> passwords == old(passwords)
      ensures ok ==>
        var i := IndexOfId(old(passwords), id).value;
        && |passwords| == |old(passwords)|
        && old(passwords)[i].id == id
        && (forall j :: 0 <= j < i ==> old(passwords)[j].id != id)
        && passwords[i] == Reseal(cipher, masterPassword.value, old(passwords)[i], data, now)
        && (forall j :: 0 <= j < |passwords| && j != i ==> passwords[j] == old(passwords)[j])
    {
      if masterPassword.None? || masterPassword.value == "" {
        return false;
      }
      var list := passwords;
      var index := IndexOfId(list, id);
      if index.None? {
        return false;
      }
      list := list[index.value := Reseal(cipher, masterPassword.value, list[index.value], data, now)];
      passwords := list;
      ok := true;
    }

    /** delete-password: needs no unlock, removes every record with the id, always reports true. */
    method DeletePassword(id: string) returns (ok: bool)
      modifies this
      ensures ok
      ensures passwords == WithoutId(old(passwords), id)
      ensures masterHash == old(masterHash) && masterPassword == old(masterPassword)
    {
      passwords := WithoutId(passwords, id);
      ok := true;
    }
  }

  /** After lock-vault nothing is listed, and adds and updates are refused without touching the records. */
  method LockedVaultFailsClosed(v: VaultProcess, data: EntryInput, id: string, newId: string, now: string)
    returns (listed: seq<PlainEntry>, added: Option<string>, updated: bool)
    modifies v
    ensures listed == [] && added == None && !updated
    ensures v.passwords == old(v.passwords) && v.masterHash == old(v.masterHash)
  {
    var _ := v.LockVault();
    listed := v.GetPasswords();
    added := v.AddPassword(data, newId, now, now);
    updated := v.UpdatePassword(id, data, now);
  }

  /** set-master-password, lock-vault, then verify-master-password with the same password unlocks again. */
  method SetLockVerify(v: VaultProcess, password: string) returns (ok: bool)
    modifies v
    ensures ok && v.masterPassword == Some(password)
  {
    var _ := v.SetMasterPassword(password);
    var _ := v.LockVault();
    ok := v.VerifyMasterPassword(password);
  }

  /**
   * set-master-password over an existing vault replaces its hash: the old password no longer
   * verifies unless it digests to the same value as the new one.
   */
  method ResetReplacesOldPassword(v: VaultProcess, first: string, second: string) returns (ok: bool)
    modifies v
    requires v.cipher.hash(first) != v.cipher.hash(second)
    ensures !ok && v.masterPassword == Some(second)
  {
    var _ := v.SetMasterPassword(first);
    var _ := v.SetMasterPassword(second);
    ok := v.VerifyMasterPassword(first);
  }

  /**
   * The empty master password: status and ping report the session unlocked, while every
   * record operation treats it as locked. Only the renderer's 8-character minimum keeps it out.
   */
  method EmptyPasswordUnlocksOnlyTheStatus(v: VaultProcess, data: EntryInput, newId: string, now: string)
    returns (listed: seq<PlainEntry>, added: Option<string>)
    modifies v
    ensures ReportsUnlocked(v.masterPassword) && !Unlocked(v.masterPassword)
    ensures listed == [] && added == None && v.passwords == old(v.passwords)
  {
    var _ := v.SetMasterPassword("");
    listed := v.GetPasswords();
    added := v.AddPassword(data, newId, now, now);
  }
}
