/**
 * The renderer's list search (filterPasswords) and the checks handleLogin makes before it
 * creates or unlocks a vault (src/app.js).
 */
module Renderer {
  import Seqs
  import Text
  import Vault
  import opened Wrappers

  /** A decrypted login as the renderer holds it in its `passwords` list. */
  datatype Entry = Entry(id: string, title: string, username: string, password: string, url: string)

  /** The search predicate: title, username or (non-empty) url contains the query, ignoring case. */
  predicate MatchesQuery(p: Entry, query: string) {
    var q := Text.ToLower(query);
    || Text.Contains(Text.ToLower(p.title), q)
    || Text.Contains(Text.ToLower(p.username), q)
    || (p.url != "" && Text.Contains(Text.ToLower(p.url), q))
  }

  /**
   * filterPasswords: the empty query shows the whole list; any other query shows exactly the
   * entries that match it, each taken from the list.
   */
  function FilterPasswords(passwords: seq<Entry>, query: string): (r: seq<Entry>)
    ensures query == "" ==> r == passwords
    ensures query != "" ==> forall i :: 0 <= i < |r| ==> r[i] in passwords && MatchesQuery(r[i], query)
    ensures query != "" ==> forall i :: 0 <= i < |passwords| && MatchesQuery(passwords[i], query) ==> passwords[i] in r
  {
    if query == "" then passwords
    else
      var keep := (p: Entry) => MatchesQuery(p, query);
      Seqs.FilterComplete(keep, passwords);
      Seqs.Filter(keep, passwords)
  }

  /** The filter keeps the list's order: filtering a concatenation concatenates the filtered parts. */
  lemma FilterPasswordsKeepsOrder(a: seq<Entry>, b: seq<Entry>, query: string)
    ensures FilterPasswords(a + b, query) == FilterPasswords(a, query) + FilterPasswords(b, query)
  {
    if query != "" {
      Seqs.FilterConcat((p: Entry) => MatchesQuery(p, query), a, b);
    }
  }

  /** The case of the query does not matter. */
  lemma FilterPasswordsIgnoresQueryCase(passwords: seq<Entry>, query: string)
    ensures FilterPasswords(passwords, query) == FilterPasswords(passwords, Text.ToLower(query))
  {
    var lower := Text.ToLower(query);
    Text.ToLowerIdempotent(query);
    if query != "" {
      assert lower != "";
      Seqs.FilterExtensional((p: Entry) => MatchesQuery(p, query), (p: Entry) => MatchesQuery(p, lower), passwords);
    }
  }

  /** What handleLogin does with the form. */
  datatype LoginStep =
    | Rejected(message: string)
    | CreateVault(password: string)    // invoke set-master-password
    | UnlockVault(password: string)    // invoke verify-master-password

  /**
   * handleLogin: for a new vault a mismatched confirmation is reported before the length, and
   * passwords shorter than 8 characters are refused; an existing vault goes straight to
   * verification.
   */
  function HandleLogin(isNewUser: bool, password: string, confirm: string): (r: LoginStep)
    ensures isNewUser && password != confirm ==> r == Rejected("Passwörter stimmen nicht überein")
    ensures isNewUser && password == confirm && |password| < 8 ==> r == Rejected("Passwort muss mindestens 8 Zeichen haben")
    ensures r.CreateVault? <==> isNewUser && password == confirm && |password| >= 8
    ensures r.CreateVault? || r.UnlockVault? ==> r.password == password
    ensures !isNewUser ==> r == UnlockVault(password)
  {
    if isNewUser then
      if password != confirm then Rejected("Passwörter stimmen nicht überein")
      else if |password| < 8 then Rejected("Passwort muss mindestens 8 Zeichen haben")
      else CreateVault(password)
    else UnlockVault(password)
  }

  /**
   * A vault created through the login form never holds the empty master password, so the
   * status report and the record handlers agree on whether it is unlocked.
   */
  lemma CreatedVaultSessionIsConsistent(isNewUser: bool, password: string, confirm: string)
    requires HandleLogin(isNewUser, password, confirm).CreateVault?
    ensures Vault.Unlocked(Some(password)) && Vault.ReportsUnlocked(Some(password))
  {
  }
}
