# Mason Vault, modelled in Dafny

Mason Vault is a local password manager. It has three cooperating parts:

- An Electron **main process** (`main.js`). It holds the master password of the session in
  memory and keeps AES-encrypted login records in a store. It answers the renderer's IPC calls:
  check, set and verify the master password, lock, list, add, update and delete records, and
  generate a password. It also serves a loopback HTTP gateway for the browser extension.
- A **renderer** (`src/app.js`). It runs the login form, searches the record list, rates
  password strength, and runs a security check. The check sorts records into weak, reused,
  leaked and strong, computes a 0..100 score and builds a de-duplicated issue list.
- A **browser-extension content script** (`browser-extension/content.js`). It finds the
  username and password fields of a page. On submit it captures credentials and decides
  whether the form registers a new account. When asked, it fills stored credentials into the
  page.

The model keeps each part's decisions and leaves out its I/O.

- **Main process.** The state is a class, `Vault.VaultProcess`, whose methods change it the way
  the IPC handlers do. Encryption and hashing are fields of a `Cipher` value. The gateway's
  answers are pure functions of the session and the stored records.
- **Renderer.** The loops of the renderer are methods, each proved equal to a specification
  function. The functions carry the properties: membership in both directions, uniqueness,
  priority, bounds and score bands.
- **Content script.** A page is a sequence of input fields. A CSS selector is a conjunction of
  attribute conditions.

Modules:

| file | module | contents |
|---|---|---|
| foundation.dfy | `Wrappers`, `Seqs`, `Text` | Option, filter and first-match on sequences, ASCII lower-casing, substring search, join |
| vault.dfy | `Vault` | session, cipher, stored and decrypted records, the IPC handlers as a class |
| gateway.dfy | `Gateway` | the POST actions and GET routes of the extension gateway |
| generator.dfy | `Generator` | the charset and the random-byte mapping of generate-password |
| strength.dfy | `Strength` | analyzePasswordStrength and updateStrengthIndicator |
| renderer.dfy | `Renderer` | filterPasswords and handleLogin |
| security.dfy | `Security` | runSecurityCheck and the score, status and issue list of updateSecurityUI |
| capture.dfy | `Capture` | field finding, registration detection, credential capture and autofill |

## Model

| member | source | states |
|---|---|---|
| Vault.OpenAll | main.js:186-204 | every stored record is listed once, in stored order, decrypted with the session key; none is dropped |
| Vault.OpenSeal | main.js:238-250 | with a cipher whose decrypt inverts encrypt, opening a freshly sealed record gives back the submitted fields, the new id and the two timestamps, createdAt and updatedAt each from its own clock reading; an empty url or notes field comes back as the empty string |
| Vault.OpenAllAppend | main.js:252-254 | listing the store after an append is the old listing followed by the appended record |
| Vault.AddedRecordIsListed | main.js:238-257 | after add-password, the listing is the previous listing plus exactly the submitted record |
| Vault.OpenReseal | main.js:267-275 | an updated record opens to the new fields; its id and createdAt are kept and updatedAt is the new time |
| Vault.WithoutIdSpec | main.js:281-286 | delete keeps every record with another id, removes every record with this id, changes nothing when the id is absent, and works piecewise over a split store |
| Vault.VaultProcess.constructor | main.js:15 | a fresh process starts locked, with the stored hash and records as given |
| Vault.VaultProcess.CheckMasterPassword | main.js:207-209 | true exactly when a master hash is stored |
| Vault.VaultProcess.SetMasterPassword | main.js:211-216 | stores the hash of the new password and unlocks with it, overwriting any earlier hash; records are untouched |
| Vault.VaultProcess.VerifyMasterPassword | main.js:218-226 | true exactly when the password hashes to the stored hash; a success unlocks with it; a failure leaves the session as it was |
| Vault.VaultProcess.LockVault | main.js:228-231 | clears the session and nothing else |
| Vault.VaultProcess.GetPasswords | main.js:233-236 | a locked session gets the empty list; an unlocked one gets every record decrypted |
| Vault.VaultProcess.AddPassword | main.js:238-257 | locked: fails and stores nothing; unlocked: appends the sealed record and returns its new id |
| Vault.VaultProcess.UpdatePassword | main.js:259-279 | succeeds exactly when unlocked and the id is present; then only the first record with that id is resealed and all others stay |
| Vault.VaultProcess.DeletePassword | main.js:281-286 | always succeeds, even when locked, and removes every record with the id |
| Vault.LockedVaultFailsClosed | main.js:228-265 | after lock-vault, listing, adding and updating all fail and the store is unchanged |
| Vault.SetLockVerify | main.js:211-231 | a password just set still unlocks after a lock |
| Vault.ResetReplacesOldPassword | main.js:211-226 | after the master password is set again, the previous password no longer verifies |
| Vault.EmptyPasswordUnlocksOnlyTheStatus | main.js:233-239 | an empty master password counts as unlocked for the status report, but the record handlers treat it as locked |
| Gateway.SummarizeAll | main.js:113-118 | one summary (id, title, username, url) per record, in order, without the password |
| Gateway.FindEntry | main.js:146 | a found entry is the first in the list carrying the id; nothing is found only when the id is absent or no entry carries it |
| Gateway.HandleBrowserRequest | main.js:131-184 | locked and not ping: 401; ping: 200 with the status flag; unlocked getPassword: 404 exactly when no record carries the id; credentials are only ever sent for an id that is stored; any other action while unlocked: 400 "Unbekannte Aktion" |
| Gateway.HandleGet | main.js:103-122 | /status always answers with the status flag; /passwords answers only when unlocked, with the (id, title, username, url) summary of every decrypted record in stored order; any other request gets 404 with no body |
| Gateway.LockedGatewayIgnoresRecords | main.js:131-136 | while locked, neither the records, the cipher nor the url parser can change any answer of the gateway |
| Gateway.SearchByUrlSpec | main.js:159-178 | searchByUrl lists exactly the records whose url matches (equal hostnames, or substring when a url does not parse), and nothing else |
| Gateway.GetPasswordSpec | main.js:144-157 | getPassword answers with the first record carrying the id, and 404 exactly when none carries it |
| Generator.CharsetSpec | main.js:301-307 | the charset has the size of the enabled classes (62 when none is enabled) and holds only permitted characters |
| Generator.BuildCharset | main.js:301-307 | the appends build exactly the specified charset |
| Generator.GeneratePassword | main.js:298-316 | the password has the requested length; character i is charset[byte i mod size]; every character is permitted by the options |
| Strength.CriteriaMet | src/app.js:432-438 | the criteria count is between 0 and 7 |
| Strength.Clamp | src/app.js:741 | the clamp lands in range and leaves in-range values alone |
| Strength.Assess | src/app.js:698-744 | score in 0..7; empty and common passwords score 0 with their own reason; the reason is 'Stark' exactly when nothing failed, else the failures joined with ', ' |
| Strength.FailuresStartLowercase | src/app.js:705-731 | every failure reason starts lower-case, so no joined list of them reads 'Stark' |
| Strength.StarkMeansStrong | src/app.js:740-743 | a password with reason 'Stark' scores at least 5 |
| Strength.AnalysisBelowIndicator | src/app.js:704-720 | the analysis never scores above the indicator and equals it when no penalty or reset applies |
| Strength.CheckCriteria | src/app.js:704-720 | the steps add a point for each criterion met and collect, in check order, a reason for each one failed |
| Strength.CheckPatterns | src/app.js:722-731 | the single-class pattern costs 2 points and a repeated character 1, each adding its reason after the criteria reasons |
| Strength.AnalyzePasswordStrength | src/app.js:698-744 | the method returns exactly the specified assessment |
| Strength.StrengthIndicator | src/app.js:427-452 | strength counts the seven criteria; the label is Schwach exactly for 0-2, Mittel for 3-4, Stark for 5 and Sehr stark for 6-7 |
| Renderer.FilterPasswords | src/app.js:321-334 | an empty query keeps the whole list; any other query keeps exactly the entries matching title, username or url, ignoring case |
| Renderer.FilterPasswordsKeepsOrder | src/app.js:327-331 | filtering distributes over concatenation, so list order is kept |
| Renderer.FilterPasswordsIgnoresQueryCase | src/app.js:327-331 | a query and its lower-cased form select the same entries |
| Renderer.HandleLogin | src/app.js:181-206 | a new vault reports a mismatch before a short password and is created exactly when both match and there are at least 8 characters; an existing vault goes to verification |
| Renderer.CreatedVaultSessionIsConsistent | src/app.js:185-196 | a vault created through the form is unlocked for both the status report and the record handlers |
| Security.WeakOf | src/app.js:664-665 | the weak list holds exactly the entries scoring at most 2, with their reasons, in entry order |
| Security.LeakedOf | src/app.js:683-688 | the leaked list holds exactly the entries with a positive breach count, with that count, in entry order |
| Security.Distinct | src/app.js:652-662 | the dictionary keys are exactly the passwords that occur, each once |
| Security.ClassifyAndGroup | src/app.js:652-669 | the first loop fills the weak and strong lists as specified and groups entries by password, keys in first-seen order |
| Security.Classify | src/app.js:655-668 | one entry goes to weak (score at most 2), to strong (at least 5), or to neither |
| Security.AddEntries | src/app.js:674-678 | the inner loop appends the group's entries whose id is not yet listed, each with the group size |
| Security.CollectReused | src/app.js:671-680 | the second loop produces the specified reused list from the grouped dictionary |
| Security.CollectLeaked | src/app.js:682-688 | the third loop produces the specified leaked list |
| Security.RunSecurityCheck | src/app.js:639-695 | the three loops together give exactly the specified weak, reused, leaked and strong lists |
| Security.WeakAndStrongDisjoint | src/app.js:664-668 | no entry is both weak and strong |
| Security.StarkIsStrong | src/app.js:664-668 | an entry whose reason is 'Stark' is in the strong list |
| Security.AddGroupPrefix | src/app.js:674-678 | the inner loop only appends to the reused list |
| Security.AddGroupItems | src/app.js:674-678 | each item the inner loop appends is an entry of the group, with the group's size as its count |
| Security.AddGroupNoDup | src/app.js:674-678 | the inner loop never lists an id twice |
| Security.AddGroupCovers | src/app.js:674-678 | after the inner loop every entry of the group is listed by id |
| Security.AddGroupsPrefix | src/app.js:672-680 | the outer loop only appends to the reused list |
| Security.AddGroupsItems | src/app.js:672-680 | each item the outer loop appends is an entry of the list whose password is shared by more than one entry, with the size of that group |
| Security.AddGroupsNoDup | src/app.js:672-680 | the outer loop never lists an id twice |
| Security.AddGroupsCovers | src/app.js:672-680 | every entry whose password is among the keys and shared by more than one entry ends up listed by id |
| Security.ReusedSpec | src/app.js:671-680 | reused ids are unique; each item carries the size of its password group (more than 1); every entry that shares its password is listed |
| Security.GroupSizeShared | src/app.js:673 | a password group has more than one member exactly when another entry has the same password |
| Security.ReusedIffShared | src/app.js:671-680 | with unique ids, an entry is in the reused list exactly when another entry shares its password, and its count is its group size |
| Security.SecurityScore | src/app.js:779-784 | the score is in 0..100 and is 100 exactly when there are no issues |
| Security.ComputeScore | src/app.js:779-784 | the subtractions and clamp compute the specified score |
| Security.ScoreMonotone | src/app.js:779-784 | more issues never raise the score |
| Security.StatusMatchesTint | src/app.js:798-820 | the status text and the colour band always agree: Kritisch with danger, Verbesserungsbedarf with warning, Ausgezeichnet with neither |
| Security.CriticalNeedsThreeIssues | src/app.js:779-820 | a critical status takes at least three issues |
| Security.ExcellentMeansNoLeaks | src/app.js:779-820 | an excellent status means no leaks, at most one weak and at most two reused entries |
| Security.LeakIssues | src/app.js:842-844 | every leaked entry becomes a leaked issue with its count, in order |
| Security.WeakIssuesSpec | src/app.js:847-851 | the weak issues are exactly the weak entries that are not leaked, with their reasons |
| Security.ReuseIssuesSpec | src/app.js:854-858 | the reuse issues are exactly the reused entries that are neither leaked nor weak, with their counts |
| Security.BuildIssueList | src/app.js:841-858 | the three loops build exactly the specified issue list |
| Security.LeakLoop | src/app.js:842-844 | the leaked loop builds the specified leaked issues |
| Security.WeakLoop | src/app.js:847-851 | the weak loop builds the specified weak issues |
| Security.ReuseLoop | src/app.js:854-858 | the reuse loop builds the specified reuse issues |
| Security.WeakOfUnique | src/app.js:654-669 | with unique entry ids, weak ids are unique |
| Security.LeakedOfUnique | src/app.js:683-688 | with unique entry ids, leaked ids are unique |
| Security.WeakIssuesNotLeaked | src/app.js:847-851 | every weak issue is of the weak kind and names an entry that is not leaked |
| Security.ReuseIssuesNotLeakedOrWeak | src/app.js:854-858 | every reuse issue is of the reused kind and names an entry neither leaked nor weak |
| Security.WeakIssuesCover | src/app.js:847-851 | every weak entry that is not leaked gets a weak issue |
| Security.ReuseIssuesCover | src/app.js:854-858 | every reused entry neither leaked nor weak gets a reuse issue |
| Security.WeakIssuesUnique | src/app.js:847-851 | weak issue ids are unique, weak and not leaked |
| Security.ReuseIssuesUnique | src/app.js:854-858 | reuse issue ids are unique, reused, and neither leaked nor weak |
| Security.IssueListUnique | src/app.js:841-858 | no entry appears twice in the issue list |
| Security.IssueListComplete | src/app.js:841-858 | an id is in the issue list exactly when it is leaked, weak or reused |
| Security.IssueListPriority | src/app.js:841-858 | a weak issue is never a leaked entry; a reuse issue is neither leaked nor weak |
| Security.CheckIssues | src/app.js:652-688 | with unique entry ids, the issue list names each entry at most once, and names it exactly when it is leaked, scores at most 2, or shares its password |
| Security.LeakedIff | src/app.js:683-688 | an entry is leaked exactly when its breach count is positive |
| Security.WeakIff | src/app.js:664-665 | an entry is weak exactly when it scores at most 2 |
| Security.ReusedIff | src/app.js:671-680 | an entry is reused exactly when another entry shares its password |
| Security.ConstructorPasswordAborts | src/app.js:658-659 | as written, a single entry whose password is "constructor" makes the grouping throw |
| Security.GroupAsWrittenElsewhere | src/app.js:652-662 | when no password names an inherited member, the grouping as written agrees with the corrected grouping |
| Capture.FirstPassword | browser-extension/content.js:326 | the first password field, and None exactly when the form has none |
| Capture.UsernameFieldFrom | browser-extension/content.js:365-370 | a returned field exists, has a value and is not the first password field |
| Capture.UsernameFieldSpec | browser-extension/content.js:352-373 | the first selector whose first match is acceptable decides the field; None exactly when no selector yields one |
| Capture.FindUsernameField | browser-extension/content.js:352-373 | the loop returns the field of the specified rule |
| Capture.EmptyFirstEmailFieldFallsThrough | browser-extension/content.js:365-370 | when the first email field is empty, a later selector's field is used, not the form's second email field |
| Capture.TwoPasswordsMeanRegistration | browser-extension/content.js:377-378 | two password fields make the form a registration |
| Capture.OnePasswordNeedsKeyword | browser-extension/content.js:375-385 | with at most one password field, the form is a registration exactly when its html has a keyword |
| Capture.RegistrationIgnoresCase | browser-extension/content.js:381 | the verdict ignores the case of the html |
| Capture.AnmeldenCountsAsRegistration | browser-extension/content.js:382-384 | a login button labelled 'Anmelden' counts as a registration, because it contains the keyword 'anmelden' |
| Capture.CheckForCredentialsSpec | browser-extension/content.js:325-350 | nothing is sent exactly when there is no password field, its value is empty or no username field is found; otherwise url, hostname, username, password, the title (hostname when empty) and the registration verdict are sent |
| Capture.Fallback | browser-extension/content.js:60-68 | the fallback returns exactly the visible text and email fields of the first password field's form, in document order; nothing when there is no password field or it has no form |
| Capture.UsernameFieldsSpec | browser-extension/content.js:33-71 | the fields are visible; the first selector with visible matches decides; otherwise the fallback applies |
| Capture.FindUsernameFields | browser-extension/content.js:33-71 | the loop returns the fields of the specified rule |
| Capture.PasswordFieldsSpec | browser-extension/content.js:74-77 | the first password field to fill is the first visible one |
| Capture.FillCredentialsSpec | browser-extension/content.js:13-30 | the username goes into the first username field found, only when there is one and the username is non-empty; the password goes into a visible password input, every earlier password input being hidden, exactly when some password input is visible and the password is non-empty |

## Left out

- AES and SHA-256 are not modelled. They are the `encrypt`, `decrypt` and `hash` fields of a `Cipher` value. The round trip `decrypt(encrypt(t, k), k) == t` is the hypothesis `Sound` of the lemmas that need it, and nothing is assumed about hash collisions.
- Records are never dropped. `getDecryptedPasswords` catches decryption failures and keeps each record with null fields, so a field is an `Option<string>`. 
- The record store (electron-store) is a `seq` field of `Vault.VaultProcess`; persistence is not modelled.
- uuid generation, the clock and `crypto.randomBytes` are not modelled; they are parameters (`newId`, `random`, and a timestamp per clock reading: `created` and `updated` for add-password, `now` for update-password).
- The HTTP server is not modelled: sockets, CORS headers, JSON parse errors and request bodies other than `action`, `id` and `url`.
- The IPC channel, the windows, the clipboard and its 30-second clear timer, and the native-messaging host are not modelled.
- Entry history, notes editing and card storage are not modelled. The code has no history or cards, and notes are only encrypted and decrypted as an optional field.
- `checkPasswordLeaked` (the HIBP range query over the network) is not modelled; its answer is the parameter `leakCount`.
- Security.RunSecurityCheck: the reused list follows the insertion order of the password keys. JavaScript's `Object.entries` lists integer-like keys (a password such as "123456") first, in numeric order, and that reordering is not modelled. When ids are unique, as uuids make them, the set of reused entries and their counts are unaffected. When two entries share an id, the `!reused.find(r => r.id === entry.id)` test keeps only the one whose password key comes first, so the reordering can change which of them is listed and with which count.
- Security.RunSecurityCheck: the prototype-member passwords of the finding below are modelled only by `Security.GroupAsWritten`; the check itself uses the corrected grouping.
- The DOM is not modelled. A page or form is a sequence of `Capture.Input` values, in document order, holding the attributes the selectors read. Visibility (`isVisible`) is a boolean, and `closest('form')` is the input's `form` index.
- Capture.Holds: attribute values are compared as written. The case-insensitive matching HTML applies to the `type` attribute is not modelled.
- The DOM side of autofill and capture is not modelled: dispatching input and change events, highlighting, notifications, the MutationObserver, and `chrome.runtime` messaging (the message is the return value).
- Rendering is not modelled: HTML strings, the SVG circle offset, colour codes beyond the three bands, toasts, and the score animation.
- Text.ToLower folds only ASCII letters. JavaScript's `toLowerCase` also folds non-ASCII letters.
- Lengths are counted in Dafny characters, not in UTF-16 code units.
- Strength.HasTriple: the pattern `/(.)\1{2,}/` has no `u` flag, so JavaScript compares UTF-16 code units, while the model compares Dafny characters. For characters outside the Basic Multilingual Plane the two differ: "😀😀😀" is six alternating surrogates to the source, with no triple, while the model finds one and `Strength.Assess` deducts the point and adds 'wiederholte Zeichen'.
- Renderer.Entry has no null fields. The renderer's `p.title.toLowerCase()` would throw on a null title, which the model does not represent.
- Renderer.HandleLogin: the step after a successful unlock or create (loading the list and switching screens) is not modelled.
- Vault.VaultProcess.SetMasterPassword: the handler does not check whether a hash already exists, so a second call overwrites the first. The model keeps that behaviour.

## Findings

| source | as written | input that shows it | evidently intended | confidence | as-written member | corrected member |
|---|---|---|---|---|---|---|
| src/app.js:652-662 | `passwordCounts` is a plain object literal, and `passwordCounts[entry.password]` is checked for truthiness before `.push` | an entry whose password is "constructor" (or "toString", "__proto__", …): the lookup finds the inherited function, `.push` is undefined, and the TypeError aborts the whole security check | group entries by password using only own keys (a `Map`, or `Object.create(null)`) | not executed | Security.ConstructorPasswordAborts | Security.ClassifyAndGroup |
