# Account coordination of the SSH/Xray panel, in Dafny

This project models the account layer of a web panel that provisions VPN
accounts on one remote Linux server. The layer keeps two stores in step. One
is the Xray/V2Ray configuration document: a list of inbounds, and the VLESS
inbound's `settings.clients` list holds one `{id, level, email}` record per
account. The other is the server's OS user database, changed through shell
commands. The model covers:

- `ProxyConfig`: the document as a value and the document changes the two
  coordinator operations make. `AddClient` is the document part of
  `NewUserVPN`: find the first VLESS inbound with a client list, refuse a
  duplicate, append the record `newV2ray` builds. `RemoveAccount`, `StripAll`
  and `RemoveClientEverywhere` are the document part of `removerUsuarioSSH`:
  a `forEach` that filters the user out of every client list.
- `AccountManager`: a `Panel` class. Its fields are the document held by the
  config store (`config`) and the log of remote operations issued so far
  (`log`). Its methods are `NewUserVPN`, `removerUsuarioSSH`, `alterarSenha`,
  `alterarData`, `getUsers`, `online`, `listarUsuarios` and `infoLogin`. Each
  one states the whole new state: what the store holds and exactly which
  remote operations it issued, in order. A `Remote` oracle gives what each
  remote operation resolves with, or `None` when its promise rejects.
- `Presence`: the grouping of `online`, which turns each username array into
  `{user, count}` entries. It includes the same grouping as the source writes
  it on a plain JavaScript object (see Findings).
- `Listing`: the `listarUsuarios` parser, plus the round trip from the remote
  loop's printed lines back to the accounts.
- `Expiry`: the `close` handler of `infoLogin` (empty output, `never`, or a
  date) and `isExpired`.
- `JsText`, `Wrappers`: JavaScript's `trim`, `split` and `join`, and the
  Option/Result types.

### Behaviour of the source worth knowing

- `online` resolves with `undefined` when the query or the decoding fails,
  because its catch block only logs (src/sshAccountManager.js:310-312).
  `Panel.Online` returns `None` in that case.
- `infoLogin` only runs `chage -l` (src/sshAccountManager.js:357). Its
  outcome depends on that command's output alone.
- In edit mode, `removerUsuarioSSH` resolves with the removal script's output
  (src/sshAccountManager.js:332-335).
- `executarComandoSSH` resolves on the `close` event whatever the exit status
  (src/sshAccountManager.js:51-53). So full-mode removal still reads and
  rewrites the document after the removal script's `exit 1`
  (src/sshAccountManager.js:329, 339-349).

## Model

| member | source | states |
|---|---|---|
| `ProxyConfig.FirstVless` | src/sshAccountManager.js:169-171 | the result is the position of the first inbound with protocol "vless" and a client list; `None` exactly when no inbound qualifies |
| `ProxyConfig.HasEmail` | src/sshAccountManager.js:178-180 | `some(c => c.email === email)`: true exactly when some record of the list carries the email |
| `ProxyConfig.NewV2ray` | src/sshAccountManager.js:144-150 | the new record carries the given `id`, level 0 and the username as `email` |
| `ProxyConfig.AddClient` | src/sshAccountManager.js:165-187 | it refuses exactly when `inbounds` is unusable, when no VLESS inbound has clients, or when that inbound's list already holds the user; on success only the first VLESS inbound changes, its list gains `{id, level: 0, email: user}` at the end, and every other inbound and the rest of the document stay the same |
| `ProxyConfig.AddClientUnique` | src/sshAccountManager.js:178-187 | after a successful addition the target list holds exactly one record with the user's email, and it is the appended `{id, 0, user}` |
| `ProxyConfig.AddClientKeepsUnique` | src/sshAccountManager.js:177-187 | adding keeps the one-record-per-username invariant of the target list |
| `ProxyConfig.EmailCountZero` | src/sshAccountManager.js:178-180 | a list counts zero records for an email exactly when `some(c => c.email === email)` is false |
| `ProxyConfig.WithoutEmail` | src/sshAccountManager.js:344-346 | no record with the email is left; every other record keeps its multiplicity, and the result is a subsequence of the input, so relative order is kept |
| `ProxyConfig.WithoutAbsentEmail` | src/sshAccountManager.js:344-346 | filtering an email that no record carries returns the list unchanged |
| `ProxyConfig.WithoutEmailIdempotent` | src/sshAccountManager.js:344-346 | filtering the same email twice equals filtering once |
| `ProxyConfig.WithoutEmailKeepsUnique` | src/sshAccountManager.js:344-346 | filtering keeps the one-record-per-username invariant |
| `ProxyConfig.StripInbound` | src/sshAccountManager.js:343-347 | protocol and the other members are unchanged, and so is whether a client list exists; a list keeps no record for the user; an inbound without a list, or whose list has no record for the user, is unchanged |
| `ProxyConfig.StripAll` | src/sshAccountManager.js:342-348 | same number of inbounds; no client list keeps a record for the user; protocol, other members and whether a list exists are unchanged; inbounds without `settings.clients` are untouched; each list is the filtered list |
| `ProxyConfig.RemoveClientEverywhere` | src/sshAccountManager.js:342-348 | the `forEach` loop over the inbounds computes `StripAll` |
| `ProxyConfig.StripAllIdempotent` | src/sshAccountManager.js:342-348 | removing the user from every inbound a second time changes nothing |
| `ProxyConfig.StripAllKeepsTarget` | src/sshAccountManager.js:342-348 | removal keeps the first VLESS inbound in the same position |
| `ProxyConfig.RemoveAccount` | src/sshAccountManager.js:341-349 | it fails (TypeError) exactly when `inbounds` is unusable; otherwise the inbounds are `StripAll` of the old ones and the rest of the document is unchanged |
| `ProxyConfig.RemoveAccountIdempotent` | src/sshAccountManager.js:341-349 | a second full-mode document removal leaves the document as the first one left it |
| `ProxyConfig.RemoveUndoesAdd` | src/sshAccountManager.js:339-349 | removing an account right after adding it gives the same document as removing it from the document before the addition |
| `ProxyConfig.AddAfterRemove` | src/sshAccountManager.js:178-184 | after a removal, adding the same user to a document that has a VLESS inbound is not refused as a duplicate |
| `AccountManager.LaunchedOnce` | src/sshAccountManager.js:198-202 | whatever order `Promise.all` starts them in, OS-user creation, daemon reload and Xray restart are each issued exactly once: three launches, no command twice, and every launched command is one of the three |
| `AccountManager.Panel.NewUserVPN` | src/sshAccountManager.js:160-218 | the document is read first. A read failure, a refusal (no VLESS inbound, duplicate user) or a failed validation leaves the store unchanged and issues nothing more. Otherwise the write comes next, then the three commands, then the status check only if all three resolved. A committed write is not rolled back when a later command fails. On success the store holds `AddClient`'s document, the target list has exactly one record for the user, and the returned `uuid` is that record's `id` |
| `AccountManager.Panel.Stage` | src/sshAccountManager.js:165-195 | after the read: a refusal or a failed validation leaves the store and the log as they were; otherwise the same write-then-provision outcome as `NewUserVPN`, and on success the target list has exactly one record for the user, carrying the returned `uuid` |
| `AccountManager.Panel.Commit` | src/sshAccountManager.js:195-213 | a rejected write leaves the store unchanged and issues nothing more; otherwise the store holds the written document, and the three commands follow, then the status check if all three resolved |
| `AccountManager.Panel.Provision` | src/sshAccountManager.js:198-213 | the three commands are logged in launch order; the status check is issued only when all three resolved; success needs the status check to resolve too |
| `AccountManager.Panel.RemoveUser` | src/sshAccountManager.js:318-352 | in edit mode only the removal script runs and the document is neither read nor written. In full mode the script runs first, then the read, then the write of `RemoveAccount`'s document. Each failure stops the sequence and leaves the store as it was. On success no client list holds the user |
| `AccountManager.Panel.ChangePassword` | src/sshAccountManager.js:226-237 | one command, the document untouched, `true` unless the command rejects |
| `AccountManager.Panel.ChangeExpiry` | src/sshAccountManager.js:245-259 | one command, the document untouched, resolves with the command output |
| `AccountManager.Panel.ListUsers` | src/sshAccountManager.js:240-243 | one command, the document untouched, resolves with the command output |
| `AccountManager.Panel.Online` | src/sshAccountManager.js:261-313 | one query; `None` exactly when the query rejects or its output does not decode; otherwise both arrays are grouped with the corrected counting of `Presence.Tally` (own keys only, first-appearance order) |
| `AccountManager.Panel.ListAccounts` | src/sshAccountManager.js:412-436 | one query; the parsed listing, or `[]` when the command rejects |
| `AccountManager.Panel.InfoLogin` | src/sshAccountManager.js:355-402 | one query; a rejection is an error; otherwise the close-handler classification, with an unparseable date as an error |
| `Presence.Distinct` | src/sshAccountManager.js:291-294 | the dictionary's keys: exactly the usernames of the array, none twice |
| `Presence.TalliedEntries` | src/sshAccountManager.js:291-307 | one entry per distinct user of the array, no user twice, each count equal to the number of times the user occurs |
| `Presence.TalliedTotal` | src/sshAccountManager.js:291-307 | the counts add up to the array's length |
| `Presence.CountedStep` | src/sshAccountManager.js:293 | one `counts[user] = (counts[user] \|\| 0) + 1` step keeps the keys, the first-appearance order and the counts in agreement with the prefix seen |
| `Presence.Count` | src/sshAccountManager.js:291-294 | the corrected counting loop (a dictionary with no inherited members, keys in first-appearance order): its keys are exactly the users of the array, in first-appearance order, and each count is the user's number of occurrences |
| `Presence.Tally` | src/sshAccountManager.js:291-307 | the corrected counting loop and the `Object.entries` map compute the intended grouping |
| `Presence.Lookup` | src/sshAccountManager.js:293 | as written, `counts[user]` reads the object's own member when it has one |
| `Presence.LookupInherited` | src/sshAccountManager.js:293 | as written, a name the object does not own reads `undefined` exactly when it is neither `__proto__` nor an Object.prototype method |
| `Presence.Increment` | src/sshAccountManager.js:293 | as written, `(v \|\| 0) + 1` gives 1 for `undefined` and `n + 1` for a number, and the result is a number exactly when `v` is `undefined`, a number or `""`; any other value yields text |
| `Presence.JsCounts` | src/sshAccountManager.js:291-294 | as written, after the `forEach` the object's own keys are exactly the users of the array other than `__proto__`; the insertion order lists each key once; without a `__proto__` user it is the first-appearance order |
| `Presence.JsCountsSingle` | src/sshAccountManager.js:291-294 | as written, a one-name array other than `["__proto__"]` leaves that name as the only key, holding `(counts[u] \|\| 0) + 1` read on an empty object |
| `Presence.TalliedSingle` | src/sshAccountManager.js:291-307 | the intended grouping of a one-name array is that name with count 1 |
| `Presence.JsEntries` | src/sshAccountManager.js:301-307 | one entry per key in `order`, carrying the value the object stores for that key |
| `Presence.JsEntriesUsers` | src/sshAccountManager.js:301-307 | the entries name exactly the keys of `order`, none twice |
| `Presence.JsTally` | src/sshAccountManager.js:291-307 | as written, the entries name exactly the users of the array other than `__proto__`, none twice; without a `__proto__` user there is one entry per distinct user |
| `Presence.ConstructorCountIsText` | src/sshAccountManager.js:291-294 | as written, an array `["constructor"]` gives the count `"function Object() { [native code] }1"`, where the intended count is 1 |
| `Presence.ProtoUserDropped` | src/sshAccountManager.js:291-294 | as written, a user named `__proto__` is missing from the snapshot, where the intended snapshot has it with count 1 |
| `Presence.JsBump` | src/sshAccountManager.js:293 | as written, for a username that is not an Object.prototype member and a dictionary agreeing with the counts so far, `(counts[user] \|\| 0) + 1` is the next numeric count |
| `Presence.JsCountedStep` | src/sshAccountManager.js:293 | as written, storing that next count keeps the dictionary's keys, insertion order and numeric counts in agreement with the prefix seen |
| `Presence.JsCountsOrdinary` | src/sshAccountManager.js:291-299 | as written, the dictionary holds the intended numeric counts for arrays of ordinary usernames |
| `Presence.JsTallyOrdinary` | src/sshAccountManager.js:291-307 | for ordinary usernames the grouping as written equals the intended one, entry by entry |
| `Listing.ParseLine` | src/sshAccountManager.js:426-429 | the username has no space; a line with a space is rebuilt by `username + " " + password`; a line without one gives password `""` |
| `Listing.NonBlank` | src/sshAccountManager.js:423-425 | every kept line is non-empty and has no whitespace at either end; no more lines are kept than there were |
| `Listing.NonBlankComplete` | src/sshAccountManager.js:424-425 | every line that does not trim to empty is kept in its trimmed form, and every kept line is the trimmed form of some input line |
| `Listing.NonBlankAppend` | src/sshAccountManager.js:424-425 | the filter works line by line in input order: filtering a concatenation concatenates the two results |
| `Listing.NonBlankSingle` | src/sshAccountManager.js:424-425 | a single line contributes nothing when it trims to empty and its trimmed form otherwise; with `NonBlankAppend` this fixes the kept lines as the trimmed non-blank lines, in input order |
| `Listing.ParseListing` | src/sshAccountManager.js:422-429 | one record per kept line, so no more records than lines of output; `ListingShape` states each record's shape |
| `Listing.ParseAllShape` | src/sshAccountManager.js:426-429 | for trimmed non-empty lines each record has a non-empty space-free username, no line breaks, and rebuilds its line |
| `Listing.ListingShape` | src/sshAccountManager.js:422-429 | blank lines are dropped, and there is one record per kept line, in order. Each record has a non-empty username with no space. Each rebuilds its trimmed line, or has password `""` when that line has no space |
| `Listing.LineRoundTrip` | src/sshAccountManager.js:416 | a printed `"<user> <password>"` line of a listable account trims to a non-empty line and parses back to that account, including an empty password |
| `Listing.Render` | src/sshAccountManager.js:415-417 | the output is empty exactly when there is no account, and otherwise ends with a line break; `ListingRoundTrip` states its parse |
| `Listing.ListingRoundTrip` | src/sshAccountManager.js:414-429 | parsing the remote loop's output gives back the printed accounts, in order |
| `JsText.LeadingSpace` | src/sshAccountManager.js:424 | the count of leading whitespace characters, stopping at the first non-whitespace |
| `JsText.TrailingSpace` | src/sshAccountManager.js:424 | the count of trailing whitespace characters, stopping at the last non-whitespace |
| `JsText.Trim` | src/sshAccountManager.js:424 | the result has no whitespace at either end and is the slice of the input between its leading and trailing whitespace |
| `JsText.Split` | src/sshAccountManager.js:423 | at least one part; no part holds the separator; a string without the separator is its own only part, a string with it has two or more |
| `JsText.Join` | src/sshAccountManager.js:428 | a single part joins to itself; the first part is a prefix of the join; for separator-free parts the join holds the separator exactly when there are two or more parts |
| `JsText.JoinSplit` | src/sshAccountManager.js:427-428 | joining the parts of a split with the same separator rebuilds the string |
| `JsText.SplitJoin` | src/sshAccountManager.js:427-428 | splitting a join of separator-free parts gives back the parts |
| `Expiry.Classify` | src/sshAccountManager.js:374-391 | empty output means "does not exist"; trimmed `never` means "exists, no expiry"; any other text must parse as a date, or the call fails; the login name is passed through |
| `Expiry.NeverRoundTrip` | src/sshAccountManager.js:376-379 | the line `never` classifies as "exists, no expiry" |
| `Expiry.DateRoundTrip` | src/sshAccountManager.js:380-386 | a date line the parser accepts classifies as "exists" with that instant |
| `Expiry.BlankOutputFails` | src/sshAccountManager.js:376-383 | whitespace-only output is not "does not exist": it is an invalid date |
| `Expiry.IsExpired` | src/sshAccountManager.js:404-410 | `false` when the object or its `data` is absent; fails only on date text that does not parse; `true` only for an instant strictly before `now` |
| `Expiry.ExpiredAfterClassify` | src/sshAccountManager.js:404-410 | on what `infoLogin` resolves with, `isExpired` never fails and is true exactly for a dated account whose date is before `now` |
| `Expiry.ExpiredThroughText` | src/sshAccountManager.js:407 | a Date and a text that parses to the same instant give the same verdict |
| `Expiry.ExpiredStays` | src/sshAccountManager.js:409 | an account expired at `now` is still expired at any later time |

## Left out

- The SSH transport of `executarComandoSSH` and the hand-rolled connection in `infoLogin`: each remote call is one effect appended to `Panel.log`, with its outcome given by the `Remote` oracle. Connection, handshake and stream events are I/O.
- The shell scripts inside the commands (`useradd`, `chage`, `chpasswd`, `userdel`, the `ps`/`awk`/`jq` pipeline, the 60-second log window): only the fact that each command is issued, and in what order, is modelled.
- `src/jsonManager.js`: the config store is the `config` field. A read returns it. A write that resolves replaces it, and a write that rejects is taken to leave it unchanged. SFTP and `JSON.parse`/`JSON.stringify` are not modelled.
- `validarJsonV2Ray`: a `serializable` oracle parameter. JSON serialisation is not modelled.
- `uuidv4()`: the new record's `id` is a parameter.
- `new Date(...)`, `isNaN` and the current time: a `DateParser` parameter and a `now` parameter. A `data` field holding an Invalid Date object is not modelled, because `infoLogin` never produces one.
- `Promise.all`: the three commands are issued after the write, in an order given by the `launch` parameter. Their interleaving and the read-modify-write race between concurrent requests are not modelled.
- The JSON decoding of the `online` query's output: a `decode` oracle parameter. A decoded value that is not two arrays counts as a decode failure.
- Client records carry only `id`, `level` and `email`. Any other member of an existing record (such as `flow`) is not represented.
- `Expiry.LoginInfo`: `data: null` and a missing `data` are both `None`, because `isExpired` treats them alike.
- `AccountManager.Panel.Online`: returns the corrected grouping of `Presence.Tally` (own keys only, first-appearance order). It differs from the source in two ways. First, a username that names an Object.prototype member (`constructor`, `__proto__`) is read through the prototype; see Findings. Second, `Object.entries` lists integer-like keys first, in ascending order, so `["bob", "1001"]` gives the entry for `"1001"` before the one for `"bob"`.
- `Presence.Tally`: the corrected grouping. It leaves out the Object.prototype lookup (see Findings) and the integer-like-key-first order of `Object.entries`, as for `Panel.Online`.
- `Presence.Count`: the corrected counting loop over a dictionary with no inherited members. Its keys follow first appearance, not the integer-like-key-first order of `Object.entries`.
- `Presence.JsTally`, `Presence.JsCounts`: keys follow insertion order. JavaScript lists integer-like keys (such as a username `"1001"`) first, in ascending order, so the as-written model does not capture that ordering either.
- `index.js`: the Express routes, sessions, static files and the login check, the expiry-date arithmetic at index.js:71-73, and the call to the non-imported `alterarSenha` at index.js:102 are route plumbing and are not modelled.
- Logging through `console`.

## Findings

| source | as written | input that shows it | evidently intended | confidence | as-written member | corrected member |
|---|---|---|---|---|---|---|
| src/sshAccountManager.js:291-294 | the counts live in a `{}` literal, so `counts[user] \|\| 0` reads a member inherited from Object.prototype | an SSH session list `["constructor"]` (a valid Linux username) | the entry `{user: "constructor", count: 1}`; as written the count is the string `"function Object() { [native code] }1"` | not executed; follows from ECMAScript property lookup | `Presence.ConstructorCountIsText` | `Presence.Tally` |
| src/sshAccountManager.js:291-294 | for the key `__proto__` the read gives Object.prototype and the assignment of a string is ignored | a list `["__proto__"]` | the entry `{user: "__proto__", count: 1}`; as written the user is missing from the snapshot | not executed; follows from ECMAScript `__proto__` accessor semantics | `Presence.ProtoUserDropped` | `Presence.Tally` |
