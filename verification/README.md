# Verified model of foostash

A Dafny model of foostash's versioned secret store, from the SQL statements of the server to the
text its clients print, with proofs about every interleaving, every run and every input.

`dafny verify dfyconfig.toml` checks everything.

## How it is organised

**Server secrets.** `VersionedTables` is a state machine whose steps are single SQL statements of
concurrent READ COMMITTED transactions over a live table and an append-only history table: read the
maximum version, upsert the live row, insert the history row, soft-delete, commit, abort. A
transaction sees committed rows and its own, and holds a key from its first write of it until it
ends. The maximum is read without a lock, so it may be stale by the time it is used. `Replay` is the
simple specification: per key a list of values and a live flag, changed by whole programs one after
the other. `Refinement` proves that every interleaving leaves exactly the tables the specification
gives. `SecretsRepo`, `SecretsService` and `VaultService` are the Go methods as they run: statements
of one transaction with arbitrary steps of all other transactions in between (`others(i)` is what
happens before the i-th statement). `VaultTables` covers the vault, which shares the machine but
never reads a maximum: a fresh vault row always has version 1.

**Clients of versions.** `Watch` and `EnvironmentSync` are the SDK's watch loop and the MCP tool
`environment_sync`; both rest on what `Refinement` proves.

**Local store.** `Store` has the encrypted file with its temporary-file-and-rename save, where a
crash is any state the disk passes through, and the environment manager. `LocalSecrets` has the
service over it, with its history capped at 50 entries.

**Organisations.** `Invites` and `InviteService` (redeeming an invite without a row lock), `Members`
(roles and revocation), `OrgScope` and `ProjectService` (every request acts in its caller's org).

**Text.** `Text`, `StringOrder`, `Dotenv`, `Targets`, `Slug`, `Payload`, `Itoa`.

AES-GCM, JSON, SHA-256, signatures, RFC 3339 timestamps and Unicode lower-casing are function
parameters, constrained only by the law that is needed (opening what was sealed gives it back, a
hash is 64 characters long, and so on). Identifiers and invite tokens are parameters, fresh where
the database generates them; clocks, cancellation, file-system faults and what other clients do are
parameters too. Map iteration order is left open in every loop over a Go map.

## Where the code does not do what one might expect

Each of these is a theorem below.

- Deleting a vault key is final: every later Set or Rollback of it fails on the history constraint
  (`VaultTables.DeletedNeverReturns`, `VaultService.Vault.Set`); such keys are reachable
  (`VaultTables.DeletedKeyReachable`).
- An upsert of a project secret can fail on the history constraint: another transaction writes and
  deletes the key between its read of the maximum and its write (`Refinement.StaleMaximumAborts`;
  that is the only way, by `Refinement.AbortIffWrittenThenDeleted`).
- The guards against demoting or revoking oneself prevent a lockout only if a request is
  authenticated and carried out in one step (`Members.NoLockout`, `Members.StaleRequestsLockOut`).
- Dotenv output loses values with a newline, backslash or double quote, and unquoted values with
  other white space at an edge (`Dotenv.RoundTripIff`).
- The name `export` with a space after it is read as the keyword, so `export = v` sets the empty key
  (`Dotenv.SettingCounts`).
- Cloning a missing local environment succeeds and creates an empty one (`Store.Clone`). Cloning on
  the server copies no secrets (`OrgScope.CloneEnvEffect`, and `OrgScope.CloneDropsSecrets` for a
  source that has one).
- After a local delete versions restart at 1, so a version number may name several retained entries,
  and Rollback takes the oldest (`LocalSecrets.RollbackRestoresDeleted` is an example, and
  `LocalSecrets.RestoresCurrentRunIff` says exactly when the newer one is restored all the same).
- `itoa` has room for 12 characters and prints the most negative integer as a bare sign
  (`Itoa.Itoa`, `Itoa.FitsIff`).

## Model

| member | source | states |
|---|---|---|
| `Refinement.Serializable` | internal/repo/secrets.go:63-169 | After every interleaving of upserts, bulk upserts, deletes and aborts, each key's committed live row and history are those of running the committed programs one at a time in commit order |
| `Refinement.VersionsConsecutive` | internal/repo/secrets.go:82-112 | After every interleaving history versions are exactly 1..n in order, and a live row has version n with the ciphertext and nonce of history row n |
| `Refinement.AbortIffWrittenThenDeleted` | internal/repo/secrets.go:83-110 | The history insert for a key the transaction has not written before violates UNIQUE if and only if, since its maximum was read, others committed a write and later a delete of the key with no write after |
| `Refinement.RepeatedKeyNeverAborts` | internal/repo/secrets.go:63-79 | A key repeated within one bulk never hits the constraint |
| `Refinement.StaleMaximumAborts` | internal/repo/secrets.go:83-110 | A concrete interleaving, for any key and contents, in which an upsert's history insert violates UNIQUE |
| `Refinement.ConflictIffTaken` | internal/migrations/005_secrets.sql:19-29 | The constraint fires exactly if the version written is at most the number of versions the transaction sees |
| `Refinement.StepKeepsInv` | internal/repo/secrets.go:82-112 | Every step keeps the invariant: committed tables as the specification says, locks exclusive, and a stale maximum never larger than the current one |
| `Refinement.DeleteStatement` | internal/repo/secrets.go:157-169 | The soft-delete statement waits for the key's holder if a live row is committed and then clears that row alone; otherwise it ends at once |
| `Refinement.VersionDeterminesRow` | sdk/go/watch.go:74-76 | At any two points of a run a key live with the same version has the same ciphertext and nonce |
| `Refinement.HistoryImmutable` | internal/repo/secrets.go:105-110 | No step rewrites or removes a history row |
| `Replay.StaleIffWrittenThenDeleted` | internal/repo/secrets.go:83-104 | In the specification a key has gained values and is not live exactly if it was put and then deleted for good |
| `SecretsRepo.Repo.QueryMax` | internal/repo/secrets.go:83-89 | After any steps of others the maximum read is the number of versions the transaction sees |
| `SecretsRepo.Repo.ExecUpsert` | internal/repo/secrets.go:90-104 | Bumps the row it finds or inserts a fresh one, touches no other key, and numbers it one past the versions seen when run alone |
| `SecretsRepo.Repo.ExecHistory` | internal/repo/secrets.go:105-111 | Succeeds with a live row of the written version, or ends the transaction |
| `SecretsRepo.Repo.UpsertTx` | internal/repo/secrets.go:82-112 | For every schedule of others it completes the current item and reports the version its live row has, or fails having committed nothing |
| `SecretsRepo.Repo.BulkUpsert` | internal/repo/secrets.go:63-79 | All items land as one commit and exactly the item keys are mapped to their live versions, or nothing is committed; undisturbed it always succeeds for project secrets, and for vault keys never deleted |
| `SecretsRepo.Repo.Upsert` | internal/repo/secrets.go:48-60 | On success the key's history is extended and ends in a row with the given content, which is live, and its number is returned |
| `SecretsRepo.Repo.Delete` | internal/repo/secrets.go:157-169 | Commits a delete after which the key is not live, or commits nothing; NotFound means the key is not live or another delete of it committed meanwhile (the statement may not see the row that replaced it); undisturbed it succeeds exactly for a live key |
| `SecretsRepo.Repo.GetHistoryVersion` | internal/repo/secrets.go:195-211 | Finds version v exactly for 1 <= v <= n, and finds its content |
| `SecretsRepo.Repo.Rollback` | internal/repo/pg.go:47-60 | A failed transaction leaves the committed tables as they are |
| `SecretsRepo.Repo.Commit` | internal/repo/pg.go:47-60 | The transaction's rows become visible at once and nothing else changes |
| `SecretsRepo.PutAppends` | internal/repo/secrets.go:82-112 | One committed put after a state extends that state's history of the key and ends in the put content, live |
| `SecretsService.CheckBulk` | internal/service/secrets.go:78-96 | Accepts exactly batches of 1 to 500 items with distinct nonempty keys, nonempty nonces and ciphertexts of 1 to 65536 bytes |
| `SecretsService.Secrets.BulkSet` | internal/service/secrets.go:77-103 | Rejects every invalid batch untouched; a valid one lands whole or not at all, and always lands when undisturbed |
| `SecretsService.Secrets.Set` | internal/service/secrets.go:53-73 | Rejects empty parts untouched; on success the content is the key's newest version and live; undisturbed it always succeeds with version n+1 |
| `SecretsService.Secrets.Rollback` | internal/service/secrets.go:181-208 | Whatever commits between the read and the write, the new version holds what the target version holds in the final state, earlier versions are as they were and a deleted key is live again |
| `SecretsService.Secrets.RollbackUndone` | internal/service/secrets.go:181-208 | Two Rollback calls, to any target and then to the version that was newest before, with other transactions around and during both, leave that version's content live as the newest version and all earlier history as it was; undisturbed both succeed |
| `VaultTables.VaultConflictIffDead` | internal/repo/vault.go:41-70 | A vault upsert hits the constraint exactly if its key has history and is not live |
| `VaultTables.DeadStaysDead` | internal/migrations/006_vault.sql:19-29 | No run changes the specification state of a deleted vault key |
| `VaultTables.DeletedIsDead` | internal/repo/vault.go:41-70 | Over every run a vault key whose delete was ever committed has history and is not live |
| `VaultTables.DeletedKeyReachable` | internal/repo/vault.go:115-127 | One upsert and one delete reach a key with history that is not live |
| `VaultTables.DeletedNeverReturns` | internal/repo/vault.go:41-70 | Over every run, once a vault key with history is not live its rows never change again |
| `VaultService.Vault.Set` | internal/service/vault.go:41-60 | Admins only; adds the next version, and undisturbed it succeeds exactly for keys that were never deleted; a deleted key's rows stay as they are under every schedule |
| `VaultService.Vault.Delete` | internal/service/vault.go:88-99 | Admins only; leaves the key not live with its history kept; NotFound means the key is not live under every schedule, and undisturbed it succeeds exactly for a live key |
| `VaultService.Vault.Rollback` | internal/service/vault.go:125-151 | Admins only; the new version holds the target version's content; fails on a deleted key for every target, and undisturbed succeeds for every existing version of any other |
| `Watch.PullSnapshot` | sdk/go/foostash.go:147-171 | Fails exactly if some row does not decrypt; otherwise holds the plaintext and version of exactly the live keys |
| `Watch.VersionsEqual` | sdk/go/watch.go:87-97 | Decides equality of version maps, although it only checks one inclusion and the sizes |
| `Watch.EqualVersionsEqualSecrets` | sdk/go/watch.go:74-76 | Two snapshots of one run with equal version maps have equal secrets |
| `Watch.WatchLoop` | sdk/go/watch.go:57-85 | Emits the initial snapshot and then exactly the successful polls whose versions differ from the latest successful poll before, up to the first event that ends the loop |
| `Watch.WatchSound` | sdk/go/watch.go:36-85 | If no event so far ends the loop (a cancellation, or a canceled send of a changed snapshot), the last snapshot emitted after a successful poll has that poll's secrets |
| `Watch.WatchSoundUncanceled` | sdk/go/watch.go:36-85 | In particular, while nothing is canceled every successful poll's secrets are what was last emitted |
| `Watch.RunsUntilEnd` | sdk/go/watch.go:62-84 | The loop runs exactly until the first Done, or the first canceled tick whose versions differ from the latest successful poll before it |
| `Watch.EmitsNews` | sdk/go/watch.go:74-79 | Until then a successful poll is emitted if and only if its versions differ from the latest successful poll before it |
| `Watch.SilentAfterEnd` | sdk/go/watch.go:64-65 | From the event that ends the loop on nothing is emitted |
| `Watch.EmissionsDiffer` | sdk/go/watch.go:74-82 | The initial snapshot comes first and consecutive emissions differ in their version maps |
| `Watch.FailedPollInvisible` | sdk/go/watch.go:67-73 | Dropping a failed poll anywhere in a run changes nothing |
| `EnvironmentSync.PullRemote` | internal/mcpserver/sync.go:132-149 | Fails exactly if a live row does not decrypt; otherwise reads every key's plaintext |
| `EnvironmentSync.Diff` | internal/mcpserver/sync.go:83-95 | Collects exactly the keys whose remote value differs, each once, with sealed content that opens to the file's value |
| `EnvironmentSync.BulkEffect` | internal/repo/secrets.go:63-79 | One committed bulk of distinct keys adds exactly one live version to each of its keys and leaves every other key's rows alone |
| `EnvironmentSync.Sync` | internal/mcpserver/sync.go:44-106 | On success every pair reads back, exactly the returned keys were bumped by one and no other row changed; on failure nothing changed; more than 500 differing keys always fail and an admissible difference always succeeds |
| `EnvironmentSync.SyncIdempotent` | internal/mcpserver/sync.go:74-100 | After a successful sync nothing differs, so a second one uploads nothing |
| `Store.DecodeEncode` | internal/store/store.go:49-114 | Splitting off the 12-byte nonce and opening the rest gives back the saved file |
| `Store.LoadIff` | internal/store/store.go:49-82 | Loading an existing file succeeds if and only if it has at least 12 bytes, the rest opens under the first 12, and the plaintext unmarshals, and then gives that content; a missing file loads as empty; the error tells which step failed |
| `Store.Save` | internal/store/store.go:85-114 | In every state the disk passes through, under every fault, the target is wholly old or wholly new and no other stored file changes; failure leaves it old |
| `Store.CrashSafe` | internal/store/store.go:85-114 | In each such state loading gives the complete old or complete new content, and loading another path what it gave before |
| `Store.LeftoverTmpInvisible` | internal/envs/manager.go:22-46 | A leftover temporary file changes no load and no listing |
| `Store.List` | internal/envs/manager.go:22-46 | Returns exactly the project's environments, strictly ascending |
| `Store.Create` | internal/envs/manager.go:49-61 | Fails with Exists exactly for an existing environment and, barring disk faults, otherwise creates one that loads as empty; no path loads differently |
| `Store.Clone` | internal/envs/manager.go:64-89 | Barring disk faults it succeeds exactly for an absent destination and a readable source; the copy loads as its source did, so a missing source gives an existing, empty environment; every other path loads as before failure changes nothing, and an unreadable source leaves every byte alone |
| `Store.Delete` | internal/envs/manager.go:92-106 | Succeeds exactly for an existing environment unless removing the file fails, and removes exactly it; fails with Missing exactly for an absent one |
| `LocalSecrets.SetLoop` | internal/secrets/service.go:46-70 | For every iteration order the same result: each named key gets its next version and capped history, no other key changes |
| `LocalSecrets.Service.SetAtPath` | internal/secrets/service.go:39-79 | Success stores the file with all pairs set at once; failure keeps the content; other paths keep theirs; an unreadable file fails with the load error and its bytes stay |
| `LocalSecrets.AllSetAt` | internal/secrets/service.go:45-73 | The file version rises by one; a named key's version rises by one or starts at 1; any other key and its history stay |
| `LocalSecrets.FindVersion` | internal/secrets/service.go:189-197 | Finds the oldest retained entry with the target version |
| `LocalSecrets.Service.Rollback` | internal/secrets/service.go:173-224 | Succeeds exactly if an entry with the target version is retained (barring disk faults), and then sets the key to its value; no history, no match and an unreadable file are told apart and change nothing |
| `LocalSecrets.Service.Delete` | internal/secrets/service.go:227-247 | Removes exactly a live key, keeping its history; a key that is not live and an unreadable file fail and change nothing |
| `LocalSecrets.DeletedAt` | internal/secrets/service.go:227-247 | Deleting takes away one live entry, keeps every other entry and all histories and raises the file version by one |
| `LocalSecrets.LocalRefinesLog` | internal/secrets/service.go:39-79 | Over every run the stored history of a key is the last min(50, length) entries of its unbounded log and the live entry is the log's last |
| `LocalSecrets.VersionsRunFromDelete` | internal/secrets/service.go:46-70 | Over every run versions count up from 1 in runs, and a write starts a new run exactly if it is the key's first or the key was deleted after its last write |
| `LocalSecrets.DeadIffDeletedLast` | internal/secrets/service.go:227-247 | A key ever written is not live exactly if some operation deleted it while live and nothing has written it since |
| `LocalSecrets.RollbackIffRetained` | internal/secrets/service.go:173-224 | Without deletes Rollback(v) succeeds if and only if max(1, n-49) <= v <= n, and restores the value set at version v |
| `LocalSecrets.RollbackRestoresOldest` | internal/secrets/service.go:189-223 | In every run Rollback(v) restores the oldest of the last 50 writes that had version v, and fails if there is none |
| `LocalSecrets.RestoresCurrentRunIff` | internal/secrets/service.go:189-223 | With deletes, Rollback(v) restores what the current run of versions holds at v if and only if that write is still retained and the oldest retained write numbered v, if from an earlier run, has the same value |
| `LocalSecrets.RollbackRestoresDeleted` | internal/secrets/service.go:189-223 | After set, delete, set two retained entries are version 1, and Rollback(1) restores the deleted value |
| `Invites.SingleUse` | internal/service/invites.go:99-130 | In every interleaving a token is redeemed at most once |
| `Invites.UsedIffRedeemed` | internal/service/invites.go:99-130 | In every interleaving an invite is stamped if and only if a redemption of its token was committed |
| `Invites.RedeemedUsers` | internal/service/invites.go:99-130 | Every redemption was in time and brought in one user with the invite's org and email, a registered key and, unless edited since, its role; no user came in twice |
| `Invites.NoStrayUsers` | internal/repo/pg.go:47-60 | Every user is a founder or joined by a committed redemption, and every key belongs to a user: a failed redemption leaves nothing |
| `Invites.StepKeepsInv` | internal/repo/invites.go:45-68 | Every statement of any transaction keeps the invariant that pending users have org, email and key to themselves |
| `InviteService.Service.Create` | internal/service/invites.go:43-78 | Succeeds exactly for an admin, a nonempty normalized email, a known role and a new token; adds one unused invite of the caller's org and disturbs nothing |
| `InviteService.Service.Statement` | internal/repo/invites.go:45-68 | With any steps of others before it, a statement advances its transaction or ends it, and commits nothing |
| `InviteService.Service.Consume` | internal/service/invites.go:88-135 | Success commits exactly one redemption creating the invited user with the presented key; failure commits nothing of its own; undisturbed, it succeeds exactly if the invite exists, is unused and unexpired and neither its email nor the key is taken, and otherwise fails with the first check's error |
| `Members.Users.ChangeRole` | internal/service/users.go:47-70 | Succeeds exactly for an admin, one of the two roles, a target in the org and no self-demotion, and then changes the target's role alone (a revoked user stays revoked); each refusal has its own exact condition and changes nothing |
| `Members.Users.Revoke` | internal/service/users.go:73-84 | Succeeds exactly for an admin and another user of the org, and then revokes that user alone; each refusal has its own exact condition and changes nothing |
| `Members.Users.LoadInOrg` | internal/service/users.go:86-98 | Finds exactly the users of the given org |
| `Members.ResolveIff` | internal/service/auth.go:114-132 | A key resolves exactly if it is registered to an unrevoked user, and then to that user with its org and role |
| `Members.ActionTakesEffect` | internal/service/auth.go:114-132 | At its target's next request a revocation turns every key of it away and a new role is in force; other keys resolve as before |
| `Members.KeepsAdminIff` | internal/service/users.go:47-84 | For any caller, however stale, an org keeps an active admin if and only if the action is refused, demotes nobody, or another active admin remains |
| `Members.NoLockout` | internal/service/auth.go:114-132 | Over every sequence of registrations, joins and authenticate-and-act requests, each org has an unrevoked admin with a registered key |
| `Members.StaleRequestsLockOut` | internal/service/users.go:47-84 | With authentication and action apart, two admins can revoke each other and leave the org without one |
| `OrgScope.ServeKeepsInv` | internal/migrations/002_projects.sql:1-18 | Every request keeps the unique indexes, the foreign keys and one set of secret rows per environment |
| `OrgScope.LookupsFind` | internal/service/secrets.go:212-228 | The lookups find exactly the project with the slug in the caller's org and the environment with the slug in that project, and otherwise say which of the two is missing |
| `OrgScope.OnSecretsEffect` | internal/service/secrets.go:53-73 | A secret operation is given the rows of the environment it names; its reply and the environment's new rows are what it makes of them, and nothing else changes |
| `OrgScope.OnSecretsRefused` | internal/service/secrets.go:212-228 | A secret operation that names no environment of the caller's org fails and changes nothing |
| `OrgScope.ReadAfterWrite` | internal/service/secrets.go:122-136 | What one request of an org writes to an environment is what the org's next request reads there |
| `OrgScope.VaultEffect` | internal/service/vault.go:41-85 | Any member reads the org's vault rows, only an admin's write changes them, it is what is read next, and nothing else changes |
| `OrgScope.ListUsersEffect` | internal/service/users.go:30-43 | An admin sees exactly the users of the own org, revoked ones included; nobody else sees any |
| `OrgScope.UserOpEffect` | internal/service/users.go:47-84 | A user request is accepted under the same exact conditions and changes exactly its target's role or revocation |
| `OrgScope.CreateProjectEffect` | internal/service/projects.go:55-93 | Succeeds exactly for an admin and a nonempty slug free in the org; adds the project and its empty `dev`; users, vault, other projects and environments stay; each refusal has its condition |
| `OrgScope.DeleteProjectEffect` | internal/service/projects.go:137-151 | Succeeds exactly for an admin and an existing project; exactly it, its environments and their rows go; each refusal has its condition |
| `OrgScope.OtherOrgsUntouched` | internal/service/projects.go:55-263 | No request changes any row of another org |
| `OrgScope.OnlyOwnOrgMatters` | internal/service/secrets.go:212-228 | A reply and its effect on the caller's org depend only on that org's rows |
| `OrgScope.OrgsIsolated` | internal/service/projects.go:155-164 | Over every run, an org's rows and the next reply to it are what they would be had only its own users called |
| `OrgScope.StaleWriteStaysInOrg` | internal/service/secrets.go:212-228 | A write to an environment looked up before any requests of anybody still changes no row of another org |
| `OrgScope.OnlyAdminsManage` | internal/service/vault.go:41-44 | A caller who is not an admin changes no project, environment, user or vault row |
| `OrgScope.DeleteCascades` | internal/service/projects.go:137-151 | Deleting a project removes it, exactly its environments and exactly their secrets |
| `OrgScope.CreatedWithDev` | internal/service/projects.go:55-93 | A new project resolves at once and has exactly one environment, an empty `dev` |
| `OrgScope.CreateEnvEffect` | internal/service/projects.go:168-188 | Succeeds exactly for an admin, a nonempty slug, an existing project and a free slug; adds one empty environment that the slug resolves to, and every other environment resolves as before and keeps its rows |
| `OrgScope.CloneEnvEffect` | internal/service/projects.go:211-246 | Succeeds exactly for an admin, a nonempty free slug and an existing source; the new environment is empty, the source is unchanged, and the clone shows the source's live secrets exactly if it has none |
| `OrgScope.CloneDropsSecrets` | internal/service/projects.go:211-246 | A source with a live secret whose accepted clone does not have it |
| `OrgScope.DeleteEnvEffect` | internal/service/projects.go:248-263 | Succeeds exactly for an admin and an existing environment; exactly it and its rows go, and every other environment resolves as before |
| `ProjectService.Projects.Create` | internal/service/projects.go:55-93 | Succeeds exactly for an admin and a name whose slug is nonempty and free; then the slug resolves to the new project with an empty `dev` environment and no other secret rows change; a failure changes nothing |
| `ProjectService.Projects.Delete` | internal/service/projects.go:137-151 | Succeeds exactly for an admin and an existing project; its environments are gone and all others keep their rows; a failure changes nothing |
| `ProjectService.Projects.CreateEnvironment` | internal/service/projects.go:168-188 | Adds exactly one empty environment, resolved by the name's slug, and fails untouched exactly if the caller, slug, project or a taken slug forbids it |
| `ProjectService.Projects.CloneEnvironment` | internal/service/projects.go:211-246 | Adds exactly one environment, empty whatever the source holds, and fails untouched exactly if the caller, slug, source or a taken slug forbids it |
| `ProjectService.Projects.DeleteEnvironment` | internal/service/projects.go:248-263 | Removes exactly the named environment with its rows, and fails untouched exactly for a caller who is not an admin or an absent environment |
| `Dotenv.ParseDotenv` | cli/import.go:102-135 | The scanner loop gives the map that `Dotenv.SkippedLine`, `Dotenv.SettingCounts` and `Dotenv.LastLineCounts` characterise line by line |
| `Dotenv.ParseDotenvMcp` | internal/mcpserver/sync.go:151-183 | The second parser gives the same map without the empty key, on every text |
| `Dotenv.SkippedLine` | cli/import.go:113-122 | A line that is blank, begins with # after white space, or has no equals sign adds nothing, whatever stands before and after it |
| `Dotenv.SettingCounts` | cli/import.go:117-132 | A line with white space around an identifier key and a value, exported or not, sets that key to the value less one pair of matching quotes, over what precedes and under what follows; only the name `export` followed by a space is taken for the keyword |
| `Dotenv.LastLineCounts` | cli/import.go:110-112 | A last line counts the same without its newline |
| `Text.TrimSpaceParts` | cli/import.go:112-125 | Trimming takes away exactly the white space at both ends |
| `Dotenv.ShellQuoted` | cli/pull.go:79-84 | Exactly the empty value and values with a blank, tab, quote, dollar or backslash are put in double quotes, escaped so that undoing the backslashes gives the value; others stay as they are |
| `Dotenv.Pull` | cli/pull.go:47-63 | Prints one quoted line per key in strictly ascending order |
| `Dotenv.PrintedLines` | cli/pull.go:54-63 | For newline-free texts the printed text is exactly the lines `key=text` with their prefix, in key order |
| `StringOrder.LessIff` | cli/pull.go:47-51 | The order of printing is dictionary order: a proper prefix first, otherwise the first differing character decides |
| `Dotenv.ValueReadsBack` | cli/pull.go:79-84 | A newline-free value survives quoting, trimming and unquoting if and only if it has no backslash or double quote and is quoted or has no white space at an edge |
| `Dotenv.PrintedReadsBack` | cli/import.go:109-134 | Printed lines with identifier keys and newline-free texts parse to exactly those keys, each with its trimmed and unquoted text |
| `Dotenv.RoundTripIff` | cli/pull.go:47-84 | Importing pulled secrets, in either form, gives the same map if and only if every value survives; a value with a newline never does |
| `Targets.CollectKeys` | internal/targets/docker.go:16-24 | Accepts exactly maps of identifier keys, and sorts them |
| `Targets.RenderEnvFile` | internal/targets/docker.go:15-34 | Fails exactly on a bad key or a line break, with the error the first check gives; otherwise one line per key, ascending |
| `Targets.EnvFileRoundTripIff` | internal/targets/docker.go:15-34 | Parsing the rendered file gives the map back if and only if no value has white space at an edge or is wrapped in matching quotes |
| `Targets.RenderWorkflowEnv` | internal/targets/github_actions.go:17-42 | Fails exactly on a bad key or a value containing the delimiter; otherwise the script of all keys in order |
| `Targets.TrimNewlinesParts` | internal/targets/github_actions.go:33 | Trimming takes away exactly the newlines at the end |
| `Targets.ScriptText` | internal/targets/github_actions.go:34-39 | The script of one secret is the masking loop over the value and the heredoc that appends it, with the key, value and delimiter in their places |
| `Targets.SameScriptSameMap` | internal/targets/github_actions.go:25-41 | Maps whose values do not end in a newline give the same script if and only if they are equal |
| `Targets.BlockUnique` | internal/targets/github_actions.go:33-39 | A block and whatever follows it determine the key, the value and the rest |
| `Targets.SameScriptIff` | internal/targets/github_actions.go:25-41 | Two maps give the same script if and only if they have the same keys and agree after trimming trailing newlines |
| `Slug.SlugifyJoinsWords` | internal/service/auth.go:48-52 | Slugify is: trim, lower-case character by character, and join the words with dashes |
| `Slug.WordsSplit` | internal/service/auth.go:46-51 | A character outside [a-z0-9] separates the words before it from those after it |
| `Slug.OneWord` | internal/service/auth.go:46-51 | Nonempty text of [a-z0-9] is one word |
| `Slug.SlugCanonical` | internal/service/auth.go:48-52 | A slug is dash-joined nonempty words, slugifying it again changes nothing, and trimming the input first changes nothing, so client and server agree on a name's slug |
| `Slug.WordsOfJoin` | internal/service/auth.go:48-52 | A slug determines its words |
| `Slug.NormalizeEnvs` | internal/mcpserver/tools.go:324-339 | The list starts with `dev`, repeats nothing and holds `dev` and exactly the nonempty slugs of the input names |
| `Slug.DedupContents` | internal/mcpserver/tools.go:324-339 | The list starts with `dev`, has no duplicates and holds `dev` and exactly the nonempty slugs |
| `Slug.DedupKeepsOrder` | internal/mcpserver/tools.go:327-337 | Environments keep the order of their first appearance |
| `Slug.NormalizedIdempotent` | internal/mcpserver/tools.go:324-339 | Normalizing a normalized list changes nothing |
| `Payload.PayloadInjective` | internal/sshauth/sign.go:30-34 | Equal payloads mean equal method, path, timestamp and body hash, even when paths contain newlines |
| `Payload.AcceptedIffSame` | internal/sshauth/verify.go:20-37 | A signature good for one payload only is accepted for a request if and only if method, path, timestamp and body hash are the same and the timestamp is within five minutes |
| `Payload.VerifyCases` | internal/sshauth/verify.go:20-37 | A bad timestamp, one off by more than 300 seconds, an undecodable signature and a wrong one are refused in that order, and everything else is accepted |
| `Payload.PayloadLines` | internal/sshauth/sign.go:30-34 | Without line breaks in its parts the payload is the four lines method, path, timestamp, hash |
| `Itoa.WriteDigits` | internal/server/middleware/auth.go:136-142 | Writes the digits at the end of the buffer, or runs off its front exactly if they do not fit |
| `Itoa.Itoa` | internal/server/middleware/auth.go:127-148 | Prints decimal notation exactly if it fits 12 characters and panics otherwise; the most negative integer prints as a sign only |
| `Itoa.FitsIff` | internal/server/middleware/auth.go:131-147 | It fits exactly for integers strictly between -10^11 and 10^12 |
| `Itoa.DigitsDenote` | internal/server/middleware/auth.go:136-142 | The digits denote the integer, without leading zeros |

## Left out

- HTTP routing, handlers, JSON and YAML codecs, cobra commands, prompts, the TUI, the SSH server, billing and limits, the audit log, diff, runner and the merge in the local Pull: plumbing or single passes with only easy properties.
- Cryptography: no secrecy or unforgeability is claimed. JSON replaces invalid UTF-8, which the assumed round trip of `Store.RoundTrips` does not show.
- PostgreSQL beyond the step machine: deadlock victims and canceled statements are one failure, a commit whose outcome is unknown is not modelled, nor are INT overflow, VARCHAR limits, timestamps and `updated_by`.
- SecretsRepo.Repo.ExecUpsert: a statement that finds its key held gives up instead of waiting; that it may wait is covered by the steps of others before it.
- Environment and project deletion in the proofs about versions and Watch: a recreated environment has a new identifier and starts at version 1. OrgScope has the cascade.
- VaultTables: the shared machine takes a read-maximum step before a vault upsert; it reads nothing and only fixes the base of a fresh row's version at 0.
- EnvironmentSync.Sync: stated for a server on which no other transaction runs meanwhile, and for an upload whose reply arrives: if it is lost the tool reports failure although the bulk has landed.
- Watch.WatchLoop: runs over a finite sequence of events; the clamp of the interval and the `PulledAt` time are not modelled.
- Store.Save: a crash is one of the process, so completed writes survive it; power loss without fsync is not modelled. Path cleaning, permissions and directory creation are left out.
- LocalSecrets.SetLoop: `SetAt`, `SetBy` and file timestamps are not modelled.
- Members.NoLockout: stated with authentication and action as one step; `Members.StaleRequestsLockOut` shows that this is needed.
- OrgScope.OrgsIsolated: each request is one step, with what a secret or vault operation does to the rows it finds left open (SecretsService and VaultService have the operations); `OrgScope.StaleWriteStaysInOrg` takes lookup and write apart. Identifiers are generated fresh.
- ProjectService.Projects.Create: display names, timestamps and a concurrent creation that the pre-check misses (the unique index then gives the same error) are not modelled.
- Strings are sequences of code points, so input is valid UTF-8; lower-casing maps code points one by one and fixes slug characters. The scanners' line-length limits (64 KiB and 1 MiB) are not modelled.
- Dotenv.SettingCounts: keys are identifiers, the only ones that are ever printed; a line with another text for a key is parsed but not characterised.
- Targets.RenderWorkflowEnv: the text of the script only, not what a shell running it appends to `$GITHUB_ENV`.
- Payload.AcceptedIffSame: keys and signatures are abstract; parsing a key and decoding a signature are not modelled.
- Slug.NormalizeEnvs: the requests of the project set-up tool around it are left out.
