# Discord role reward backend: claim-decision model

This project models the decision logic of the Discord role verifier
backend (`discord-role-verifier-backend/server.js`) in Dafny. A Discord
member who holds an eligible guild role links a wallet and a Bazar profile.
The backend then sends one AO asset transfer to that profile and records
the claim in a SQLite `rewards` table. That table's `UNIQUE(discord_user_id,
role_id)` constraint keeps each (user, role) pair to a single reward.

Every outbound call becomes an input, so the model is deterministic:
- Discord OAuth and the guild-member lookup;
- the Permaweb profile directory;
- the transfer message;
- the SQLite engine.

The model has these modules:

- `JsValues`: JavaScript conventions the handlers rely on. `undefined` is `None`, `||` defaults use string truthiness, and `String.length` counts UTF-16 code units.
- `Catalog`: `ASSET_CONFIG` and the caller-supplied `eligibleRoles` object, both as entry lists in `Object.keys` order. The asset ids come from environment variables and may be unset.
- `Ledger`: the `rewards` table as a map keyed by (user, role), with an AUTOINCREMENT high-water mark. It has the duplicate check, the insert, which fails on NOT NULL and UNIQUE violations, and the schema invariant.
- `History`: `GET /api/rewards`, an optional user filter ordered newest first.
- `Profile`: `GET /api/lookup-profile`, a classifier from an address and the directory's state and answer to the response.
- `Roles`: the two role-selection rules.
- `Auth`: `POST /api/auth/discord`.
- `Verify`: `POST /api/verify-and-reward`, a pure function `(ledger, request, environment) -> (ledger', outcome, effects)`. The effects list holds the transfer message and the claim insert in the order they happen. The environment carries several inputs:
  - whether the signer and Permaweb handles exist;
  - the member lookup reply and the transfer reply;
  - storage read and write faults;
  - an optional insert by a concurrent request, which lands between the duplicate check and the save;
  - the clock.

Behaviour of the code worth knowing, which the model keeps as written:

- Verify picks the requested role if the member holds it. Otherwise it picks the first eligible role in the member's own role order, not in catalog order. Auth picks the first catalog key the member holds. `Roles.TieBreaksDiffer` shows the two rules can disagree.
- In verify, any failed guild-member lookup, including a 404, is a 500 `DATABASE_ERROR`. In auth, a 404 from any of the three Discord calls answers `serverMember: false`.
- The transfer's Quantity tag is the literal "1". The stored `amount` is the catalog's amount.
- If the final insert hits the UNIQUE constraint (a concurrent claim won), the catch block reads `rewardConfig`. That is a `const` scoped to the `try` block, so the read throws a ReferenceError and no response is sent. The model calls this outcome `Unanswered`. It does not claim the `alreadyClaimed` response the catch block was written to send (server.js:603-614).
- The catch block tells errors apart only by their message text (server.js:600). A rejected transfer call whose message contains "UNIQUE constraint failed" therefore also gets no response, after the transfer attempt.
- A directory exception is a 500 that still carries `requiresProfile`. "Service unavailable" covers only an uninitialised client or a client without the lookup method.
- An unset asset-id environment variable does not simulate the reward. The transfer is sent with no target, and the insert then fails its NOT NULL constraint, so the outcome is a 500.

## Model

| member | source | states |
|---|---|---|
| Catalog.ServerCatalog | discord-role-verifier-backend/server.js:132-154 | the server table has three distinct role keys, each worth amount "1" |
| Catalog.ServerCatalogRoles | discord-role-verifier-backend/server.js:132-154 | the server table answers exactly for the Teraflops, Gigaflops and Megaflops role ids |
| Catalog.Lookup | discord-role-verifier-backend/server.js:501 | `table[role]` is undefined exactly when the role is not a key; otherwise it is that key's entry, and the only one when keys are distinct |
| Ledger.CheckExistingReward | discord-role-verifier-backend/server.js:179-204 | on a well-formed table, returns a row exactly when one with that user and role exists, and that row |
| Ledger.SaveRewardRecord | discord-role-verifier-backend/server.js:206-218 | fails with NOT NULL exactly when a required column is missing, and with UNIQUE exactly when the pair is present; otherwise adds one row under a fresh key with the given columns, DIRECT_TO_WALLET for a missing profile id, leaving every other row as it was |
| Ledger.EmptyValid | discord-role-verifier-backend/server.js:160-177 | the newly created table satisfies the schema invariant and holds at most one row per pair |
| Ledger.SaveKeepsValid | discord-role-verifier-backend/server.js:162-176 | an accepted insert keeps the schema invariant and takes an id above every existing id |
| Ledger.ValidIsUnique | discord-role-verifier-backend/server.js:174 | a well-formed table never holds two rows with the same (user, role) |
| Ledger.InsertsKeepValid | discord-role-verifier-backend/server.js:160-177 | after any sequence of inserts, accepted or rejected, the table still satisfies the schema invariant |
| Ledger.InsertsKeepUnique | discord-role-verifier-backend/server.js:160-177 | after any sequence of inserts, accepted or rejected, the table still holds at most one row per (user, role) |
| Ledger.DuplicateRejected | discord-role-verifier-backend/server.js:206-217 | inserting a pair already present is rejected with UNIQUE, and the duplicate check reports the existing row |
| History.InsertNewestFirst | discord-role-verifier-backend/server.js:648-652 | placing a row into a newest-first listing keeps it newest first and adds exactly that row |
| History.ListRewards | discord-role-verifier-backend/server.js:645-663 | lists exactly the rows the WHERE clause admits (all, or the truthy user's), each once, ordered by created_at descending |
| JsValues.Utf16Length | discord-role-verifier-backend/server.js:232 | the JavaScript length lies between the character count and twice it, and is 0 only for "" |
| JsValues.BmpLength | discord-role-verifier-backend/server.js:232 | for text without astral characters, the JavaScript length is the character count |
| Profile.LookupProfile | discord-role-verifier-backend/server.js:221-320 | 400 exactly for an address whose length is not 43; success exactly when the directory is ready and returns a record with a truthy id; the profile then carries each truthy field or its default (`Unknown`, `""`, null, `[]`, the queried address), so no key is missing; every other non-400 answer asks for a profile; "unavailable" exactly when the client is not ready; 500 exactly when the lookup threw; "no profile" (200) exactly when it returned nothing or a record without a truthy id, with `profileExists` telling the two apart |
| Profile.ValidationBeforeDirectory | discord-role-verifier-backend/server.js:224-237 | a malformed address gets the same 400 whatever state the directory is in, so the directory is not consulted |
| Profile.AsciiAddressConsultsDirectory | discord-role-verifier-backend/server.js:231-237 | a 43-character ASCII address is never rejected as malformed |
| Roles.HeldRoles | discord-role-verifier-backend/server.js:395 | the filtered list holds exactly the member roles that are table keys, and its head is the first such role in member order |
| Roles.FirstKeyIn | discord-role-verifier-backend/server.js:400 | finds nothing exactly when no key is held; otherwise the earliest key that is held |
| Roles.AuthSelect | discord-role-verifier-backend/server.js:394-401 | `hasRequiredRole` exactly when the member's roles meet the table keys; `eligibleRole` is then the first table key the member holds, and null otherwise |
| Roles.VerifySelect | discord-role-verifier-backend/server.js:487-499 | no role exactly when no member role is a table key; a requested role that is truthy and held is chosen; any other choice is the first held role in member order |
| Roles.AuthChoiceHonoured | discord-role-verifier-backend/server.js:497-499 | sending auth's `eligibleRole` back as `roleId` makes verify choose that same role |
| Roles.TieBreaksDiffer | discord-role-verifier-backend/server.js:487-499 | without a requested role, auth and verify can choose different roles for the same member |
| Auth.AuthDiscord | discord-role-verifier-backend/server.js:350-437 | 400 exactly without a code; `serverMember: false` with status 200 exactly on a 404; 500 exactly on other failures; otherwise the role flags as in AuthSelect, with `rewardTier` present exactly when the chosen key is truthy, and then taken from the table in force for that key |
| Auth.NoCodeBeforeDiscord | discord-role-verifier-backend/server.js:353-355 | a missing code is answered the same whatever Discord would have replied |
| Auth.EmptyTableNoRole | discord-role-verifier-backend/server.js:357 | a supplied empty `eligibleRoles` object replaces the server table, so no member has a required role or a tier |
| Verify.LedgerAtSave | discord-role-verifier-backend/server.js:512-564 | an insert by a concurrent request between the check and the save only adds rows and keeps the schema invariant |
| Verify.SaveClaim | discord-role-verifier-backend/server.js:563-594 | after the transfer, either exactly one row is added, for the fresh pair, holding the request's user, wallet, profile and role, the catalog's asset, amount and token, and the transfer id, with a receipt repeating them, unconfirmed; or the ledger is unchanged and only the transfer happened |
| Verify.SaveClaimOutcome | discord-role-verifier-backend/server.js:563-622 | the save answers 500 for a NULL asset id or transfer id, no response for a pair already present, and a reward otherwise |
| Verify.Persist | discord-role-verifier-backend/server.js:563-622 | exactly one transfer was sent first; a storage fault is a 500 with only the transfer done; a reward means the claim's row, with the request's wallet and the catalog's asset, is the only row added besides a concurrent insert, every row present at the save is kept as it was, and the receipt carries the stored transfer id, the catalog's amount, token, name and asset, the profile as recipient and the wallet, unconfirmed |
| Verify.Send | discord-role-verifier-backend/server.js:539-562 | a missing Permaweb handle is a 500 with nothing sent or stored; a rejected transfer call, after that one transfer and with the ledger unchanged, is a 500, or no response when its message contains "UNIQUE constraint failed"; a reward carries the full receipt and keeps every row present at the save; the only transfer is the one built from the server catalog's descriptor |
| Verify.Settle | discord-role-verifier-backend/server.js:501-529 | a role missing from the server table is a 500 with nothing sent or stored, and so is a failed duplicate check; an existing row is reported by its tx id and date, with no transfer and no write |
| Verify.VerifyAndReward | discord-role-verifier-backend/server.js:440-624 | the gates run in order (user and wallet, then profile id, then signer, then eligibility); every early exit sends and stores nothing; stored rows are never changed; at most one transfer, to the profile, for the server catalog's asset, quantity "1"; a reward means transfer then insert, for a pair not yet claimed, of the only row the handler adds (besides a concurrent insert), holding the request's wallet and profile and the catalog's asset, amount and token |
| Verify.FailuresBeforeTransfer | discord-role-verifier-backend/server.js:473-546 | a failed member lookup, a role missing from the server table, a failed duplicate check and a missing Permaweb handle each answer 500 DATABASE_ERROR naming that cause, with nothing sent or stored |
| Verify.RewardReceipt | discord-role-verifier-backend/server.js:563-594 | a rewarded request's receipt carries the stored transfer id, the server catalog's amount, token, name and asset, the request's profile as recipient and its wallet, the clock, and confirmed false; every row present at the save, including a concurrent request's, is kept as it was |
| Verify.FailuresAfterTransfer | discord-role-verifier-backend/server.js:544-622 | once the transfer is attempted: a rejected call leaves the ledger untouched and is a 500, or no response when its message contains "UNIQUE constraint failed"; a storage fault or a NULL asset or transfer id is a 500 after the transfer; a UNIQUE violation gets no response; the claim is rewarded exactly when neither id is NULL and the pair is still absent at the save |
| Verify.EmptyTableNoTransfer | discord-role-verifier-backend/server.js:471-499 | a request carrying an empty `eligibleRoles` object is never rewarded, sends nothing and stores nothing, and past the gates is answered "no eligible role" |
| Verify.FirstClaimRewarded | discord-role-verifier-backend/server.js:539-594 | with healthy services and no prior row, the claim is rewarded and recorded with the transfer id |
| Verify.RetryIsAlreadyClaimed | discord-role-verifier-backend/server.js:511-529 | a request that settles on an already-claimed role gets `alreadyClaimed` with the stored tx id and date, and no transfer or write |
| Verify.CatalogAuthority | discord-role-verifier-backend/server.js:471-501 | the values in the caller's `eligibleRoles` cannot change the response; only its keys steer eligibility |
| Verify.RaceKeepsOneRow | discord-role-verifier-backend/server.js:596-614 | when a concurrent insert wins the race, this request has sent its transfer, gets no response, and the ledger holds the winner's single row |
| Verify.AtMostOneRewardPerPair | discord-role-verifier-backend/server.js:511-573 | over any sequential run, each (user, role) is rewarded at most once, and never if already in the ledger |
| Verify.KeyPersists | discord-role-verifier-backend/server.js:564-573 | a claimed pair stays in the ledger for the rest of any run |

## Left out

- HTTP plumbing (Express, CORS, JSON parsing) and response message strings: outcomes are datatypes with their status codes.
- The Discord calls (token exchange, `users/@me`, guild member) are replaced by their replies as inputs.
- Wallet loading, signer creation and the runtime probing in `initializeWallet`: the signer and Permaweb handles are booleans.
- The internals of the directory lookup and `permaweb.sendMessage`: modelled as an input reply and an abstract transfer effect that yields an opaque id.
- The SQLite engine: `CURRENT_TIMESTAMP` is a supplied natural number. `created_at`'s text ordering matches numeric order. The order of rows that share a timestamp is left unspecified.
- Read failures of the history query (its 500 branch) are not modelled.
- A storage write fault is modelled as failing before the constraint checks.
- Real concurrency: one concurrent insert between the duplicate check and the save is modelled, as a sequential step.
- Whether Node then terminates on the ReferenceError of the UNIQUE branch depends on the Node version. The model only states that no response is sent.
- Debug endpoints, the health endpoint and logging. The profile response's `debug` field is reduced to whether a record came back.
- `vui.js`: browser UI and wallet-extension calls.
- JavaScript object corner cases are not modelled:
  - keys on the prototype chain, such as `ASSET_CONFIG["constructor"]`;
  - the rule that integer-like keys below 2^32 are listed first (Discord role ids are larger);
  - non-object values in a caller's `eligibleRoles`, which would throw while logging;
  - request fields that are not strings.
- `new Date()` in the success receipt uses the same supplied clock value as `created_at`.
- Verify.FailuresBeforeTransfer: a failed guild-member request or duplicate-check query is taken never to carry "UNIQUE constraint failed" in its message. Those are an HTTP error and a SELECT error, so it is always a 500 here.
- Ledger.CheckExistingReward: the correspondence between the key lookup and the SQL WHERE clause is stated only for tables that satisfy the schema invariant. Every table the backend produces does, by Ledger.SaveKeepsValid.
