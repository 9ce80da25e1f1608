# QuickCrypt vault core, modelled in Dafny

QuickCrypt is a password vault. It encrypts passwords on the device under a
locally held master key before storing them in a remote `passwords` table.
This project models the two pieces of logic in that app:

- **The vault health check** (`testServerVault`, module `VaultSync`). The app
  fetches every record of the `passwords` table, decrypts each one under the
  master key, and reports `{total, success, fail}`. A record is a success only
  when its decrypt returns normally with a non-empty text. A decrypt that
  throws is a failure, and so is one that yields the empty string. A failed
  query raises its error and produces no report. The AES library call is
  uninterpreted: it is the function-typed parameter `Cipher`, which returns
  `Throws` or `Text(s)`. The counting loop is the method `TestServerVault`.
  Its loop invariants tie it to a reference definition, `Expected`, built
  from two order-preserving filters (`Readables`, `Unreadables`). Lemmas about
  `Expected` state the report's arithmetic. They also show that one record
  adds to exactly one count, that the report of `xs + ys` is the sum of the
  reports of `xs` and `ys`, and that a throwing record does not stop the batch.
- **The start-up step of the root layout** (modules `MasterKey` and
  `RootLayout`). The secret store is a `map<string, string>`. The ensure step
  writes the generated key into the `master_key` slot when the slot is missing
  or holds a falsy (empty) value, and otherwise leaves the store alone. The
  generated key is an input. `Prepare` then records the session and marks the
  layout initialised. `Route` decides what to render: nothing, the auth
  screen, or the tab stack.

`wrappers.dfy` defines `Option` (a JavaScript `null`) and `Result` (a thrown
error) for the other modules.

## Model

| member | source | states |
|---|---|---|
| VaultSync.TestServerVault | lib/sync.ts:4-28 | A query error is re-raised and gives no report. Otherwise the loop's report equals `Expected` on the fetched records (null data read as empty), with `total` equal to the record count and `success + fail == total`. |
| VaultSync.Readables | lib/sync.ts:13-18 | Bookkeeping bound only: the success filter never holds more records than the batch it filters. Which records it holds is stated by `VaultSync.ReadablesExact`. |
| VaultSync.Unreadables | lib/sync.ts:13-21 | Bookkeeping bound only: the failure filter never holds more records than the batch it filters. Which records it holds is stated by `VaultSync.UnreadablesExact`. |
| VaultSync.ReadablesExact | lib/sync.ts:15-18 | A record is in the success filter exactly when it is in the batch and its decrypt returns a non-empty text. |
| VaultSync.UnreadablesExact | lib/sync.ts:15-21 | A record is in the failure filter exactly when it is in the batch and its decrypt throws or returns the empty text. |
| VaultSync.ReadablesAppend | lib/sync.ts:13-22 | Classification is per record: the success filter of `xs + ys` is the success filter of `xs` followed by that of `ys`. |
| VaultSync.UnreadablesAppend | lib/sync.ts:13-22 | The same holds for the failure filter. |
| VaultSync.PartitionCount | lib/sync.ts:13-22 | Each record is counted once, in exactly one of the two filters, so their lengths add up to the number of records. |
| VaultSync.ReportBalanced | lib/sync.ts:9-22 | For any batch, `total` is the record count, `success + fail == total`, and `0 <= success <= total`, `0 <= fail <= total`. An empty batch therefore gives zeros. |
| VaultSync.SingleRecord | lib/sync.ts:14-21 | One record adds 1 to `success` exactly when its decrypt returns a non-empty text, and adds 1 to `fail` otherwise. This covers both a throw and an empty text. |
| VaultSync.ReadablesAppendLength | lib/sync.ts:13-18 | The success count of `xs + ys` is the success count of `xs` plus that of `ys`. |
| VaultSync.UnreadablesAppendLength | lib/sync.ts:13-21 | The failure count of `xs + ys` is the failure count of `xs` plus that of `ys`. |
| VaultSync.NoDataReportsZero | lib/sync.ts:9-13 | For a reply without an error, both a null `data` and an empty array give the report `{0, 0, 0}`. |
| VaultSync.ExpectedAppend | lib/sync.ts:13-22 | The report for `xs + ys` is the component-wise sum of the reports for `xs` and `ys`. |
| VaultSync.ThrowIsolated | lib/sync.ts:14-21 | A record whose decrypt throws counts as one failure. The records before and after it are still classified as they would be on their own. |
| VaultSync.AllReadable | lib/sync.ts:15-18 | If every record decrypts, all of them are successes and none is a failure. |
| VaultSync.NoneReadable | lib/sync.ts:15-21 | If no record decrypts, all of them are failures and none is a success. |
| VaultSync.MixedBatch | lib/sync.ts:9-24 | `c` records that decrypt to a non-empty text, followed by `s` records that do not, give `{total: c + s, success: c, fail: s}`. For example, 7 and 3 give `{10, 7, 3}`. |
| MasterKey.EnsureKey | app/_layout.tsx:16-20 | If the slot holds a non-empty key, the store is unchanged. If the slot is missing or empty, reading it afterwards gives the generated key. Every other slot reads as before, and no slot other than `master_key` is added. If the generated key is non-empty, the slot afterwards holds a non-empty key. |
| MasterKey.EnsureKeyIdempotent | app/_layout.tsx:16-20 | Running the step twice, with any second generated key, leaves the same store as running it once, provided the first generated key is non-empty. |
| MasterKey.EmptyGeneratedKeyIsReplaced | app/_layout.tsx:17-19 | The proviso is needed: if the first generated key is empty, a second run with a non-empty key changes the store. |
| RootLayout.Route | app/_layout.tsx:37-39 | Renders nothing exactly when not initialised, the auth screen exactly when initialised without a session, and the tab stack exactly when initialised with a session. |
| RootLayout.Mounted | app/_layout.tsx:10-11 | The first render, before `prepare` has run, shows nothing. |
| RootLayout.Prepare | app/_layout.tsx:14-28 | If the key read and any needed write resolve, the store is the ensured store, and it holds a key when the generated one is non-empty; if either rejects, the store is untouched. If every awaited call resolves, the layout stops rendering nothing and renders the tab stack exactly when a session was found. If any call rejects, the run stops there and `initialized` and `session` keep their old values. |
| RootLayout.RejectedPrepareRendersNothing | app/_layout.tsx:16-28 | If any awaited call of `prepare` rejects on a freshly mounted layout, the layout keeps rendering nothing. |
| RootLayout.PrepareKeepsKey | app/_layout.tsx:13-20 | Suppose the first app start got through the key step, and either the store already held a non-empty key or the generated key is non-empty. Then a second start leaves the store as the first start left it, whatever it generates and however its calls settle. |

## Left out

- VaultSync.MixedBatch: the model classifies records by whether they decrypt to a non-empty text, not by the key they were encrypted under. Reading "decrypts" as "encrypted under the current key" is the program's empty-text heuristic, not a proved fact. An empty password under the current key counts as a failure. The cipher has no authentication, so a record under a stale key may decrypt to non-empty garbage and count as a success.
- The AES decryption and UTF-8 decoding (`CryptoES.AES.decrypt`, lib/sync.ts:15-17) come from a foreign library. They are the uninterpreted `Cipher` parameter, so nothing is proved about round trips or key isolation of the cipher itself.
- Key generation by `Math.random().toString(36)` (app/_layout.tsx:18) uses floating point and a non-cryptographic random source. The generated key is an arbitrary input string. Two zero draws would make it empty, which is why the idempotence lemmas require a non-empty first key.
- The Supabase query, `getSession` and the auth-state listener with its unsubscribe (lib/sync.ts:6, app/_layout.tsx:23, 30-34) are network I/O. The query reply and the outcome of `getSession` (a rejection or a session) are inputs. The listener's later `setSession` calls are not modelled.
- That the health check only reads records holds by construction: the model has no write path to the table, and `TestServerVault` returns only a report.
- React state, effects and async ordering are reduced to the `Layout` value and the order of the steps inside `Prepare`. `prepare()` is started without `await` or `catch` (app/_layout.tsx:28). The model reads a rejected call as the end of that run; the unhandled-rejection report itself is not modelled.
- RootLayout.Prepare: a rejected `setItemAsync` is modelled as writing nothing. Whether the native store wrote the value before rejecting is not modelled.
- The ensure step calls expo-secure-store directly (app/_layout.tsx:3, 16, 19), and the map stands for that store. The other screens read the key through `lib/secureStore.ts`. On web that wrapper uses `localStorage` instead (lib/secureStore.ts:5-7, 16-18), which this step never writes. So one map stands for both stores only on native; the web split and the wrapper's swallowed `localStorage` errors are not modelled.
- `app/AuthScreen.tsx`, the tab screens, `lib/clipboard.ts`, `lib/supabase.js` and `lib/theme.js` are UI, client setup or constants.
