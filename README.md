# Risk-register editor: login ledger and risk-table rows

This project models, in Dafny, the two pieces of logic of the browser-resident
risk-register editor that carry state:

- **The login service** (`src/services/LoginService.js`). The browser's
  key/value store holds five keys: `attempts`, `blockedUntil`, `authToken`,
  `user` and `expiresAt`. `login` refuses every call while a lockout is
  active. Otherwise it checks the one fixed credential pair (`admin` /
  `123456`). A wrong pair raises the failure counter. The third failure in a
  row starts a 30-second lockout and clears the counter. The right pair
  clears counter and lockout and opens a two-hour session. `isAuthenticated`
  reports whether an unexpired session is present, and clears an expired one
  on the way. `logout` removes the three session keys.
  - `login_service.dfy` has the store as a value (`Store`).
  - The functions `LoginStep`, `CheckStep` and `LogoutStep` say what each
    entry point does to the store.
  - The class `Ledger` holds the five keys as fields. Its methods `Login`,
    `IsAuthenticated` and `Logout` update them one `setItem`/`removeItem` at
    a time, in the source's order. Each is proved equal to its step function.
  - `login_properties.dfy` proves what holds across calls: lockout entry and
    exit, session expiry, idempotent logout and check, and the invariant
    every sequence of calls keeps. That invariant is: the counter stays in
    0..2, the session keys are all present or all absent, and a session
    always belongs to `admin`.
- **The risk-table rows** (`src/App.jsx`). The rows are
  `{key, activo, riesgo, impacto, tratamiento}`. `risk_table.dfy` models the
  row logic of the handlers:
  - `handleDelete`: a filter by key;
  - `handleSave`: find the row with the key and splice the edited row in;
  - `handleOk`: at most five rows from the analysis reply, keyed from the
    `count` state, then `count` advances;
  - `handleRecommendTreatment`: a loop that keeps rows that already have a
    treatment and fills the others from the replies.

  The class `Editor` holds the component's state (`dataSource`, `count`,
  `suggestEnabled`, `isModalVisible`, the draft asset name). Its methods
  keep the table invariant: keys are unique and all below `count`. The one
  exception is `handleSave` with a key that is not in a non-empty table:
  `findIndex` gives -1 and `splice(-1, 1, row)` overwrites the last row with
  that key, which may repeat another row's key or be at least `count`. The
  replies of the HTTP service are inputs of the methods.
- Helpers: `decimal.dfy` renders a key the way a template literal
  `${n}` writes a number, and proves that different numbers get different
  keys. `text.dfy` models `String.prototype.trim`. `optional.dfy` holds the
  `Option` type used for absent keys.

Stored values are modelled as typed optional fields. An absent numeric key
reads as 0, as `parseInt(getItem(k) || '0', 10)` does. A string key counts as
present when it is there and non-empty, as JavaScript's `!token || !user`
tests it.

## Model

| member | source | states |
|---|---|---|
| `LoginService.CeilSeconds` | src/services/LoginService.js:13 | the least whole number of seconds covering a positive number of milliseconds |
| `LoginService.RemainingSeconds` | src/services/LoginService.js:11-14 | during a lockout, the seconds left are at least 1 and cover `blockedUntil - now` to within one second |
| `LoginService.LoginStep` | src/services/LoginService.js:9-39 | a lockout refuses the call with the remaining seconds and changes nothing. Outside a lockout, exactly the right pair opens a session: a `mock-jwt-` token, the user, expiry now + 2 h, counter and lockout removed. A wrong pair raises the counter by one, or on the third failure sets `blockedUntil = now + 30 s` and removes the counter. A failure never touches the session keys. The store invariant is preserved |
| `LoginService.LogoutStep` | src/services/LoginService.js:53-58 | removes the three session keys and leaves `attempts` and `blockedUntil` as they were |
| `LoginService.CheckStep` | src/services/LoginService.js:41-51 | true exactly when token and user are present and `now <= expiresAt` (absent expiry reads 0). A missing token or user changes nothing. An expired session is logged out. The counter and lockout keys never change |
| `LoginService.Ledger.Login` | src/services/LoginService.js:9-39 | the field-by-field updates give the store and outcome of `LoginStep`, and keep the store invariant |
| `LoginService.Ledger.Logout` | src/services/LoginService.js:53-58 | the fields afterwards are `LogoutStep` of the fields before |
| `LoginService.Ledger.IsAuthenticated` | src/services/LoginService.js:41-51 | the answer and the fields afterwards are those of `CheckStep` |
| `LoginProperties.BlockedLoginIgnoresCredentials` | src/services/LoginService.js:11-15 | during a lockout the store and outcome do not depend on the username, password or token |
| `LoginProperties.SessionValidUntilExpiry` | src/services/LoginService.js:18-26 | after a successful login at `now`, counter and lockout are absent, and `isAuthenticated` at `t` says yes exactly when `t <= now + 7 200 000` |
| `LoginProperties.CountRestartsAfterLockout` | src/services/LoginService.js:28-34 | after the call that locks the account, the first wrong attempt at or after the lockout's end is a plain rejection with the counter at 1 |
| `LoginProperties.LogoutIdempotent` | src/services/LoginService.js:53-58 | logging out twice leaves the same store as once, and a following `isAuthenticated` says no and changes nothing |
| `LoginProperties.CheckIdempotent` | src/services/LoginService.js:41-51 | a second `isAuthenticated` at the same instant gives the same answer and the same store |
| `LoginProperties.ThreeFailuresScenario` | src/services/LoginService.js:27-36 | three wrong logins on an empty store reject with the counter at 1, then 2, then lock for 30 s. A right login one second later is throttled with 29 s left |
| `LoginProperties.RunPreservesValid` | src/services/LoginService.js:9-58 | every sequence of calls keeps the counter in 0..2, the session keys all-or-nothing, and the session owned by `admin` with a `mock-jwt-` token |
| `LoginProperties.NoSessionWithoutCredentials` | src/services/LoginService.js:17-36 | without a call presenting the right pair, the session keys stay as they were or are cleared, never created or extended |
| `LoginService.Message` | src/services/LoginService.js:14-35 | only the message of a throttled attempt begins `Demasiados intentos. Intenta en `, and the seconds left can be read back from it |
| `LoginService.MessageInjective` | src/services/LoginService.js:14-35 | the three rejections (and throttles with different seconds) show different messages |
| `Decimal.Show` | src/App.jsx:158 | the key `${n}`: decimal digits only, one digit exactly for `n < 10`, and a leading zero only for 0 |
| `Decimal.ValueAppendDigit` | src/App.jsx:158 | writing one more digit after a numeral multiplies its value by ten and adds the digit |
| `Decimal.ValueOfShow` | src/App.jsx:158 | reading back the decimal key written for `n` gives `n` |
| `Decimal.ShowInjective` | src/App.jsx:158 | different counter values give different keys |
| `Text.Trim` | src/App.jsx:146 | `trim` never lengthens the name, and its result neither starts nor ends with white space |
| `Text.TrimEmptyIffAllSpace` | src/App.jsx:146-147 | the asset name is refused exactly when every one of its characters is white space |
| `Text.TrimStartIsSuffix` | src/App.jsx:146 | dropping leading white space leaves a suffix, all dropped characters are white space, and the rest does not start with one |
| `Text.TrimEndIsPrefix` | src/App.jsx:146 | dropping trailing white space leaves a prefix, all dropped characters are white space, and the rest does not end with one |
| `Text.TrimIsSlice` | src/App.jsx:146 | `trim` returns the slice between the leading and the trailing white space, and that slice neither starts nor ends with white space |
| `RiskTable.Delete` | src/App.jsx:140-142 | no row with the key survives, every other row does, and a table without the key is returned unchanged |
| `RiskTable.DeleteAppend` | src/App.jsx:141 | deleting works piecewise on any split of the table, so the surviving rows keep their order |
| `RiskTable.DeleteKeepsUnique` | src/App.jsx:141 | deleting keeps keys unique |
| `RiskTable.DeleteKeepsBelow` | src/App.jsx:141 | deleting keeps every key below the counter |
| `RiskTable.FindIndex` | src/App.jsx:223 | the index of the first row with the key, or -1 exactly when no row has it |
| `RiskTable.Save` | src/App.jsx:221-227 | on a non-empty table the length is kept, the edited row sits at `SaveIndex` and every other row stays; an empty table becomes the one edited row |
| `RiskTable.SaveIndex` | src/App.jsx:223-225 | the position `splice` writes: the first row with the key, or the last row when no row has it (index -1) |
| `RiskTable.SaveKeepsKeys` | src/App.jsx:221-227 | saving a row whose key is in the table keeps every key where it was |
| `RiskTable.NewRows` | src/App.jsx:154-163 | at most five rows, as many as the items allow. Row `idx` is keyed by `count + idx` and carries the asset, the item's risk and impact, and treatment `"-"` |
| `RiskTable.NewKeys` | src/App.jsx:157-158 | the new keys are the numerals of `count`, `count + 1`, ... in order |
| `RiskTable.AppendKeepsKeys` | src/App.jsx:154-166 | appending the new rows and advancing the counter by their number keeps keys unique and below the counter |
| `RiskTable.Recommend` | src/App.jsx:191-207 | only the treatment may change. A row with a treatment other than `"-"` is kept. Any other row gets the returned treatment, or `"-"` when the reply is empty or the request failed. The result never has an empty treatment |
| `RiskTable.RecommendAll` | src/App.jsx:189-209 | the loop yields one row per input row, in order, each the `Recommend` of that row and its reply |
| `RiskTable.Editor.constructor` | src/App.jsx:114-120 | an empty table, the counter at 1, the button disabled, the dialog closed, an empty draft |
| `RiskTable.Editor.HandleDelete` | src/App.jsx:140-142 | the rows become `Delete` of the old rows, keeping the table invariant |
| `RiskTable.Editor.HandleSave` | src/App.jsx:221-227 | the rows become `Save` of the old rows; a save of an existing key keeps the table invariant |
| `RiskTable.Editor.AppendRows` | src/App.jsx:165-166 | the new rows go after the old ones, the counter advances by their number, and the table invariant is kept |
| `RiskTable.Editor.HandleOk` | src/App.jsx:145-179 | a blank asset changes nothing. A failed or empty reply changes neither rows nor counter and clears the draft. Otherwise one to five rows are appended, the counter advances by their number, the button is enabled, the dialog closes and the draft is cleared. The table invariant is kept |
| `RiskTable.Editor.HandleRecommendTreatment` | src/App.jsx:182-218 | an empty table is left alone with a warning. Otherwise every row becomes its `Recommend`, with count and order kept, and the table invariant is kept |

## Left out

- Time: `login` is one atomic step at one instant `now`. The source reads `Date.now()` at most twice per call, at three places: every call reads it for the lockout test; a throttled call reads it again for the remaining seconds; after a 400 ms `setTimeout`, a successful call reads it again for the expiry and a locking call for `blockedUntil`. The delay and the Promise plumbing are not modelled.
- Token randomness: the part of the token after `mock-jwt-` (from `Math.random`) is an input string.
- String/number conversion of stored values (`parseInt`, `String`) is not modelled. Numbers are stored as integers, and an absent key reads as 0.
- Concurrent access to the store from several browser tabs is not modelled.
- Storage failures (store disabled or full) are not modelled; the source does not handle them.
- The HTTP calls of `src/App.jsx` (`/analizar-riesgos`, `/sugerir-tratamiento`) are inputs. `HandleOk` takes the analysis items, or `None` for a failed request. `HandleRecommendTreatment` takes one reply per row. A reply is ignored for a row that already has a treatment, because no request is sent for it.
- The handlers of `src/App.jsx` are modelled as atomic steps, but `handleOk` and `handleRecommendTreatment` are asynchronous. `handleRecommendTreatment` loops over the `dataSource` it saw when clicked, awaits one request per row, and then replaces the whole table with its result. A delete, an edit or an added asset made while those requests are in flight is therefore undone in the source: a deleted row comes back, an edit is lost, and added rows vanish while `count` stays advanced. The model does not capture these interleavings.
- The outer `catch` of `handleRecommendTreatment` is not modelled: the per-row `try` already catches every request failure.
- `RiskTable.Save`: the spread `{...item, ...row}` is modelled as `row`. The edit cell always passes a whole row (`{...record, ...values}`), so every field of `item` is overwritten.
- `isLoading`/`isRecommending` flags, toasts and all rendering (React, Ant Design, `src/components/Login.jsx`) are not modelled. The toast texts appear only as the `Notice` and `LoginOutcome` values.
- `app.py` (the Flask backend and its model calls) is not part of this model.
