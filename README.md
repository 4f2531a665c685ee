# Hotspot voucher lifecycle, modelled in Dafny

This project models the voucher lifecycle of a Laravel captive-portal hotspot
billing application that sells WiFi access through M-Pesa and provisions a
MikroTik router. The model covers:

- **tariffs**: admins create, update and delete them;
- **payments**: an STK push starts one, and the gateway's callback settles it
  as paid or failed;
- **vouchers**: a paid payment issues one; admins can also generate them in
  bulk;
- **redemption**: at the portal, a voucher code logs the client in through
  the router, with a rollback when the router refuses;
- **session sync**: the router's active list is copied into the
  `user_sessions` table.

Everything is modelled as sequential operations on two states:

- the application database (`Persistence.Database`), whose tables are held as
  a `Tables` value;
- the router (`MikroTik.MikroTikService`), which holds hotspot user profiles,
  hotspot users, the active list and the logins it accepted.

Each controller action is a method on these objects. Its postcondition equates
the new state with a pure function of the old state: `Redeem`, `StartPayment`,
`Settle`, `GenerateEffect`, `StoreEffect`, `UpdateEffect`, `DestroyEffect`,
`UpsertAll`, `CreateProfileOn`, `AddUserOn` and `RemoveUserOn`. The properties the
application relies on are proved about those functions. The inputs are:

- the clock `now`, as integer seconds;
- the random voucher codes;
- whether each router call succeeds;
- what the payment gateway answered.

Files:

- `common.dfy`: Option, a request key that is missing or present (possibly
  null), `->first()` as `FirstWhere`, ASCII character classes,
  PHP truthiness, decimal strings.
- `models.dfy`: the four records, the voucher expiry rule and the voucher code
  shape.
- `store.dfy`: the tables, their integrity invariant, and the `Database`
  object.
- `mikrotik.dfy`: the router parameter strings, the router tables, the service
  class and the session sync loop.
- `hotspot_auth.dfy`: voucher redemption.
- `payments.dfy`: phone validation, payment creation, the callback and the
  status poll.
- `vouchers.dfy`: bulk generation and the listing's status and search filters.
- `tariffs.dfy`: the tariff validation rules, store, update and destroy.

## Model

| member | source | states |
|---|---|---|
| Models.ExpiryFor | app/Http/Controllers/PaymentController.php:135-137 | A new voucher expires strictly after `now`. It expires `duration_minutes` minutes later when that value is truthy, otherwise 30 days later. |
| Models.VoucherCode | app/Http/Controllers/Admin/VoucherController.php:60 | `Str::upper(Str::random(10))` has 10 characters, all of them `A-Z` or `0-9`, and upper-casing it again changes nothing. |
| Models.IssuedVoucherLifetime | app/Http/Controllers/Hotspot/AuthController.php:52-56 | An issued voucher is not expired at the moment of issue. It counts as expired at a later time exactly when that time is past its expiry. |
| Persistence.EmptyTables | database/migrations/2026_01_28_133557_create_payments_table.php:14-22 | A freshly migrated database satisfies the table invariants: tariffs keyed by id, increasing payment ids, unique `transaction_id`, and every payment's tariff present. |
| MikroTik.ProfileNameInjective | app/Services/MikroTikService.php:102 | `hotspot-<id>` names different tariffs differently. |
| MikroTik.WithUnitRoundTrip | app/Services/MikroTikService.php:37 | A number followed by a unit letter (`30m`, `5M`) reads back as that number. |
| MikroTik.RateLimitRoundTrip | app/Services/MikroTikService.php:116 | The rate limit `<up>k/<down>k` reads back as the (upload, download) pair. |
| MikroTik.MegabytesRounded | app/Services/MikroTikService.php:41 | `round(bytes / 1048576)` is the nearest whole number of megabytes, rounding halves up. |
| MikroTik.ProfileParameters | app/Services/MikroTikService.php:102-120 | The profile is named `hotspot-<tariff id>`. Its rate limit reads back as (upload, download). A session timeout is present iff the duration is truthy, and then reads back as the duration in minutes. |
| MikroTik.UserParameters | app/Services/MikroTikService.php:31-43 | The hotspot user's name and password are the voucher code, and its profile is the tariff's profile name. `limit-uptime` is present iff the duration is truthy, and reads back as the duration. `limit-bytes-total` is present iff the data limit is truthy, and reads back as the rounded megabytes. |
| MikroTik.LoginRequestFor | app/Services/MikroTikService.php:137-143 | The login carries the user name and password. It carries `mac-address` iff the MAC string is truthy, and then carries that string. |
| MikroTik.CreateProfileOn | app/Services/MikroTikService.php:99-129 | The result is the router's success. A failed call changes nothing. Existing profiles are never changed, and at most one profile is added. After a successful call the profile named `hotspot-<id>` exists. When that name was already present nothing changes. A profile that is added is the tariff's profile. |
| MikroTik.CreateProfileTwice | app/Services/MikroTikService.php:105-111 | Two calls leave the same profiles as one call that succeeds when either of them did. |
| MikroTik.CreateProfileKeepsNamesUnique | app/Services/MikroTikService.php:105-122 | Create-if-absent never introduces a second profile with the same name. |
| MikroTik.RemoveUserOn | app/Services/MikroTikService.php:57-80 | Without a user of that name, nothing changes. Otherwise only the first match is removed and the rest keep their order. A failed call changes nothing. |
| MikroTik.RemoveUserTwice | app/Services/MikroTikService.php:61-73 | When user names are unique, removing a user twice leaves the same users as removing it once. |
| MikroTik.AddUserOn | app/Services/MikroTikService.php:27-52 | The result is the router's success. A failed call changes nothing, and a name the router already has adds nothing. Otherwise exactly the voucher's hotspot user is appended, so after a successful call a user of that name exists. Existing users are kept. |
| MikroTik.AddUserKeepsNamesUnique | app/Services/MikroTikService.php:27-52 | Adding a hotspot user never introduces a second user with the same name. |
| MikroTik.RemoveUndoesAdd | app/Services/MikroTikService.php:27-80 | Adding a voucher's user that the router did not have and then removing it leaves the users as they were. |
| MikroTik.Upsert | app/Services/MikroTikService.php:162-173 | `updateOrCreate` keyed by (user or `""`, MAC or `""`). The first row with the key gets the entry's address, counters and `started_at = now - uptime`, and every other existing row, later duplicates of the key included, is untouched. One open row is appended iff no row has the key. Every row's key and `ended_at` are kept. |
| MikroTik.RowForSameKeys | app/Services/MikroTikService.php:162-166 | The row found for a key depends only on the rows' keys. |
| MikroTik.RowForAppend | app/Services/MikroTikService.php:162-166 | Appending a row under another key does not move where a key is found. |
| MikroTik.SyncKeepsRows | app/Services/MikroTikService.php:157-175 | Sync never removes a row and never closes a session (`ended_at`). It leaves rows whose key the router did not list untouched. It adds at most one open row per entry, each under a listed key. |
| MikroTik.SyncMirrorsRouter | app/Services/MikroTikService.php:157-175 | After sync, the first row with a key shows what the last entry listed under that key reported. `started_at` is overwritten on every run. |
| MikroTik.SyncCoversListed | app/Services/MikroTikService.php:157-175 | After sync, every key the router listed has a row. |
| MikroTik.SyncOverKnownKeysAddsNoRows | app/Services/MikroTikService.php:162-173 | A sync in which every listed key already has a row adds no row. |
| MikroTik.SyncTwiceAddsNoRows | app/Services/MikroTikService.php:157-175 | Running sync a second time over the same active list adds no row. |
| MikroTik.MikroTikService.AddUser | app/Services/MikroTikService.php:27-52 | The users and the result are those of `AddUserOn`. |
| MikroTik.MikroTikService.RemoveUser | app/Services/MikroTikService.php:57-80 | The users and the result are those of `RemoveUserOn`. |
| MikroTik.MikroTikService.GetActiveSessions | app/Services/MikroTikService.php:85-94 | Returns the router's active list, or `[]` when the call fails. |
| MikroTik.MikroTikService.CreateProfile | app/Services/MikroTikService.php:99-129 | The profiles and the result are those of `CreateProfileOn`. |
| MikroTik.MikroTikService.LoginUser | app/Services/MikroTikService.php:134-152 | A successful login records the request and returns true. A failed one changes nothing and returns false. |
| MikroTik.MikroTikService.SyncSessions | app/Services/MikroTikService.php:157-175 | The loop's effect is one upsert per active entry, in list order. A failed fetch writes nothing. |
| HotspotAuth.Redeem | app/Http/Controllers/Hotspot/AuthController.php:35-91 | Gives each outcome iff its condition: blank code; no unused voucher with the upper-cased code, even if it is also expired; expired; a `mac` sent as null for an unused, unexpired voucher. That last case is a server error that leaves the voucher marked used, with no router call and no session. Every other refusal, the rollback included, leaves the tables unchanged. The router is asked only about an unused, unexpired voucher, with the code as user name and password and the MAC defaulting to `""`. Success means the router accepted. Success marks exactly that voucher used and adds one session row (MAC defaulting to `unknown`, started now). No voucher goes from used back to unused. |
| HotspotAuth.RetryAfterRollback | app/Http/Controllers/Hotspot/AuthController.php:68-77 | After the router refuses, the same code can be redeemed again at once. |
| HotspotAuth.NullMacBurnsVoucher | app/Http/Controllers/Hotspot/AuthController.php:58-66 | After a null `mac` the voucher stays used, with no session and no router call. A retry with the same code does not find that voucher, and is refused as invalid or used when no other unused voucher has the code. |
| HotspotAuth.Run | app/Http/Controllers/Hotspot/AuthController.php:35-91 | A run of login requests gives one redemption per request. The first is applied to the initial tables, and each later one to the tables the previous one left. |
| HotspotAuth.UsedNeverConsumed | app/Http/Controllers/Hotspot/AuthController.php:41-43 | A voucher that is already used is never consumed by any later request. |
| HotspotAuth.EachVoucherConsumedAtMostOnce | app/Http/Controllers/Hotspot/AuthController.php:41-85 | In a sequential run, two successful requests never consume the same voucher row. |
| HotspotAuth.Login | app/Http/Controllers/Hotspot/AuthController.php:35-91 | The action marks the voucher used, calls the router, and rolls back on refusal; a null `mac` fails before the call, with no rollback. Its new tables, its answer and the router's recorded logins are those of `Redeem`. |
| Payments.PhoneMatchesExactly | app/Http/Controllers/PaymentController.php:41 | The phone rule accepts exactly `254`, then `1` or `7`, then eight digits, optionally followed by one final newline. |
| Payments.AmountFor | app/Http/Controllers/PaymentController.php:46 | The amount is the price truncated to whole shillings. |
| Payments.StartPayment | app/Http/Controllers/PaymentController.php:38-94 | An invalid phone or an unknown tariff creates nothing. A payment row is created iff the push succeeded with a checkout id that is not yet taken. That row is pending, via `mpesa`, for the truncated price, with the checkout id as `transaction_id`. After validation, a declined push answers 400 iff the gateway declined, with its message or `Payment initiation failed`; every other failure answers 500. Only a created row changes the tables, and the table invariants are kept. |
| Payments.ReceiptOf | app/Http/Controllers/PaymentController.php:121-122 | When some metadata item is named `MpesaReceiptNumber`, the receipt is the value of the first one. It is null when there is no such item. |
| Payments.Settle | app/Http/Controllers/PaymentController.php:99-152 | Without a body (a missing or falsy `stkCallback`), or for an unknown or null checkout id, nothing changes. A non-empty body without `CheckoutRequestID`, or a found payment's body without `ResultCode`, is a server error that changes nothing. Otherwise only that payment row changes. `ResultCode` 0 makes it paid with the receipt, all its other columns kept, and issues exactly one voucher for its id and tariff, expiring by the tariff's rule. Any other code makes it failed and issues no voucher. Tariffs and sessions are untouched, and the table invariants are kept. |
| Payments.TransactionLookupIgnoresOtherFields | app/Http/Controllers/PaymentController.php:111 | Where a checkout id is found depends only on the transaction ids. |
| Payments.SettleIgnoresStatus | app/Http/Controllers/PaymentController.php:110-148 | The callback's answer does not depend on the payment's current status, and neither does its effect when `ResultCode` is present, so a failed payment can become paid. |
| Payments.DuplicateSuccessIssuesTwoVouchers | app/Http/Controllers/PaymentController.php:119-138 | A success callback delivered twice issues two vouchers for the same payment. |
| Payments.Status | app/Http/Controllers/PaymentController.php:157-180 | Answers `not_found` iff no payment has that checkout id. Otherwise it reports that payment's status, amount and phone. A voucher code is reported iff the payment is paid and some voucher carries its id; the code is the first such voucher's. |
| Payments.StatusAfterFirstSuccess | app/Http/Controllers/PaymentController.php:119-138 | After the first success callback, polling reports `paid` with the code of the voucher that callback issued. |
| Payments.Initiate | app/Http/Controllers/PaymentController.php:38-94 | The new tables and the answer are those of `StartPayment`. |
| Payments.Callback | app/Http/Controllers/PaymentController.php:99-152 | The new tables and the reply are those of `Settle`. When a voucher is issued, the router's users are those of `AddUserOn` for the voucher's code and tariff. |
| VoucherAdmin.Listed | app/Http/Controllers/Admin/VoucherController.php:19-35 | The listing shows exactly the vouchers that pass the status filter (`used`, `unused`, or `expired`: set and in the past; any other value keeps all) and the search filter. Each of them appears as often as in the table. |
| VoucherAdmin.LikeAnything | app/Http/Controllers/Admin/VoucherController.php:34 | `%` matches every code. |
| VoucherAdmin.LikePrefix | app/Http/Controllers/Admin/VoucherController.php:34 | A wildcard-free word followed by `%` matches exactly the codes that start with it. |
| VoucherAdmin.LikeSuffix | app/Http/Controllers/Admin/VoucherController.php:34 | A leading `%` lets the rest of the pattern match any suffix. |
| VoucherAdmin.SearchIsSubstring | app/Http/Controllers/Admin/VoucherController.php:33-35 | For a search term without `%` or `_`, the search keeps exactly the codes that contain the term. |
| VoucherAdmin.ExpiredOverlapsUsedAndUnused | app/Http/Controllers/Admin/VoucherController.php:22-30 | An expired voucher is listed under `expired` and also under `used` or `unused`. |
| VoucherAdmin.GenerateEffect | app/Http/Controllers/Admin/VoucherController.php:48-70 | A request is refused iff the tariff is unknown or the quantity is outside 1..100; a refusal changes nothing. Otherwise exactly that many vouchers are appended after the existing ones. Each is for the tariff, attached to no payment, unused, and expires by the tariff's rule. Nothing else changes. |
| VoucherAdmin.CodeFindsItself | app/Http/Controllers/Admin/VoucherController.php:33-35 | Searching for an issued voucher code finds that code, since issued codes contain no wildcard. |
| VoucherAdmin.GeneratedAreListedUnused | app/Http/Controllers/Admin/VoucherController.php:22-35 | Each generated voucher is listed under `unused` when searched by its own code, and is not listed under `expired` at the moment of generation. |
| VoucherAdmin.GenerateAllowsDuplicateCodes | app/Http/Controllers/Admin/VoucherController.php:58-66 | When the generator repeats an existing code, two vouchers end up with it. |
| VoucherAdmin.Generate | app/Http/Controllers/Admin/VoucherController.php:48-70 | The loop's new tables and the reply are those of `GenerateEffect`. |
| TariffAdmin.TariffFrom | app/Http/Controllers/Admin/TariffController.php:45-54 | A validated form becomes a row holding exactly the submitted values; an optional column not sent, or sent as null, is null. |
| TariffAdmin.UpdatedTariff | app/Http/Controllers/Admin/TariffController.php:78-87 | An update keeps the id and takes the submitted required columns. An optional column takes the submitted number or null, and keeps its old value when its key was not sent. |
| TariffAdmin.UpdateWithEveryKeyReplacesRow | app/Http/Controllers/Admin/TariffController.php:78-87 | With both optional keys sent, the updated row is the row a store of the same form would create. With neither sent, it differs from that row only in keeping the old optional columns. |
| TariffAdmin.ValidatedDuration | app/Http/Controllers/Admin/TariffController.php:48-49 | Because 0 is rejected, a stored duration or data limit is truthy iff a number was given. Then vouchers expire after exactly that many minutes, and the router profile has a session timeout exactly then. |
| TariffAdmin.StoreEffect | app/Http/Controllers/Admin/TariffController.php:43-61 | A form is refused iff it breaks a rule: name blank or longer than 255; price negative; duration or data limit below 1; either speed missing or below 1. A valid form becomes a new row under the next id. The invariants are kept. |
| TariffAdmin.Store | app/Http/Controllers/Admin/TariffController.php:43-61 | The new tables are those of `StoreEffect`. After a save the router's profiles are those of `createProfile` for the new tariff, whose result is ignored. |
| TariffAdmin.UpdateEffect | app/Http/Controllers/Admin/TariffController.php:76-94 | An unknown id gives 404, and a form that breaks the same rules is refused; both change nothing. The row is saved iff the id is known and the form valid, rewritten as `UpdatedTariff` says and keeping its id. The invariants are kept. |
| TariffAdmin.Update | app/Http/Controllers/Admin/TariffController.php:76-94 | The new tables are those of `UpdateEffect`. After a save the router's profiles are those of `createProfile`, whose result is ignored. |
| TariffAdmin.UpdateKeepsFirstProfile | app/Http/Controllers/Admin/TariffController.php:87-90 | After a store, the router holds the profile for the stored parameters. A later update leaves that profile unchanged, whatever it changes in the tariff. |
| TariffAdmin.Cascade | database/migrations/2026_01_28_133557_create_payments_table.php:21 | Deleting a tariff deletes exactly its payments; the rest keep their order and the payment invariants. |
| TariffAdmin.DestroyEffect | app/Http/Controllers/Admin/TariffController.php:99-101 | An unknown id gives 404 and changes nothing. The tariff is deleted iff its id is known: then the tariff row and exactly its payments are deleted, nothing else changes, and the invariants are kept. |
| TariffAdmin.DestroyTwice | app/Http/Controllers/Admin/TariffController.php:99-101 | No payment refers to a deleted tariff, and deleting it again gives 404. |
| TariffAdmin.Destroy | app/Http/Controllers/Admin/TariffController.php:99-105 | The new tables are those of `DestroyEffect`. The router is not touched. |

## Left out

- The RouterOS API client, its connection and its wire protocol
  (app/Services/MikroTikService.php:14-22): each router call is a state
  transition whose success is a parameter.
- The router's active list is an input. It changes only through the router's
  own bookkeeping, so a successful login is recorded as an accepted request
  rather than as a new active entry.
- The M-Pesa STK push HTTP call and its response parsing: only its outcome
  (accepted with or without a checkout id, declined with an optional message,
  or an exception) is an input.
- The `HOTSPOT-<random>` account reference, which is only sent to the gateway.
- `Str::random` and `now()`: voucher codes and the clock are parameters.
- Bulk generation takes the random strings for the largest batch (100) up
  front.
- Timestamps (`created_at`, `updated_at`) and the ordering they drive
  (`latest()`), pagination, Inertia rendering, redirects, flash messages,
  logging and CSRF are not modelled.
- Concurrency: the non-atomic read-then-update of `used` in `login` is modelled
  sequentially.
- Decimal prices are integer cents, so the truncating `(int)` cast becomes
  division by 100.
- `round()` on a float is modelled exactly as round-half-up on integers; float
  precision for very large byte counts is not modelled.
- RouterOS reports `uptime` in its own duration format (e.g. `1h2m3s`); the
  model takes it as a number of seconds.
- Database collation is not modelled: code lookups and `LIKE` compare
  characters exactly, with no case folding and no trailing-space padding.
  `LIKE`'s backslash escape is not modelled either.
- The vouchers migration is not part of this model. Deleting a tariff
  therefore leaves its vouchers and sessions in place, and voucher codes carry
  no unique index.
- Request middleware (`TrimStrings`, `ConvertEmptyStringsToNull`): form fields
  are taken as delivered.
- A missing request field and one sent as null are kept apart only where the
  source treats them differently: the login's `mac`, the callback's
  `CheckoutRequestID` and `ResultCode`, and a tariff's optional columns.
  Elsewhere a null field is treated like a missing one. A `ResultCode` that is
  not an integer is carried as null, and is treated as a failure.
- Payments.Settle: the callback body `None` stands for every `stkCallback`
  PHP treats as false (missing, null, `{}`, `[]`, `""`, `0`, `"0"`), which is
  acknowledged with nothing changed. A present body lacking
  `CheckoutRequestID` is a non-empty object, and fails with a server error.
- A null `CheckoutRequestID` matches no payment. Every payment row is created
  with the gateway's checkout id, so none has a null `transaction_id`.
- Whether the RouterOS client raises on a `!trap` reply (such as a duplicate
  user name) is not modelled. Each call's success is the router flag, and a
  name the router already has adds no user.
- `now()` is read once per action. Bulk generation and sync read it once per
  row, and the model gives every row of one action the same instant.
- `string|max:255` counts characters of the name as delivered; multibyte
  length rules are not modelled.
- `app/Http/Controllers/Admin/ReportController.php`,
  `app/Http/Controllers/PublicController.php`, the
  `app/Console/Commands/SyncHotspotSessions.php` wrapper and
  `config/services.php` are not part of this model.
- Tariff `index`, `create`, `edit` and voucher `show` only render views and
  are not modelled.
