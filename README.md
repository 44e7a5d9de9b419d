# Item service: a Dafny model of the item store and its token gate

The service (`src/main.rs`, Rust with actix-web) keeps two shared lists in
memory. The first is a list of items `{id, name, price}`, loaded at startup
from `items.json` and written back after every mutation. The second is a
list of users `{id, email, password, token}` filled by registration. Clients
create, list, fetch and bulk-patch items. Creating and patching require an
`Authorization: Bearer <token>` header whose token some registered user holds.

The model takes every handler as one atomic step on one state object,
because each handler holds its locks for the whole operation. The state is
the class `Service.AppState`, with the fields `items` and `users`. The
handlers are its methods. Pure modules hold what those methods are proved
against:

- `Types` holds the records, the patch, and the error responses. There is
  one error per distinct message the handlers send.
- `ItemStore` holds id assignment (`MaxId`, `NextId`) and first-match lookup
  (`Find`). It also holds the bulk patch twice. `ApplyPatch` applies the ids
  one by one, as the handler's loop does. `BulkPatched` is a declarative
  reference definition. `ApplyPatchMeetsSpec` proves the two equal. The ids
  a bulk update reports are given by `FoundIds`.
- `Decimal` holds `format!("{}", n)` for an unsigned integer, and the parser
  that inverts it.
- `UserDirectory` holds the issued token `"token" + id`. It also holds the
  shape every sequence of registrations leaves (`WellFormed`), the
  first-match login decision (`LoginOutcome`), and the token check
  (`TokenValid`).
- `Auth` holds `extract_token` and the two-step gate both mutating handlers
  run (`Authorize`).
- `Snapshot` holds what startup reads from the snapshot file and what a save
  leaves in it.

Parameters stand in for everything the core does not compute itself:

- The outcome of writing the snapshot is the `saved` flag of `CreateItem`
  and `UpdateItems`.
- The bcrypt hash of the registered password is the `hashed` argument of
  `Register`. bcrypt salts each hash at random, so it is not a function of
  the password.
- Password verification is the `verify` function passed to `Login`.
- JSON encoding and decoding are the `encode`/`decode` functions of
  `Snapshot`.
- Prices are the 64 bits of the `f64`, because the service only copies them.
- A header value is its bytes. The rule the http crate applies when
  `to_str` reads those bytes as text (visible ASCII or tab) is written out
  in `Auth.ToStr`.

Three choices follow the code as it stands:

- A create or a patch changes memory before the save. A failed save answers
  500 and does not roll the change back (src/main.rs:103-106 and 140-154).
- A snapshot that does not decode starts an empty store
  (`unwrap_or_default`, src/main.rs:42). It does not stop the service.
- Duplicate emails are accepted at registration. Login is decided by the
  first user with the email.

## Model

| member | source | states |
|---|---|---|
| ItemStore.MaxId | src/main.rs:102 | the result is at least every id in the store, is the id of some item when the store is non-empty, and is 0 for an empty store |
| ItemStore.NextId | src/main.rs:102 | the assigned id is 1 in an empty store, exceeds every existing id, and is one more than some existing id otherwise |
| ItemStore.NextIdIsFresh | src/main.rs:102 | no item already has the assigned id |
| ItemStore.CreatePreservesUniqueIds | src/main.rs:101-103 | appending the created item to a store with unique ids keeps the ids unique |
| ItemStore.CreatePreservesIncreasingIds | src/main.rs:101-103 | appending the created item keeps ids strictly increasing along the store |
| ItemStore.IncreasingIdsAreUnique | src/main.rs:102 | strictly increasing ids are unique |
| ItemStore.NextIdAfterLast | src/main.rs:102 | in a store with increasing ids, the next id is the last item's id plus one |
| ItemStore.CreateAll | src/main.rs:101-103 | creates one after another append one item each and leave the earlier items as they were |
| ItemStore.CreateAllIds | src/main.rs:101-103 | creates that continue a store with ids 1..n assign n+1, n+2, ... in order |
| ItemStore.CreatesFromEmpty | src/main.rs:101-103 | k creates on an empty store assign the ids 1..k in order, so no id is ever reused |
| ItemStore.Find | src/main.rs:120 | the result is the position of the first item with the id; it is None exactly when no item has it |
| ItemStore.FindSameIds | src/main.rs:141 | lookup depends only on the ids, so patching names and prices never changes what a later lookup finds |
| ItemStore.HasIdSameIds | src/main.rs:141 | two stores with the same ids at the same positions hold the same ids |
| ItemStore.PatchedIdempotent | src/main.rs:142-147 | writing a patch's present fields twice equals writing them once |
| ItemStore.BulkPatchedKeepsIds | src/main.rs:140-150 | a bulk patch changes no id, no length and no order |
| ItemStore.BulkPatchedUntouched | src/main.rs:140-150 | an item whose id was not requested is unchanged |
| ItemStore.BulkPatchedAbsentFields | src/main.rs:142-147 | an absent name leaves every name as it was, and an absent price leaves every price |
| ItemStore.BulkPatchedHit | src/main.rs:141-148 | for each requested id that exists, the first item with it takes the patch's name and price where present |
| ItemStore.BulkPatchedUnique | src/main.rs:141-148 | when ids are unique, every item whose id was requested takes the patch |
| ItemStore.BulkPatchedStep | src/main.rs:140-149 | one more requested id patches only the first item with it, and has no effect when no item has it |
| ItemStore.ApplyPatchStep | src/main.rs:140-149 | one more turn of the loop patches the first item with the next id in the store left by the earlier turns |
| ItemStore.ApplyPatchKeepsIds | src/main.rs:140-150 | the loop's patches keep every id, the length and the order |
| ItemStore.ApplyPatchMeetsSpec | src/main.rs:140-150 | patching ids one by one in request order equals the reference definition of a bulk patch |
| ItemStore.FoundIdsStep | src/main.rs:140-149 | one more requested id is collected exactly when an item has it |
| ItemStore.FoundIdsMembers | src/main.rs:140-149 | an id is reported exactly when it was requested and an item has it |
| ItemStore.FoundIdsMultiplicity | src/main.rs:140-149 | a requested id that exists is reported as many times as it was requested |
| ItemStore.FoundIdsLength | src/main.rs:140-149 | the report is no longer than the request; it equals the request when every id exists, and is empty when none does |
| ItemStore.FoundIdsSameIds | src/main.rs:140-149 | the report depends only on the ids in the store |
| Decimal.DigitChar | src/main.rs:176 | a digit value below ten renders as a decimal digit character |
| Decimal.DigitValue | src/main.rs:176 | a decimal digit character has a value below ten that renders back to it |
| Decimal.Show | src/main.rs:176 | the decimal rendering is a non-empty string of digits that starts with '0' only for zero |
| Decimal.ParseShow | src/main.rs:176 | parsing a rendered number gives the number back |
| Decimal.ShowInjective | src/main.rs:176 | two numbers render the same exactly when they are equal |
| UserDirectory.TokenFor | src/main.rs:176 | the token of user id is "token" followed by digits that parse back to the id |
| UserDirectory.Registered | src/main.rs:173-177 | the new user has id = previous count + 1, the caller's email, the hashed password, and the token for that id |
| UserDirectory.RegisterPreservesWellFormed | src/main.rs:175-179 | after a registration, the user at position i still has id i+1 and the token for i+1 |
| UserDirectory.WellFormedHaveTokens | src/main.rs:176 | every registered user holds a token, so login's unwrap of the token always succeeds |
| UserDirectory.TokenForInjective | src/main.rs:176 | different ids get different tokens |
| UserDirectory.TokenValidIssued | src/main.rs:95 | the token check passes exactly for the tokens issued to ids 1..n |
| UserDirectory.TokenNamesOneUser | src/main.rs:176 | at most one user holds any token |
| UserDirectory.TokenValidShape | src/main.rs:95 | only "token" followed by digits passes, so the empty string and every string of at most five characters fail |
| UserDirectory.FirstTokenGuessable | src/main.rs:95 | once anyone has registered, the guessable string "token1" passes the check |
| UserDirectory.FindUser | src/main.rs:189-190 | the result is the position of the first user with the email; it is None exactly when no user has it |
| UserDirectory.FindUserAfterNew | src/main.rs:189-190 | an email that only the appended user holds is found at the end |
| UserDirectory.LoginAfterRegister | src/main.rs:179-195 | right after registering an unused email, login with a verifying password returns the new token, and with any other password returns Unauthorized |
| UserDirectory.LoginShadowedByEarlierEmail | src/main.rs:189-196 | later registrations with an email already held never change what login with that email answers |
| Auth.ToStr | src/main.rs:203 | a header value reads as text exactly when every byte is visible ASCII or tab, and the text holds the same code points |
| Auth.Bytes | src/main.rs:203 | a string of narrow characters as bytes, one byte per character with the same value; when every character is visible ASCII or tab, the header text read back from those bytes is the string |
| Auth.StripPrefix | src/main.rs:203 | the result is present exactly when the prefix starts the string, and the prefix followed by the result is the string |
| Auth.ExtractToken | src/main.rs:202-204 | a token is present exactly when the header exists, reads as text and starts with "Bearer "; the header text is then "Bearer " followed by the token |
| Auth.ExtractBearer | src/main.rs:203 | the header "Bearer " + t gives back exactly t |
| Auth.ExtractNeedsBearer | src/main.rs:203 | a header shorter than the prefix, or without 'B' first or a space seventh, gives no token |
| Auth.Authorize | src/main.rs:89-97 | the gate opens exactly when a token is extracted and some user holds it; otherwise it answers missing-header when there is no token, and invalid-token when no user holds it |
| Auth.AuthorizeIssued | src/main.rs:127-135 | with a well-formed directory, the gate opens exactly for headers that carry a token issued to ids 1..n |
| Snapshot.StartupItems | src/main.rs:42-74 | a missing file and a file that does not decode both give an empty store; a file that decodes gives its items |
| Snapshot.WrittenInPlace | src/main.rs:77-85 | the new data is a prefix of the file; the file is exactly the data unless the old file was longer, whose tail then remains |
| Snapshot.WrittenTruncating | src/main.rs:77-85 | a truncating save leaves exactly the new data in the file; it differs from the save as written only when the old file was longer than the new data |
| Snapshot.InPlaceShorterSaveLeavesTail | src/main.rs:79-84 | a save shorter than the file it overwrites leaves the data followed by the old tail, not the data |
| Snapshot.InPlaceJsonExample | src/main.rs:78-84 | an item patched from price 10.25 to 1.5 leaves the file as the new JSON followed by "}]" |
| Snapshot.InPlaceSaveLosesStore | src/main.rs:42 | when the decoder rejects the leftover tail, the next startup begins with an empty store |
| Snapshot.TruncatingSaveRoundTrip | src/main.rs:65-85 | with truncation, the next startup reads back exactly the saved items |
| Service.AppState.constructor | src/main.rs:42-43 | startup holds the loaded items and no users |
| Service.AppState.CreateItem | src/main.rs:88-110 | a refused gate changes nothing and answers its error. Otherwise exactly one item, with the next id, is appended after the unchanged earlier items, even when the save fails. The answer is that item, or SaveFailed. Unique and increasing ids are preserved |
| Service.AppState.GetItems | src/main.rs:112-115 | the answer is the whole store |
| Service.AppState.GetItem | src/main.rs:117-124 | the answer is the first item with the id, or NotFound exactly when no item has it |
| Service.AppState.UpdateItems | src/main.rs:126-157 | a refused gate changes nothing. Otherwise the store becomes the bulk patch of the requested ids (even when the save fails), and the answer is the requested ids that exist, in order, or SaveFailed. The ids are never changed |
| Service.AppState.Register | src/main.rs:171-185 | appends the new user with id = count + 1 and the token for it; answers only {id, email}; leaves the items alone |
| Service.AppState.Login | src/main.rs:187-200 | the first user with the email decides: a verifying password answers that user's token, a failing one Unauthorized, no such user NotFound |
| Service.BearerHeaderOne | src/main.rs:202-203 | the header "Bearer token1" passes the gate once user 1 is registered |
| Service.TokenOne | src/main.rs:176 | the token of user 1 is "token1" |
| Service.SignUpScenario | src/main.rs:171-200 | on a fresh service, the first registration answers {1, "a@x.com"}; login answers "token1", and a wrong password answers Unauthorized |
| Service.CreateScenario | src/main.rs:88-115 | with that token, two creates on an empty store answer ids 1 and 2, and the store holds both |
| Service.LookupScenario | src/main.rs:117-124 | fetching id 2 answers the second item, and id 99 answers NotFound |

## Findings

| source | as written | input that shows it | evidently intended | confidence | as-written member | corrected member |
|---|---|---|---|---|---|---|
| src/main.rs:79-84 | `save_items` opens `items.json` with `write(true)` and `create(true)` but not `truncate(true)`, then writes the new JSON from offset 0 | `items.json` holds `[{"id":1,"name":"pen","price":10.25}]`. PUT /updateitems with `{"ids":[1],"item":{"price":1.5}}` writes 35 bytes over 37, which leaves `[{"id":1,"name":"pen","price":1.5}]}]`. JSON decoding rejects the trailing characters, so the next startup begins with an empty store | the file holds exactly the new encoding of the whole store | not executed | Snapshot.InPlaceShorterSaveLeavesTail, Snapshot.InPlaceJsonExample, Snapshot.InPlaceSaveLosesStore | Snapshot.TruncatingSaveRoundTrip |

The `saved` flag of `Service.AppState.CreateItem` and `UpdateItems` is
whether `save_items` returned `Ok`. As written, an `Ok` save can still
leave a stale tail of the previous file behind the new data
(`Snapshot.WrittenInPlace`). The in-memory state the handlers return does
not depend on what the file holds.

## Left out

- HTTP routing, the actix handlers as endpoints, and status-code framing are
  left out; the handlers' answers are modelled as `Result` values. Reading
  the `PORT` variable (src/main.rs:40-63) is left out too. All of it is
  framework and I/O code.
- JSON is left out: request bodies, responses and the `items.json`
  encoding. serde is library code outside this model. So the model does not
  capture that POST /items, /register and /login bodies must carry an `id`
  field, which the handlers then ignore or overwrite.
- File I/O in `load_items` and `save_items` (src/main.rs:65-86) is modelled
  only as far as `Snapshot` goes. A present file that cannot be read folds
  into "does not decode". A handler's save is the `saved` flag.
- bcrypt hashing and verification (src/main.rs:177, 191) are parameters.
  The panics from `.unwrap()` on a hashing or verification error are not
  modelled: a hash the service wrote itself always verifies without error.
- The `RwLock` locking and any interleaving of handlers (src/main.rs:36-37)
  are left out. Each handler is one atomic step because it holds its locks
  throughout.
- Floating-point behaviour of `price` is left out. Prices are only copied,
  so they are kept as their 64 bits.
- When a request carries several `Authorization` headers, which one is
  chosen is left to the caller of `ExtractToken`. The model receives one
  header value or none.
- ItemStore.NextId: ids are unbounded naturals, so the `usize` overflow of
  `max + 1` is not modelled. It needs 2^64 - 1 as an existing id.
- UserDirectory.Registered: the `usize` overflow of `len + 1` is not
  modelled, since it needs 2^64 - 1 registered users.
