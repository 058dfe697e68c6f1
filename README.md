# File registry pallet: a verified model of `create_file`

This project models the file-storage pallet of a Substrate node template. The
pallet keeps a registry of files keyed by content id (`Files`), a global file
counter (`FileCnt`) and two side indices (`FilesOwned`, `CntFileDownloaded`).
It has one dispatchable call, `create_file`. The call runs three checks in order:

1. the content id is not registered yet (`AlreadyUploaded`);
2. the link fits the `MaxLength` bounded vector (`LinkTooLong`);
3. the link is at least `MinLength` long (`LinkTooShort`).

Only when all three pass does it store the record, add one to the counter and
deposit `FileCreated { who, cid }`.

The model has two files.

- `filestorage.dfy`, module `FileStorage`:
  - the data model (`File`, `FileType`, the error kinds, the event, the storage items);
  - the checks as a function (`CheckCreate`);
  - the call as a function on storage values (`CreateFileStep`);
  - the pallet as a class (`Pallet`). Its fields are the storage items. Its method
    `CreateFile` updates them in place with the same early returns as the Rust
    code, and is proved equal to `CreateFileStep`.
- `traces.dfy`, module `FileStorageTraces`: runs a sequence of calls the way the
  runtime dispatches them, one after another. It proves properties of every
  reachable state by induction on the sequence.

Modelling choices:

- `u8`, `u32` and `u64` are newtypes.
- Account ids, hashes and balances are plain `nat`s: the model never does
  arithmetic on them or hashes them.
- Deposited events are a `seq<Event>` field, newest last.
- The unchecked `cnt += 1` on the `u64` counter is modelled as it behaves in a
  release build: it wraps to 0 at `u64::MAX` (`IncrementCnt`). The storage
  invariant says the counter is the number of stored files modulo 2^64. Every
  counting lemma is stated under a bound that keeps the counter from wrapping:
  it stays at most `u64::MAX`.

Two facts about the code that the model keeps as they are:

- `create_file` stores the caller's `cost` unchanged (lib.rs:232), whatever
  `file_size` is. No size threshold makes small files free.
- `create_file` writes no ownership index: `FilesOwned` and
  `CntFileDownloaded` are declared but never written. `RunLeavesSideIndices`
  proves this.

## Model

| member | source | states |
|---|---|---|
| `FileStorage.CheckCreate` | pallets/filestorage/src/lib.rs:223-227 | The first failing check wins. `AlreadyUploaded` is returned exactly when the cid is registered, whatever the link. `LinkTooLong` exactly when the cid is new and the link is longer than `MaxLength`. `LinkTooShort` exactly when the cid is new, the link fits, and it is shorter than `MinLength`. All checks pass exactly when the cid is new and `MinLength <= len <= MaxLength`, so links of length exactly `MinLength` or `MaxLength` are accepted. |
| `FileStorage.IncrementCnt` | pallets/filestorage/src/lib.rs:245-247 | `cnt += 1` on u64: the result is `cnt + 1` below `u64::MAX`, and it wraps to 0 at `u64::MAX`. |
| `FileStorage.CreateFileStep` | pallets/filestorage/src/lib.rs:209-256 | The call succeeds iff every check passes. A failure reports the first failing check, leaves all storage unchanged and deposits no event. A success adds `cid` and no other key. The record at `cid` has owner = sender, price = `cost` unchanged, the given type or `Other` when none is given, and the given link, download flag and size. Every other record keeps its old value. The counter goes up by exactly 1 (or wraps at `u64::MAX`). Exactly `FileCreated(sender, cid)` is appended. `FilesOwned` and `CntFileDownloaded` are never changed. |
| `FileStorage.Pallet.CreateFile` | pallets/filestorage/src/lib.rs:209-256 | The in-place update of the storage fields gives exactly the result and new state of `CreateFileStep`. `AlreadyUploaded` is returned iff the cid was already stored. On error nothing changes. On success `files` gains exactly the new record at `cid`, the counter is incremented, the event is appended, and the side indices are unchanged. |
| `FileStorage.Pallet.constructor` | pallets/filestorage/src/lib.rs:171-201 | A fresh pallet has the configured constants and the storage defaults: counter 0, all maps empty, no events. The storage bounds hold. |
| `FileStorage.StepKeepsWellFormed` | pallets/filestorage/src/lib.rs:223-247 | `create_file` keeps the storage invariant whether it succeeds or fails. Stored links stay within `MinLength`..`MaxLength`, owned-lists fit `MaxFileOwned`, and the counter stays the number of files modulo 2^64. |
| `FileStorage.InsertKeepsWellFormed` | pallets/filestorage/src/lib.rs:244-247 | Inserting a record that passed the checks and incrementing the counter keeps the storage invariant. The new link is within the bounds, and the counter is still the number of files modulo 2^64. |
| `FileStorage.Pallet.FileCnt` | pallets/filestorage/src/lib.rs:171-174 | The `file_cnt` getter is the number of files in existence, modulo 2^64. It is exactly the number of files while that number is at most `u64::MAX`. |
| `FileStorage.Pallet.Files` | pallets/filestorage/src/lib.rs:176-179 | The `files` getter is an option query: `Some` exactly for registered cids, holding the stored record. For a valid pallet, every record it returns has a link between `MinLength` (the check at lib.rs:227) and `MaxLength` (the bounded vector at lib.rs:42). |
| `FileStorage.Pallet.FilesOwned` | pallets/filestorage/src/lib.rs:181-190 | The `files_owned` getter is a value query: it returns the stored list, or empty when absent. The result is never longer than `MaxFileOwned`. |
| `FileStorageTraces.RunPreservesWellFormed` | pallets/filestorage/src/lib.rs:223-247 | In every reachable state, each stored link is between `MinLength` and `MaxLength` long, each owned-list fits `MaxFileOwned` (the bounded-vector types), and the counter is the number of files modulo 2^64. |
| `FileStorageTraces.RunCountsFilesAndEvents` | pallets/filestorage/src/lib.rs:244-254 | After any sequence of calls, of any length, the number of stored files and the number of events have each grown by exactly the number of successful calls. |
| `FileStorageTraces.RunCountsSuccesses` | pallets/filestorage/src/lib.rs:245-247 | While the counter cannot wrap (start value plus number of calls at most `u64::MAX`), after any sequence of calls the counter has grown by exactly the number of successful calls. |
| `FileStorageTraces.GenesisCounterMatchesFiles` | pallets/filestorage/src/lib.rs:171-174 | Starting from genesis, for up to `u64::MAX` calls, `FileCnt` equals both the number of successful registrations and the number of stored files. |
| `FileStorageTraces.RunKeepsRegistered` | pallets/filestorage/src/lib.rs:223-244 | Once a cid is registered, it stays registered with the same record after any calls. No call overwrites or removes an entry. |
| `FileStorageTraces.RunLeavesSideIndices` | pallets/filestorage/src/lib.rs:184-201 | No sequence of calls changes `FilesOwned` or `CntFileDownloaded`. |
| `FileStorageTraces.RunNewFilesComeFromCalls` | pallets/filestorage/src/lib.rs:231-244 | Every file added during a run was stored by a successful call with that cid, and it holds exactly the record built from that call. |
| `FileStorageTraces.DuplicateRejectedForever` | pallets/filestorage/src/lib.rs:223 | After a cid is registered, any later registration of it fails with `AlreadyUploaded` and changes nothing, whatever calls came in between. |
| `FileStorageTraces.RegisterTwice` | pallets/filestorage/src/lib.rs:209-256 | On a fresh pallet object, a first registration succeeds. A second registration of the same cid, by another account and with other fields, fails with `AlreadyUploaded`. |

## Left out

- The origin check `ensure_signed` (lib.rs:218): the sender is taken as an already authenticated parameter, so `BadOrigin` is not modelled.
- `IncrementCnt`: models the release-build wrap-around of `cnt += 1`. The panic a debug build raises on overflow is not modelled.
- The currency machinery (`Currency`, `BalanceOf`): `price` is an opaque optional amount, and `create_file` does no arithmetic on it.
- Hashing and storage hashers (`Twox64Concat`, `blake2_128`, `KittyRandomness`): storage maps are modelled as plain maps.
- SCALE encoding, type metadata, serde derives, weights, `transactional` and the pallet macros: framework plumbing with no effect on the transition.
- The unused `Gender` enum, the leftover claim/kitty error variants, the `ClaimCreated`/`ClaimRevoked` events and the commented-out storage items: dead code.
- `MaxFileOwned` is enforced by nothing in `create_file`, because `FilesOwned` is never written. The model keeps it only as the bound on `FilesOwned` values.
- Events: `events` holds only this pallet's own deposits, in order, since genesis. The system pallet's event record, which is cleared at every block, is not modelled. The event count in `RunCountsFilesAndEvents` holds only for this view.
- The `cnt_file_downloaded` getter is not modelled separately: the class field `cntFileDownloaded` is that storage item, and nothing writes it (`RunLeavesSideIndices`).
- Download counting, ownership transfer and the small-files-are-free price rule are not in this source. They are not modelled.
