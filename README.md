# User registration with an in-memory user store

A Dafny model of the two classes of the Android Mockito demo app that
hold logic:

- `SimpleDatabase`, an in-memory user store. It keeps a list of email
  addresses in insertion order. `addUser` appends without checking for
  duplicates. `hasUser` tests for an exact match. `deleteUser` throws
  `UserNotFoundException` for an absent address and otherwise removes the
  first occurrence. It also has a count, a listing, two constant
  introspection methods and a `dropDatabase` that does nothing.
- `UserRegistration`, the service over that store. `registerNewUser` checks,
  then sends, then persists: it refuses an address already stored, stores
  nothing when the email sender reports failure, and otherwise adds the
  address. `deleteUser` delegates to the store. `deleteUsers` deletes a list
  in order and stops at the first missing address, with no rollback.

Layout:

- `outcomes.dfy` (module `Outcomes`): the three exceptions and normal return
  as one `Status` datatype.
- `user_list.dfy` (module `UserList`): the store's list as a value.
  `RemoveFirst` is single deletion. `RemoveEach` is deletion of a batch in
  order. `Processed` counts how many deletions of a batch succeed before
  the first missing address. The lemmas relate these to one another, to
  multisets and to the no-duplicates invariant.
- `store.dfy` (module `Store`): class `SimpleDatabase`, whose field `users`
  is a `seq<string>` that its methods reassign. Two ghost fields record the
  calls made on the store: `deleteCalls` lists every address `DeleteUser`
  was called with, and `drops` counts `DropDatabase` calls. The unit tests
  check these same facts with Mockito's `verify`.
- `registration.dfy` (module `Registration`): the `RegistrationEmail`
  message, and class `UserRegistration` over a `SimpleDatabase`. The email
  sender's transport is not part of this model. Each send's outcome is a
  `delivered` parameter of `RegisterNewUser`. A ghost `sendLog` records
  every message handed to the sender, with its outcome. Two invariants are
  preserved by every service operation: "no duplicates" and "every stored
  address was sent a delivered registration email".
- `scenarios.dfy` (module `Scenarios`): client methods that use real objects
  in place of the tests' mocks. They cover the unit tests' situations and
  an end-to-end scenario: register, register again, delete, delete again.

`dropDatabase` has an empty body
(app/src/main/java/cio/android/mockitodemo/SimpleDatabase.java:52-54);
despite its name it clears nothing, so `DropDatabase` changes no user.
`deleteUsers` deletes in list order
(app/src/main/java/cio/android/mockitodemo/UserRegistration.java:36-37),
and `DeleteUsers` states that order.

## Model

| member | source | states |
|---|---|---|
| UserList.FirstIndex | app/src/main/java/cio/android/mockitodemo/SimpleDatabase.java:28 | the index found holds the address and no earlier entry does: it is the first occurrence `List.remove(Object)` removes |
| UserList.RemoveFirst | app/src/main/java/cio/android/mockitodemo/SimpleDatabase.java:24-28 | deletion shortens the list by exactly one when the address is present and leaves its length unchanged otherwise |
| UserList.RemoveFirstAbsent | app/src/main/java/cio/android/mockitodemo/SimpleDatabase.java:25-27 | deleting an absent address leaves the list identical |
| UserList.RemoveFirstAt | app/src/main/java/cio/android/mockitodemo/SimpleDatabase.java:28 | deleting a present address cuts out exactly its first occurrence; the entries before and after it keep their order |
| UserList.RemoveFirstMultiset | app/src/main/java/cio/android/mockitodemo/SimpleDatabase.java:28 | deletion takes one copy of the address out of the multiset of entries and changes no other entry |
| UserList.RemoveFirstMembers | app/src/main/java/cio/android/mockitodemo/SimpleDatabase.java:28 | deletion adds no address and takes away no address other than the one deleted; the deleted address stays exactly when it was stored more than once |
| UserList.RemoveFirstNoDuplicates | app/src/main/java/cio/android/mockitodemo/SimpleDatabase.java:28 | deletion keeps a duplicate-free list duplicate-free and leaves the deleted address absent |
| UserList.Processed | app/src/main/java/cio/android/mockitodemo/UserRegistration.java:35-39 | the number of deletions of a batch that succeed before the first missing address is at most the batch's length |
| UserList.RemoveEachSnoc | app/src/main/java/cio/android/mockitodemo/UserRegistration.java:36-37 | deleting one more address after a batch is the same as deleting the extended batch in order |
| UserList.ProcessedStep | app/src/main/java/cio/android/mockitodemo/UserRegistration.java:36-38 | once the first `i` deletions have succeeded, deletion `i` succeeds exactly when its address is still in the list they leave |
| UserList.RemoveEach | app/src/main/java/cio/android/mockitodemo/UserRegistration.java:35-39 | deleting a batch in order takes out at most one entry per address of the batch and adds none |
| UserList.RemoveEachMultiset | app/src/main/java/cio/android/mockitodemo/UserRegistration.java:35-39 | batch deletion takes the batch's addresses out of the multiset of entries, copy by copy |
| UserList.ProcessedFull | app/src/main/java/cio/android/mockitodemo/UserRegistration.java:35-39 | a batch is deleted in full exactly when the list holds at least as many copies of each address as the batch names |
| UserList.RemoveEachSubset | app/src/main/java/cio/android/mockitodemo/UserRegistration.java:35-39 | every address left after a batch deletion was in the list before |
| UserList.RemoveEachNoDuplicates | app/src/main/java/cio/android/mockitodemo/UserRegistration.java:35-39 | batch deletion keeps a duplicate-free list duplicate-free |
| UserList.ProcessedLength | app/src/main/java/cio/android/mockitodemo/UserRegistration.java:35-39 | each successful deletion of a batch shrinks the list by exactly one |
| UserList.ProcessedAllPresent | app/src/main/java/cio/android/mockitodemo/UserRegistration.java:35-39 | a batch of distinct addresses that are all stored is deleted in full |
| Store.SimpleDatabase.constructor | app/src/main/java/cio/android/mockitodemo/SimpleDatabase.java:11 | a new store holds no user, and no deletion or drop has been made |
| Store.SimpleDatabase.AddUser | app/src/main/java/cio/android/mockitodemo/SimpleDatabase.java:13-16 | the list becomes the old list plus the address at the end; the count rises by one and the address is present |
| Store.SimpleDatabase.HasUser | app/src/main/java/cio/android/mockitodemo/SimpleDatabase.java:18-21 | true exactly when some entry equals the address; the store is not changed |
| Store.SimpleDatabase.DeleteUser | app/src/main/java/cio/android/mockitodemo/SimpleDatabase.java:23-29 | an absent address gives NotFound and the list is unchanged; a present one gives Ok and its first occurrence is removed, with the rest in order and the count one lower; the call is recorded |
| Store.SimpleDatabase.GetUsers | app/src/main/java/cio/android/mockitodemo/SimpleDatabase.java:31-34 | returns the stored addresses in insertion order |
| Store.SimpleDatabase.NumberOfUsers | app/src/main/java/cio/android/mockitodemo/SimpleDatabase.java:36-39 | returns the length of the list that GetUsers returns |
| Store.SimpleDatabase.IsReadWriteSupported | app/src/main/java/cio/android/mockitodemo/SimpleDatabase.java:41-44 | always true, and no state changes |
| Store.SimpleDatabase.GetDatabaseName | app/src/main/java/cio/android/mockitodemo/SimpleDatabase.java:46-49 | always "SimpleDatabase", and no state changes |
| Store.SimpleDatabase.DropDatabase | app/src/main/java/cio/android/mockitodemo/SimpleDatabase.java:51-54 | leaves the list unchanged; only the call is counted |
| Registration.BatchOutcome | app/src/main/java/cio/android/mockitodemo/UserRegistration.java:35-39 | a fail-fast batch deletion runs to the end exactly when the list holds each address as often as the batch names it, and the list it leaves keeps both registration invariants |
| Registration.RemoveEachKeeps | app/src/main/java/cio/android/mockitodemo/UserRegistration.java:35-39 | batch deletion preserves both the no-duplicates and the every-user-was-notified invariants |
| Registration.UserRegistration.constructor | app/src/main/java/cio/android/mockitodemo/UserRegistration.java:15-18 | the service is bound to the given store and has sent nothing yet |
| Registration.UserRegistration.RegisterNewUser | app/src/main/java/cio/android/mockitodemo/UserRegistration.java:20-29 | a stored address gives AlreadyRegistered with no send and no change; otherwise exactly one email goes to that address; a failed send gives EmailFailed and no change; a delivered one gives Ok and appends the address; no duplicates and every-user-notified are preserved |
| Registration.UserRegistration.DeleteUser | app/src/main/java/cio/android/mockitodemo/UserRegistration.java:31-33 | has exactly the store's deletion effect and result, NotFound included; both invariants are preserved |
| Registration.UserRegistration.DeleteUsers | app/src/main/java/cio/android/mockitodemo/UserRegistration.java:35-39 | with k the number of deletions that succeed in order, the result is Ok when k is the batch length and NotFound otherwise, so Ok exactly when the store holds every address of the batch as often as the batch names it; the store equals the original with the first k addresses deleted in order; exactly the addresses up to and including the failing one are passed to the store; nothing is dropped; both invariants are preserved |

## Left out

- The `Database` interface: a Dafny trait would express it, but traits are not used here. The service is therefore tied to `SimpleDatabase`, and other stores (such as the test's mock) are not modelled.
- The email sender and its transport, including `IOException`: its source is not part of this model. A send is reduced to its reported outcome, given as the `delivered` parameter; an exception thrown by the sender is not modelled.
- Aliasing of the list returned by `getUsers`: `GetUsers` returns a value snapshot, so changes made through the live `ArrayList` reference are not modelled.
- Java `null` addresses and the `RegistrationEmail` setter: addresses are non-null strings, and a message is an immutable value.
- Store.SimpleDatabase.NumberOfUsers: returns an unbounded `nat` instead of a 32-bit `int`. An `ArrayList` cannot hold more than `Integer.MAX_VALUE` entries, so the width never matters.
- Mockito behaviour used in the unit tests (default answers of mocks, chained stubs, argument matchers): these belong to the mocking library, not to the app.
- Concurrency: the classes are used from one thread and are modelled as such.
