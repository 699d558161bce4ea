/** The in-memory user store `SimpleDatabase`: a list of email addresses,
    in insertion order, that the store itself does not keep unique. */
module Store {
  import opened Outcomes
  import opened UserList

  class SimpleDatabase {
    /** The stored addresses, oldest first. */
    var users: seq<Email>

    /** Every address `DeleteUser` has been called with, in call order,
        whether or not the deletion succeeded. */
    ghost var deleteCalls: seq<Email>

    /** How many times `DropDatabase` has been called. */
    ghost var drops: nat

    /** A new store holds no user. */
    constructor ()
      ensures users == [] && deleteCalls == [] && drops == 0
    {
      users := [];
      deleteCalls := [];
      drops := 0;
    }

    /** Appends the address with no uniqueness check. */
    method AddUser(email: Email)
      modifies this
      ensures users == old(users) + [email]
      ensures |users| == |old(users)| + 1 && email in users
      ensures deleteCalls == old(deleteCalls) && drops == old(drops)
    {
      users := users + [email];
    }

    /** Whether some entry equals the address exactly. */
    method HasUser(email: Email) returns (present: bool)
      ensures present <==> exists i :: 0 <= i < |users| && users[i] == email
    {
      present := email in users;
    }

    /** Fails with `NotFound` when the address is absent, leaving the list
        alone; otherwise removes its first occurrence and keeps the order of
        the rest. */
    method DeleteUser(email: Email) returns (status: Status)
      modifies this
      ensures status == (if email in old(users) then Ok else NotFound)
      ensures status == NotFound ==> users == old(users)
      ensures status == Ok ==>
        var i := FirstIndex(old(users), email);
        users == old(users)[..i] + old(users)[i + 1..] && |users| == |old(users)| - 1
      ensures users == RemoveFirst(old(users), email)
      ensures deleteCalls == old(deleteCalls) + [email] && drops == old(drops)
    {
      deleteCalls := deleteCalls + [email];
      var present := HasUser(email);
      if !present {
        RemoveFirstAbsent(users, email);
        return NotFound;
      }
      RemoveFirstAt(users, email);
      users := RemoveFirst(users, email);
      status := Ok;
    }

    /** A snapshot of the stored addresses, in insertion order. */
    method GetUsers() returns (list: seq<Email>)
      ensures list == users
    {
      list := users;
    }

    /** The number of stored entries, duplicates included. */
    method NumberOfUsers() returns (count: nat)
      ensures count == |users|
    {
      count := |users|;
    }

    /** This store always supports reading and writing. */
    method IsReadWriteSupported() returns (supported: bool)
      ensures supported
    {
      supported := true;
    }

    /** The store's fixed name. */
    method GetDatabaseName() returns (name: string)
      ensures name == "SimpleDatabase"
    {
      name := "SimpleDatabase";
    }

    /** Does nothing to the stored addresses; only the call is recorded. */
    method DropDatabase()
      modifies this
      ensures users == old(users) && deleteCalls == old(deleteCalls)
      ensures drops == old(drops) + 1
    {
      drops := drops + 1;
    }
  }
}
