/** Client code written against the contracts alone: the unit tests'
    situations and an end-to-end scenario, with real objects in place of the
    test doubles. */
module Scenarios {
  import opened Outcomes
  import opened UserList
  import opened Store
  import opened Registration

  /** A new store is empty; it reports its constant name and capability. */
  method FreshStore() {
    var db := new SimpleDatabase();
    var n := db.NumberOfUsers();
    assert n == 0;
    var has := db.HasUser("foo@example.com");
    assert !has;
    var rw := db.IsReadWriteSupported();
    assert rw;
    var name := db.GetDatabaseName();
    assert name == "SimpleDatabase";
  }

  /** Register, register again, delete, delete again. */
  method EndToEnd() {
    var db := new SimpleDatabase();
    var service := new UserRegistration(db);
    var st := service.RegisterNewUser("u1@x.com", true);
    assert st == Ok && db.users == ["u1@x.com"];
    assert service.sendLog == [SendAttempt(RegistrationEmail("u1@x.com"), true)];
    st := service.RegisterNewUser("u1@x.com", true);
    assert st == AlreadyRegistered && db.users == ["u1@x.com"];
    assert |service.sendLog| == 1;
    st := service.DeleteUser("u1@x.com");
    assert st == Ok && db.users == [];
    st := service.DeleteUser("u1@x.com");
    assert st == NotFound && db.users == [];
  }

  /** A failed send keeps the address out of the store. */
  method SendFailure() {
    var db := new SimpleDatabase();
    var service := new UserRegistration(db);
    var st := service.RegisterNewUser("foo@example.com", false);
    assert st == EmailFailed && db.users == [];
  }

  /** Two present addresses: two store deletions, in order. */
  method DeleteMultipleUsers() {
    var db := new SimpleDatabase();
    db.AddUser("foo");
    db.AddUser("bar");
    var service := new UserRegistration(db);
    ProcessedAllPresent(db.users, ["foo", "bar"]);
    ProcessedLength(db.users, ["foo", "bar"]);
    var st := service.DeleteUsers(["foo", "bar"]);
    assert st == Ok && db.users == [];
    assert db.deleteCalls == ["foo", "bar"];
  }

  /** The second address is missing: the first stays deleted, the third is
      never attempted. */
  method BatchFailFast() {
    var db := new SimpleDatabase();
    db.AddUser("a");
    db.AddUser("c");
    var service := new UserRegistration(db);
    var st := service.DeleteUsers(["a", "missing", "c"]);
    assert st == NotFound && db.users == ["c"];
    assert db.deleteCalls == ["a", "missing"];
  }

  /** An empty batch changes nothing and never drops the database. */
  method EmptyBatch() {
    var db := new SimpleDatabase();
    db.AddUser("a");
    var service := new UserRegistration(db);
    var st := service.DeleteUsers([]);
    assert st == Ok && db.users == ["a"] && db.drops == 0 && db.deleteCalls == [];
  }
}
