/** The registration service `UserRegistration`, which drives a
    `SimpleDatabase` and hands registration emails to an email sender.
    The sender's transport is outside the model: each send's outcome is an
    input (`delivered`), and the service records every message it hands over
    in a ghost log. */
module Registration {
  import opened Outcomes
  import opened UserList
  import opened Store

  /** The message sent to confirm a registration. */
  datatype RegistrationEmail = RegistrationEmail(destinationEmailAddress: Email)

  /** One call of the email sender: the message, and whether the sender
      reported it delivered. */
  datatype SendAttempt = SendAttempt(message: RegistrationEmail, delivered: bool)

  /** Every stored address was the destination of a registration email that
      the sender reported delivered. */
  ghost predicate AllNotified(users: seq<Email>, log: seq<SendAttempt>) {
    forall u :: u in users ==> SendAttempt(RegistrationEmail(u), true) in log
  }

  /** Batch deletion keeps both registration invariants of a list. */
  lemma RemoveEachKeeps(s: seq<Email>, ids: seq<Email>, log: seq<SendAttempt>)
    ensures NoDuplicates(s) ==> NoDuplicates(RemoveEach(s, ids))
    ensures AllNotified(s, log) ==> AllNotified(RemoveEach(s, ids), log)
  {
    forall u | u in RemoveEach(s, ids) ensures u in s {
      RemoveEachSubset(s, ids, u);
    }
    if NoDuplicates(s) {
      RemoveEachNoDuplicates(s, ids);
    }
  }

  /** The outcome of a batch deletion that stops at the first missing
      address: it runs to the end exactly when the list holds every address
      as often as the batch names it, and the list it leaves keeps both
      registration invariants. */
  lemma BatchOutcome(s: seq<Email>, ids: seq<Email>, log: seq<SendAttempt>)
    ensures Processed(s, ids) == |ids| <==> multiset(ids) <= multiset(s)
    ensures NoDuplicates(s) ==> NoDuplicates(RemoveEach(s, ids[..Processed(s, ids)]))
    ensures AllNotified(s, log) ==> AllNotified(RemoveEach(s, ids[..Processed(s, ids)]), log)
  {
    ProcessedFull(s, ids);
    RemoveEachKeeps(s, ids[..Processed(s, ids)], log);
  }

  class UserRegistration {
    const database: SimpleDatabase

    /** Every message handed to the email sender, in order, with its outcome. */
    ghost var sendLog: seq<SendAttempt>

    constructor (database: SimpleDatabase)
      ensures this.database == database && sendLog == []
    {
      this.database := database;
      sendLog := [];
    }

    /** Check, then send, then persist: an address already stored is
        refused before any send; a send reported as failed stops the
        address from being stored; otherwise the address is appended. */
    method RegisterNewUser(email: Email, delivered: bool) returns (status: Status)
      modifies this, database
      ensures email in old(database.users) ==>
        status == AlreadyRegistered && database.users == old(database.users) && sendLog == old(sendLog)
      ensures email !in old(database.users) ==>
        sendLog == old(sendLog) + [SendAttempt(RegistrationEmail(email), delivered)]
      ensures email !in old(database.users) && !delivered ==>
        status == EmailFailed && database.users == old(database.users)
      ensures email !in old(database.users) && delivered ==>
        status == Ok && database.users == old(database.users) + [email]
      ensures old(NoDuplicates(database.users)) ==> NoDuplicates(database.users)
      ensures old(AllNotified(database.users, sendLog)) ==> AllNotified(database.users, sendLog)
      ensures database.deleteCalls == old(database.deleteCalls) && database.drops == old(database.drops)
    {
      var present := database.HasUser(email);
      if present {
        return AlreadyRegistered;
      }
      var message := RegistrationEmail(email);
      sendLog := sendLog + [SendAttempt(message, delivered)];
      if !delivered {
        return EmailFailed;
      }
      database.AddUser(email);
      status := Ok;
    }

    /** Exactly the store's deletion, its `NotFound` passed on unchanged. */
    method DeleteUser(email: Email) returns (status: Status)
      modifies database
      ensures status == (if email in old(database.users) then Ok else NotFound)
      ensures database.users == RemoveFirst(old(database.users), email)
      ensures database.deleteCalls == old(database.deleteCalls) + [email]
      ensures database.drops == old(database.drops)
      ensures old(NoDuplicates(database.users)) ==> NoDuplicates(database.users)
      ensures old(AllNotified(database.users, sendLog)) ==> AllNotified(database.users, sendLog)
    {
      ghost var before := database.users;
      status := database.DeleteUser(email);
      forall u | u in database.users ensures u in before {
        RemoveFirstMembers(before, email, u);
      }
      if NoDuplicates(before) {
        RemoveFirstNoDuplicates(before, email);
      }
    }

    /** Deletes the addresses one by one, in order, and stops at the first
        one that is missing: the deletions before it stay done, the ones
        after it are never attempted. */
    method DeleteUsers(ids: seq<Email>) returns (status: Status)
      modifies database
      ensures var k := Processed(old(database.users), ids);
        && status == (if k == |ids| then Ok else NotFound)
        && database.users == RemoveEach(old(database.users), ids[..k])
        && database.deleteCalls == old(database.deleteCalls) + ids[..if k < |ids| then k + 1 else k]
      ensures status == Ok <==> multiset(ids) <= multiset(old(database.users))
      ensures database.drops == old(database.drops)
      ensures old(NoDuplicates(database.users)) ==> NoDuplicates(database.users)
      ensures old(AllNotified(database.users, sendLog)) ==> AllNotified(database.users, sendLog)
    {
      ghost var s0 := database.users;
      ghost var d0 := database.deleteCalls;
      var i := 0;
      status := Ok;
      while i < |ids|
        invariant i <= |ids| && i <= Processed(s0, ids)
        invariant database.users == RemoveEach(s0, ids[..i])
        invariant database.deleteCalls == d0 + ids[..i]
        invariant database.drops == old(database.drops)
        invariant status == Ok
      {
        status := database.DeleteUser(ids[i]);
        if status == NotFound {
          assert Processed(s0, ids) == i by { ProcessedStep(s0, ids, i); }
          assert database.deleteCalls == d0 + ids[..i + 1] by {
            assert ids[..i + 1] == ids[..i] + [ids[i]];
          }
          break;
        }
        assert i < Processed(s0, ids) by { ProcessedStep(s0, ids, i); }
        assert ids[..i + 1] == ids[..i] + [ids[i]];
        assert database.users == RemoveEach(s0, ids[..i + 1]) by {
          RemoveEachSnoc(s0, ids[..i], ids[i]);
        }
        i := i + 1;
      }
      assert i == Processed(s0, ids) && (i == |ids| ==> ids[..i] == ids);
      BatchOutcome(s0, ids, sendLog);
    }
  }
}
