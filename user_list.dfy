/** The store's list of users as a value: an ordered sequence of email
    addresses, and the list operations that specify deletion, one address
    at a time and in batches. */
module UserList {

  /** A user is identified by the exact text of its email address. */
  type Email = string

  /** No address occurs twice in the list. */
  predicate NoDuplicates(s: seq<Email>) {
    forall i, j :: 0 <= i < j < |s| ==> s[i] != s[j]
  }

  /** The position of the first entry equal to `e`. */
  function FirstIndex(s: seq<Email>, e: Email): (i: nat)
    requires e in s
    ensures i < |s| && s[i] == e
    ensures e !in s[..i]
  {
    if s[0] == e then 0
    else
      var j := FirstIndex(s[1..], e);
      assert s[..j + 1] == [s[0]] + s[1..][..j];
      1 + j
  }

  /** The list with its first entry equal to `e` taken out and the others
      kept in order, as `List.remove(Object)` leaves it; the list itself
      when no entry equals `e`. */
  function RemoveFirst(s: seq<Email>, e: Email): (r: seq<Email>)
    ensures |r| == if e in s then |s| - 1 else |s|
  {
    if s == [] then []
    else if s[0] == e then s[1..]
    else
      assert e in s <==> e in s[1..];
      [s[0]] + RemoveFirst(s[1..], e)
  }

  /** Removing an absent address leaves the list as it is. */
  lemma {:induction false} RemoveFirstAbsent(s: seq<Email>, e: Email)
    requires e !in s
    ensures RemoveFirst(s, e) == s
  {
    if s != [] {
      assert e !in s[1..];
      RemoveFirstAbsent(s[1..], e);
    }
  }

  /** Removing a present address cuts out exactly its first occurrence:
      what stood before it and what stood after it stay, in order. */
  lemma {:induction false} RemoveFirstAt(s: seq<Email>, e: Email)
    requires e in s
    ensures RemoveFirst(s, e) == s[..FirstIndex(s, e)] + s[FirstIndex(s, e) + 1..]
  {
    if s[0] != e {
      var t := s[1..];
      RemoveFirstAt(t, e);
      var j := FirstIndex(t, e);
      assert s[..j + 1] == [s[0]] + t[..j];
      assert s[j + 2..] == t[j + 1..];
    }
  }

  /** Removal takes one copy of `e` out of the list's multiset of entries
      (none when there is none) and leaves every other entry alone. */
  lemma {:induction false} RemoveFirstMultiset(s: seq<Email>, e: Email)
    ensures multiset(RemoveFirst(s, e)) == multiset(s) - multiset{e}
  {
    if s != [] {
      assert s == [s[0]] + s[1..];
      if s[0] != e {
        RemoveFirstMultiset(s[1..], e);
      }
    }
  }

  /** Removal adds no address, and takes none away except `e`, which stays
      exactly when the list held it more than once. */
  lemma RemoveFirstMembers(s: seq<Email>, e: Email, x: Email)
    ensures x in RemoveFirst(s, e) ==> x in s
    ensures x in s && x != e ==> x in RemoveFirst(s, e)
    ensures e in RemoveFirst(s, e) <==> multiset(s)[e] > 1
  {
    RemoveFirstMultiset(s, e);
    assert x in RemoveFirst(s, e) <==> x in multiset(RemoveFirst(s, e));
    assert e in RemoveFirst(s, e) <==> e in multiset(RemoveFirst(s, e));
    assert x in s <==> x in multiset(s);
  }

  /** Removal keeps a duplicate-free list duplicate-free, and the removed
      address is then gone altogether. */
  lemma {:induction false} RemoveFirstNoDuplicates(s: seq<Email>, e: Email)
    requires NoDuplicates(s)
    ensures NoDuplicates(RemoveFirst(s, e))
    ensures e !in RemoveFirst(s, e)
  {
    if s != [] {
      var t := s[1..];
      assert NoDuplicates(t) by {
        forall i, j | 0 <= i < j < |t| ensures t[i] != t[j] {
          assert t[i] == s[i + 1] && t[j] == s[j + 1];
        }
      }
      if s[0] == e {
        assert forall i :: 0 <= i < |t| ==> t[i] == s[i + 1];
      } else {
        RemoveFirstNoDuplicates(t, e);
        var r := RemoveFirst(t, e);
        assert s[0] !in r by {
          assert s[0] !in t by {
            assert forall i :: 0 <= i < |t| ==> t[i] == s[i + 1];
          }
          RemoveFirstMembers(t, e, s[0]);
        }
        assert RemoveFirst(s, e) == [s[0]] + r;
      }
    }
  }

  /** The list after deleting every address of `ids`, in order, one first
      occurrence at a time; each deletion takes out at most one entry. */
  function RemoveEach(s: seq<Email>, ids: seq<Email>): (r: seq<Email>)
    ensures |s| - |ids| <= |r| <= |s|
    decreases |ids|
  {
    if ids == [] then s else RemoveEach(RemoveFirst(s, ids[0]), ids[1..])
  }

  /** How many deletions of `ids` succeed, in order, before the first
      address that is no longer in the list: `|ids|` when every one does. */
  function Processed(s: seq<Email>, ids: seq<Email>): (k: nat)
    ensures k <= |ids|
    decreases |ids|
  {
    if ids == [] || ids[0] !in s then 0
    else 1 + Processed(RemoveFirst(s, ids[0]), ids[1..])
  }

  /** Deleting one more address after a batch is deleting the longer batch. */
  lemma {:induction false} RemoveEachSnoc(s: seq<Email>, ids: seq<Email>, x: Email)
    ensures RemoveEach(s, ids + [x]) == RemoveFirst(RemoveEach(s, ids), x)
    decreases |ids|
  {
    if ids == [] {
      assert [] + [x] == [x];
      assert [x][1..] == [];
    } else {
      assert (ids + [x])[0] == ids[0];
      assert (ids + [x])[1..] == ids[1..] + [x];
      RemoveEachSnoc(RemoveFirst(s, ids[0]), ids[1..], x);
    }
  }

  /** `Processed` names the first failing deletion: given that the first
      `i` deletions succeed, the next one succeeds exactly when its address
      is still in the list they leave. */
  lemma {:induction false} ProcessedStep(s: seq<Email>, ids: seq<Email>, i: nat)
    requires i < |ids| && i <= Processed(s, ids)
    ensures i < Processed(s, ids) <==> ids[i] in RemoveEach(s, ids[..i])
    decreases i
  {
    if i == 0 {
      assert ids[..0] == [];
    } else {
      var t := RemoveFirst(s, ids[0]);
      ProcessedStep(t, ids[1..], i - 1);
      assert ids[..i][0] == ids[0];
      assert ids[..i][1..] == ids[1..][..i - 1];
    }
  }

  /** A batch is deleted in full exactly when the list holds at least as many
      copies of each address as the batch names. */
  lemma {:induction false} ProcessedFull(s: seq<Email>, ids: seq<Email>)
    ensures Processed(s, ids) == |ids| <==> multiset(ids) <= multiset(s)
    decreases |ids|
  {
    if ids != [] {
      var x := ids[0];
      assert ids == [x] + ids[1..];
      if x in s {
        var t := RemoveFirst(s, x);
        RemoveFirstMultiset(s, x);
        ProcessedFull(t, ids[1..]);
        assert multiset(ids[1..]) <= multiset(t) <==> multiset(ids) <= multiset(s) by {
          assert multiset(s)[x] >= 1;
          forall y ensures multiset(t)[y] == if y == x then multiset(s)[y] - 1 else multiset(s)[y] {}
          forall y ensures multiset(ids)[y] == if y == x then multiset(ids[1..])[y] + 1 else multiset(ids[1..])[y] {}
        }
      } else {
        assert multiset(ids)[x] > 0 && multiset(s)[x] == 0;
      }
    }
  }

  /** Batch deletion takes the batch's addresses out of the multiset of
      entries, copy by copy, as far as there are copies to take. */
  lemma {:induction false} RemoveEachMultiset(s: seq<Email>, ids: seq<Email>)
    ensures multiset(RemoveEach(s, ids)) == multiset(s) - multiset(ids)
    decreases |ids|
  {
    if ids != [] {
      RemoveFirstMultiset(s, ids[0]);
      RemoveEachMultiset(RemoveFirst(s, ids[0]), ids[1..]);
      assert ids == [ids[0]] + ids[1..];
    }
  }

  /** What survives a batch deletion was in the list before it. */
  lemma {:induction false} RemoveEachSubset(s: seq<Email>, ids: seq<Email>, x: Email)
    requires x in RemoveEach(s, ids)
    ensures x in s
    decreases |ids|
  {
    if ids != [] {
      RemoveEachSubset(RemoveFirst(s, ids[0]), ids[1..], x);
      RemoveFirstMembers(s, ids[0], x);
    }
  }

  /** Batch deletion keeps a duplicate-free list duplicate-free. */
  lemma {:induction false} RemoveEachNoDuplicates(s: seq<Email>, ids: seq<Email>)
    requires NoDuplicates(s)
    ensures NoDuplicates(RemoveEach(s, ids))
    decreases |ids|
  {
    if ids != [] {
      RemoveFirstNoDuplicates(s, ids[0]);
      RemoveEachNoDuplicates(RemoveFirst(s, ids[0]), ids[1..]);
    }
  }

  /** Each successful deletion shrinks the list by exactly one entry. */
  lemma {:induction false} ProcessedLength(s: seq<Email>, ids: seq<Email>)
    ensures |RemoveEach(s, ids[..Processed(s, ids)])| == |s| - Processed(s, ids)
    decreases |ids|
  {
    if ids != [] && ids[0] in s {
      var t := RemoveFirst(s, ids[0]);
      var k := Processed(t, ids[1..]);
      ProcessedLength(t, ids[1..]);
      assert ids[..k + 1][0] == ids[0];
      assert ids[..k + 1][1..] == ids[1..][..k];
    } else {
      assert ids[..0] == [];
    }
  }

  /** A batch of distinct addresses that are all in the list is deleted in
      full. */
  lemma {:induction false} ProcessedAllPresent(s: seq<Email>, ids: seq<Email>)
    requires NoDuplicates(ids)
    requires forall i :: 0 <= i < |ids| ==> ids[i] in s
    ensures Processed(s, ids) == |ids|
    decreases |ids|
  {
    if ids != [] {
      var t := RemoveFirst(s, ids[0]);
      var rest := ids[1..];
      assert NoDuplicates(rest) by {
        forall i, j | 0 <= i < j < |rest| ensures rest[i] != rest[j] {
          assert rest[i] == ids[i + 1] && rest[j] == ids[j + 1];
        }
      }
      forall i | 0 <= i < |rest| ensures rest[i] in t {
        assert rest[i] == ids[i + 1] && ids[i + 1] != ids[0];
        RemoveFirstMembers(s, ids[0], rest[i]);
      }
      ProcessedAllPresent(t, rest);
    }
  }
}
