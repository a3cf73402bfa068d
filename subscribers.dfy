/**
 * The subscriber table behind `add_subscriber` and `check_access`, held in
 * memory: one row per subscription with its email, start time and expiry
 * time.  Times are whole seconds; `now` is a parameter instead of a clock.
 */
module Subscribers {
  import opened Wrappers

  const SecondsPerDay := 86400

  datatype Subscriber = Subscriber(email: string, start: int, expiry: int)

  /** `email in df['email'].values`. */
  predicate Listed(rows: seq<Subscriber>, email: string) {
    exists i :: 0 <= i < |rows| && rows[i].email == email
  }

  /** Every row whose email matches gets the new start and expiry; no other row changes. */
  function Renewed(rows: seq<Subscriber>, email: string, start: int, expiry: int): seq<Subscriber> {
    seq(|rows|, i requires 0 <= i < |rows| => if rows[i].email == email then Subscriber(email, start, expiry) else rows[i])
  }

  /** The table after `add_subscriber`: renewed rows for a listed email, else one appended row. */
  function Upserted(rows: seq<Subscriber>, email: string, start: int, expiry: int): (r: seq<Subscriber>)
    ensures |r| == if Listed(rows, email) then |rows| else |rows| + 1
    ensures Subscriber(email, start, expiry) in r
  {
    if Listed(rows, email) then
      var i :| 0 <= i < |rows| && rows[i].email == email;
      assert Renewed(rows, email, start, expiry)[i] == Subscriber(email, start, expiry);
      Renewed(rows, email, start, expiry)
    else rows + [Subscriber(email, start, expiry)]
  }

  /** The set of emails that have a row. */
  function Emails(rows: seq<Subscriber>): set<string> {
    set i | 0 <= i < |rows| :: rows[i].email
  }

  /** No email has two rows. */
  predicate Unique(rows: seq<Subscriber>) {
    forall i, j :: 0 <= i < j < |rows| ==> rows[i].email != rows[j].email
  }

  class SubscriberTable {
    var rows: seq<Subscriber>

    constructor()
      ensures rows == []
    {
      rows := [];
    }

    /** `add_subscriber(email, days_valid)` at time `now`. */
    method AddSubscriber(email: string, daysValid: int, now: int)
      modifies this
      ensures rows == Upserted(old(rows), email, now, now + daysValid * SecondsPerDay)
    {
      var expiry := now + daysValid * SecondsPerDay;
      var found := false;
      var i := 0;
      while i < |rows|
        invariant 0 <= i <= |rows|
        invariant found <==> exists j :: 0 <= j < i && rows[j].email == email
      {
        if rows[i].email == email {
          found := true;
        }
        i := i + 1;
      }
      if found {
        var k := 0;
        while k < |rows|
          invariant 0 <= k <= |rows| == |old(rows)|
          invariant forall j :: 0 <= j < k ==> rows[j] == Renewed(old(rows), email, now, expiry)[j]
          invariant forall j :: k <= j < |rows| ==> rows[j] == old(rows)[j]
        {
          if rows[k].email == email {
            rows := rows[k := Subscriber(email, now, expiry)];
          }
          k := k + 1;
        }
      } else {
        rows := rows + [Subscriber(email, now, expiry)];
      }
    }
  }

  /** The first row of `email`, as `df[df['email'] == email].iloc[0]`. */
  function FirstRow(rows: seq<Subscriber>, email: string): (r: Option<Subscriber>)
    ensures r.None? <==> !Listed(rows, email)
    ensures r.Some? ==> exists i :: (0 <= i < |rows| && rows[i] == r.value && r.value.email == email
                                     && forall j :: 0 <= j < i ==> rows[j].email != email)
  {
    if rows == [] then None
    else if rows[0].email == email then Some(rows[0])
    else
      var r := FirstRow(rows[1..], email);
      assert forall i :: 1 <= i < |rows| ==> rows[i] == rows[1..][i - 1];
      if r.Some? then
        var i :| 0 <= i < |rows[1..]| && rows[1..][i] == r.value && r.value.email == email
          && forall j :: 0 <= j < i ==> rows[1..][j].email != email;
        assert rows[i + 1] == rows[1..][i];
        r
      else
        assert !Listed(rows[1..], email);
        r
  }

  /** `(expiry - now).days`: whole days, rounded towards minus infinity. */
  function Days(seconds: int): (d: int)
    ensures d * SecondsPerDay <= seconds < (d + 1) * SecondsPerDay
  {
    seconds / SecondsPerDay
  }

  /** `check_access(email)` at time `now`: whether the subscription runs, and the days left. */
  function CheckAccess(rows: seq<Subscriber>, email: Option<string>, now: int): (r: (bool, Option<int>))
    ensures r.1.None? <==> email.None? || email.value == "" || !Listed(rows, email.value)
    ensures r.0 ==> r.1.Some?
  {
    if email.None? || email.value == "" then (false, None)
    else
      match FirstRow(rows, email.value)
      case None => (false, None)
      case Some(row) => (row.expiry >= now, Some(Days(row.expiry - now)))
  }

  /** For a listed email the row count stays, that email's rows take the new dates, the others stay. */
  lemma {:induction false} UpsertExisting(rows: seq<Subscriber>, email: string, start: int, expiry: int)
    requires Listed(rows, email)
    ensures |Upserted(rows, email, start, expiry)| == |rows|
    ensures forall i :: 0 <= i < |rows| && rows[i].email != email ==> Upserted(rows, email, start, expiry)[i] == rows[i]
    ensures forall i :: 0 <= i < |rows| && rows[i].email == email ==> Upserted(rows, email, start, expiry)[i] == Subscriber(email, start, expiry)
  {
  }

  /** For a new email exactly one row is appended, the earlier rows untouched. */
  lemma {:induction false} UpsertNew(rows: seq<Subscriber>, email: string, start: int, expiry: int)
    requires !Listed(rows, email)
    ensures |Upserted(rows, email, start, expiry)| == |rows| + 1
    ensures Upserted(rows, email, start, expiry)[..|rows|] == rows
    ensures Upserted(rows, email, start, expiry)[|rows|] == Subscriber(email, start, expiry)
  {
  }

  /** After an upsert the email has a row, and no other email gains or loses one. */
  lemma {:induction false} UpsertEmails(rows: seq<Subscriber>, email: string, start: int, expiry: int)
    ensures Emails(Upserted(rows, email, start, expiry)) == Emails(rows) + {email}
  {
    var r := Upserted(rows, email, start, expiry);
    if Listed(rows, email) {
      forall e | e in Emails(r)
        ensures e in Emails(rows) + {email}
      {
        var i :| 0 <= i < |r| && r[i].email == e;
        assert rows[i].email == e || e == email;
      }
      forall e | e in Emails(rows) + {email}
        ensures e in Emails(r)
      {
        var i :| 0 <= i < |rows| && rows[i].email == e;
        assert r[i].email == e;
      }
    } else {
      forall e | e in Emails(r)
        ensures e in Emails(rows) + {email}
      {
        var i :| 0 <= i < |r| && r[i].email == e;
        if i < |rows| {
          assert rows[i].email == e;
        }
      }
      forall e | e in Emails(rows) + {email}
        ensures e in Emails(r)
      {
        if e == email {
          assert r[|rows|].email == e;
        } else {
          var i :| 0 <= i < |rows| && rows[i].email == e;
          assert r[i].email == e;
        }
      }
    }
  }

  /** An upsert keeps the table free of duplicate emails. */
  lemma {:induction false} UpsertKeepsUnique(rows: seq<Subscriber>, email: string, start: int, expiry: int)
    requires Unique(rows)
    ensures Unique(Upserted(rows, email, start, expiry))
  {
    var r := Upserted(rows, email, start, expiry);
    if !Listed(rows, email) {
      forall i, j | 0 <= i < j < |r|
        ensures r[i].email != r[j].email
      {
        if j == |rows| {
          assert r[i] == rows[i];
        } else {
          assert r[i] == rows[i] && r[j] == rows[j];
        }
      }
    }
  }

  /** `FirstRow` depends only on the emails, and on the rows of the email sought. */
  lemma {:induction false} FirstRowAgrees(a: seq<Subscriber>, b: seq<Subscriber>, email: string)
    requires |a| == |b|
    requires forall i :: 0 <= i < |a| ==> a[i].email == b[i].email
    requires forall i :: 0 <= i < |a| && a[i].email == email ==> a[i] == b[i]
    ensures FirstRow(a, email) == FirstRow(b, email)
  {
    if a != [] && a[0].email != email {
      assert forall i :: 0 <= i < |a| - 1 ==> a[1..][i] == a[i + 1] && b[1..][i] == b[i + 1];
      FirstRowAgrees(a[1..], b[1..], email);
    }
  }

  /** Appending a row of another email does not change the first row of `email`. */
  lemma {:induction false} FirstRowAppend(rows: seq<Subscriber>, x: Subscriber, email: string)
    requires x.email != email
    ensures FirstRow(rows + [x], email) == FirstRow(rows, email)
  {
    if rows == [] {
      assert rows + [x] == [x];
      assert [x][1..] == [];
    } else {
      assert (rows + [x])[0] == rows[0] && (rows + [x])[1..] == rows[1..] + [x];
      FirstRowAppend(rows[1..], x, email);
    }
  }

  /** Adding one subscriber does not move the first row of any other email. */
  lemma {:induction false} UpsertFirstRowOther(rows: seq<Subscriber>, email: string, start: int, expiry: int, other: string)
    requires other != email
    ensures FirstRow(Upserted(rows, email, start, expiry), other) == FirstRow(rows, other)
  {
    if Listed(rows, email) {
      FirstRowAgrees(Renewed(rows, email, start, expiry), rows, other);
    } else {
      FirstRowAppend(rows, Subscriber(email, start, expiry), other);
    }
  }

  /** Adding one subscriber changes no other email's access. */
  lemma {:induction false} UpsertOthersUnaffected(rows: seq<Subscriber>, email: string, start: int, expiry: int, other: string, now: int)
    requires other != email
    ensures CheckAccess(Upserted(rows, email, start, expiry), Some(other), now) == CheckAccess(rows, Some(other), now)
  {
    UpsertFirstRowOther(rows, email, start, expiry, other);
    SameFirstRowSameAccess(Upserted(rows, email, start, expiry), rows, other, now);
  }

  lemma {:induction false} SameFirstRowSameAccess(a: seq<Subscriber>, b: seq<Subscriber>, email: string, now: int)
    requires FirstRow(a, email) == FirstRow(b, email)
    ensures CheckAccess(a, Some(email), now) == CheckAccess(b, Some(email), now)
  {
  }

  /** After an upsert the first row of the email is the new subscription. */
  lemma {:induction false} UpsertFirstRow(rows: seq<Subscriber>, email: string, start: int, expiry: int)
    ensures FirstRow(Upserted(rows, email, start, expiry), email) == Some(Subscriber(email, start, expiry))
  {
    var r := Upserted(rows, email, start, expiry);
    if Listed(rows, email) {
      var j :| 0 <= j < |rows| && rows[j].email == email;
      assert r[j].email == email;
      var f := FirstRow(r, email);
      var i :| 0 <= i < |r| && r[i] == f.value && f.value.email == email;
      assert rows[i].email == email;
    } else {
      assert r[|rows|].email == email;
      var f := FirstRow(r, email);
      var i :| 0 <= i < |r| && r[i] == f.value && f.value.email == email;
      if i < |rows| {
        assert rows[i] == r[i];
      }
    }
  }

  /**
   * Subscribing with a given expiry grants access from any time up to that
   * expiry, and not after it, with the whole days left.
   */
  lemma {:induction false} AccessAfterSubscribing(rows: seq<Subscriber>, email: string, start: int, expiry: int, t: int)
    requires email != ""
    ensures CheckAccess(Upserted(rows, email, start, expiry), Some(email), t) == (t <= expiry, Some(Days(expiry - t)))
  {
    UpsertFirstRow(rows, email, start, expiry);
  }

  /** No email, an empty email and an unknown email are refused, with no day count. */
  lemma {:induction false} AccessRefused(rows: seq<Subscriber>, email: Option<string>, now: int)
    requires email.None? || email.value == "" || !Listed(rows, email.value)
    ensures CheckAccess(rows, email, now) == (false, None)
  {
  }

  /** The day count agrees with the verdict: access exactly when it is not negative. */
  lemma {:induction false} DaysAgreeWithAccess(rows: seq<Subscriber>, email: Option<string>, now: int)
    requires CheckAccess(rows, email, now).1.Some?
    ensures CheckAccess(rows, email, now).0 <==> CheckAccess(rows, email, now).1.value >= 0
  {
  }

  /** In a table without duplicates, access means some row of the email has not expired. */
  lemma {:induction false} AccessUnique(rows: seq<Subscriber>, email: string, now: int)
    requires Unique(rows) && email != ""
    ensures CheckAccess(rows, Some(email), now).0 <==> exists i :: 0 <= i < |rows| && rows[i].email == email && rows[i].expiry >= now
  {
    if Listed(rows, email) {
      var f := FirstRow(rows, email).value;
      var k :| 0 <= k < |rows| && rows[k] == f && f.email == email;
      assert forall i :: 0 <= i < |rows| && rows[i].email == email ==> i == k;
    }
  }
}
