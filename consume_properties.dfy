/**
 * What a sequence of consume calls on one id does. Each call is the atomic
 * UPDATE of PasteStore, so any interleaving of concurrent readers is one
 * such sequence.
 */
module ConsumeProperties {
  import opened Wrappers
  import opened PasteStore

  /** Consume `id` once at each instant of `nows`, in order; the final table and each call's returned rows. */
  function Run(t: Table, id: string, nows: seq<int>): (res: (Table, seq<seq<Row>>))
    ensures |res.1| == |nows|
    // every call returns at most one row
    ensures forall i :: 0 <= i < |nows| ==> |res.1[i]| <= 1
    // the set of ids never changes
    ensures res.0.Keys == t.Keys
    decreases |nows|
  {
    if nows == [] then (t, [])
    else
      var step := UpdateReturning(t, id, nows[0]);
      var rest := Run(step.0, id, nows[1..]);
      (rest.0, [step.1] + rest.1)
  }

  /**
   * A record with `views_left = n`, read while it has not expired: exactly the
   * first n calls succeed, the i-th success reports n - 1 - i remaining views,
   * and every later call fails.
   */
  lemma {:induction false} ExactlyFirstNSucceed(t: Table, id: string, nows: seq<int>, n: int)
    requires id in t && t[id].viewsLeft == Some(n) && n >= 0
    requires forall i :: 0 <= i < |nows| ==> NotExpired(t[id], nows[i])
    ensures forall i :: 0 <= i < |nows| ==> (|Run(t, id, nows).1[i]| == 1 <==> i < n)
    ensures forall i :: 0 <= i < |nows| && i < n ==>
              Run(t, id, nows).1[i][0] == Row(t[id].content, Some(n - 1 - i), t[id].expiresAt)
    decreases |nows|
  {
    if nows != [] {
      var step := UpdateReturning(t, id, nows[0]);
      var m := if n > 0 then n - 1 else 0;
      assert step.0[id] == t[id].(viewsLeft := Some(m));
      ExactlyFirstNSucceed(step.0, id, nows[1..], m);
      var later := Run(step.0, id, nows[1..]).1;
      var calls := Run(t, id, nows).1;
      assert calls == [step.1] + later;
      forall i | 1 <= i < |nows|
        ensures (|calls[i]| == 1 <==> i < n)
        ensures i < n ==> calls[i][0] == Row(t[id].content, Some(n - 1 - i), t[id].expiresAt)
      {
        assert calls[i] == later[i - 1];
        assert |later[i - 1]| == 1 <==> i - 1 < m;
        if i < n {
          assert later[i - 1][0] == Row(t[id].content, Some(m - 1 - (i - 1)), t[id].expiresAt);
        }
      }
    }
  }

  /**
   * After those calls the record's counter is n minus the number of calls, but
   * never below zero; nothing else about it, and no other record, changes.
   */
  lemma {:induction false} ViewsAfterCalls(t: Table, id: string, nows: seq<int>, n: int)
    requires id in t && t[id].viewsLeft == Some(n) && n >= 0
    requires forall i :: 0 <= i < |nows| ==> NotExpired(t[id], nows[i])
    ensures Run(t, id, nows).0.Keys == t.Keys
    ensures Run(t, id, nows).0[id] == t[id].(viewsLeft := Some(if |nows| < n then n - |nows| else 0))
    ensures forall k :: k in t && k != id ==> Run(t, id, nows).0[k] == t[k]
    decreases |nows|
  {
    if nows != [] {
      var step := UpdateReturning(t, id, nows[0]);
      var m := if n > 0 then n - 1 else 0;
      assert step.0[id] == t[id].(viewsLeft := Some(m));
      ViewsAfterCalls(step.0, id, nows[1..], m);
    }
  }

  /** Exactly one of any K >= 1 readers of a single-view paste gets the content. */
  lemma OneViewOneReader(t: Table, id: string, nows: seq<int>)
    requires id in t && t[id].viewsLeft == Some(1) && |nows| >= 1
    requires forall i :: 0 <= i < |nows| ==> NotExpired(t[id], nows[i])
    ensures |Run(t, id, nows).1[0]| == 1
    ensures forall i :: 1 <= i < |nows| ==> |Run(t, id, nows).1[i]| == 0
  {
    ExactlyFirstNSucceed(t, id, nows, 1);
    var calls := Run(t, id, nows).1;
    forall i | 1 <= i < |nows| ensures |calls[i]| == 0 {
      assert |calls[i]| == 1 <==> i < 1;
    }
  }

  /**
   * A record without a view limit is read successfully at every instant
   * before its expiry (at every instant when it has none), always reporting
   * null remaining views, and is never changed.
   */
  lemma {:induction false} UnlimitedWhileNotExpired(t: Table, id: string, nows: seq<int>)
    requires id in t && t[id].viewsLeft.None?
    requires forall i :: 0 <= i < |nows| ==> NotExpired(t[id], nows[i])
    ensures forall i :: 0 <= i < |nows| ==> Run(t, id, nows).1[i] == [Row(t[id].content, None, t[id].expiresAt)]
    ensures Run(t, id, nows).0 == t
    decreases |nows|
  {
    if nows != [] {
      assert UpdateReturning(t, id, nows[0]).0 == t;
      UnlimitedWhileNotExpired(t, id, nows[1..]);
    }
  }

  /**
   * Once a record is unavailable at `start` (expired or out of views), every
   * call at `start` or later fails and changes nothing: it never comes back.
   */
  lemma {:induction false} DeadStaysDead(t: Table, id: string, start: int, nows: seq<int>)
    requires id in t && !Live(t[id], start)
    requires forall i :: 0 <= i < |nows| ==> start <= nows[i]
    ensures forall i :: 0 <= i < |nows| ==> Run(t, id, nows).1[i] == []
    ensures Run(t, id, nows).0 == t
    decreases |nows|
  {
    if nows != [] {
      assert !Live(t[id], nows[0]);
      DeadStaysDead(t, id, start, nows[1..]);
    }
  }

  /** Consuming an id that was never stored fails every time and never changes the table. */
  lemma {:induction false} MissingIdNeverChanges(t: Table, id: string, nows: seq<int>)
    requires id !in t
    ensures forall i :: 0 <= i < |nows| ==> Run(t, id, nows).1[i] == []
    ensures Run(t, id, nows).0 == t
    decreases |nows|
  {
    if nows != [] {
      MissingIdNeverChanges(t, id, nows[1..]);
    }
  }

  /** The expiry bound is exclusive: a record expiring at e is readable at e - 1 and not at e. */
  lemma ExpiryIsExclusive(t: Table, id: string, e: int)
    requires id in t && t[id].expiresAt == Some(e) && HasViewsLeft(t[id])
    ensures |UpdateReturning(t, id, e - 1).1| == 1
    ensures |UpdateReturning(t, id, e).1| == 0
  {
  }
}
