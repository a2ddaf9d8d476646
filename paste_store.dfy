/**
 * The `pastes` table and the two statements the handlers run against it:
 * the INSERT of a new record and the atomic consume-or-reject UPDATE.
 * Time is in milliseconds.
 */
module PasteStore {
  import opened Wrappers
  import opened CreateRules

  /** One row of the `pastes` table; null columns are `None`. */
  datatype Paste = Paste(content: string, createdAt: int, expiresAt: Option<int>, viewsLeft: Option<int>)

  /** The table, keyed by its primary key `id`. */
  type Table = map<string, Paste>

  /** The columns of `RETURNING content, views_left, expires_at`. */
  datatype Row = Row(content: string, viewsLeft: Option<int>, expiresAt: Option<int>)

  function AsRow(p: Paste): Row {
    Row(p.content, p.viewsLeft, p.expiresAt)
  }

  /** `expires_at IS NULL OR expires_at > now` */
  predicate NotExpired(p: Paste, now: int) {
    p.expiresAt.None? || p.expiresAt.value > now
  }

  /** `views_left IS NULL OR views_left > 0` */
  predicate HasViewsLeft(p: Paste) {
    p.viewsLeft.None? || p.viewsLeft.value > 0
  }

  /** The eligibility test of the UPDATE's WHERE clause, apart from the id. */
  predicate Live(p: Paste, now: int)
    ensures Live(p, now) ==> forall earlier :: earlier <= now ==> NotExpired(p, earlier)
    ensures p.viewsLeft == Some(0) ==> !Live(p, now)
    ensures p.expiresAt.Some? && now >= p.expiresAt.value ==> !Live(p, now)
    ensures p.expiresAt.None? && p.viewsLeft.None? ==> Live(p, now)
  {
    NotExpired(p, now) && HasViewsLeft(p)
  }

  /** `SET views_left = CASE WHEN views_left IS NOT NULL THEN views_left - 1 ELSE views_left END` */
  function Decremented(p: Paste): (r: Paste)
    ensures r.content == p.content && r.createdAt == p.createdAt && r.expiresAt == p.expiresAt
    ensures p.viewsLeft.None? ==> r == p
    ensures p.viewsLeft.Some? ==> r.viewsLeft == Some(p.viewsLeft.value - 1)
  {
    p.(viewsLeft := if p.viewsLeft.Some? then Some(p.viewsLeft.value - 1) else p.viewsLeft)
  }

  /**
   * What every stored record satisfies: the view counter is never negative,
   * and a TTL puts the expiry at least one second after creation.
   */
  predicate WellFormed(p: Paste) {
    && (p.viewsLeft.None? || p.viewsLeft.value >= 0)
    && (p.expiresAt.None? || p.expiresAt.value >= p.createdAt + 1000)
  }

  predicate AllWellFormed(t: Table) {
    forall id :: id in t ==> WellFormed(t[id])
  }

  /** The row the create handlers insert for an accepted request. */
  function NewPaste(input: Accepted, createdAt: int): (p: Paste)
    ensures p.content == input.content && p.createdAt == createdAt
    ensures p.viewsLeft == input.maxViews
    ensures WellFormed(p)
    // readable at the instant it is created
    ensures Live(p, createdAt)
    // with a TTL it is readable strictly before createdAt + ttl * 1000, without one forever
    ensures forall now :: NotExpired(p, now) <==>
              input.ttlSeconds.None? || now < createdAt + input.ttlSeconds.value * 1000
  {
    Paste(input.content, createdAt, ExpiresAt(createdAt, input.ttlSeconds), input.maxViews)
  }

  /**
   * The UPDATE ... WHERE ... RETURNING statement on the whole table: every row
   * whose id matches and that is live at `now` is decremented, and the
   * updated rows are returned. `id` is the primary key, so at most one row
   * matches.
   */
  function UpdateReturning(t: Table, id: string, now: int): (res: (Table, seq<Row>))
    ensures res.0.Keys == t.Keys
    ensures |res.1| <= 1
    // the statement matches a row exactly when the id exists and the record is live
    ensures |res.1| == 1 <==> id in t && Live(t[id], now)
    // no match: nothing changes
    ensures |res.1| == 0 ==> res.0 == t
    // a match: only that row's counter moves, and the returned row is the updated one
    ensures |res.1| == 1 ==> res.0 == t[id := Decremented(t[id])] && res.1[0] == AsRow(res.0[id])
    // the view counter never goes below zero
    ensures AllWellFormed(t) ==> AllWellFormed(res.0)
  {
    var updated := map k | k in t :: if k == id && Live(t[k], now) then Decremented(t[k]) else t[k];
    var rows := if id in t && Live(t[id], now) then [AsRow(updated[id])] else [];
    (updated, rows)
  }

  /** The `pastes` table as the handlers share it. */
  class Store {
    var pastes: Table

    ghost predicate Valid()
      reads this
    {
      AllWellFormed(pastes)
    }

    constructor ()
      ensures Valid() && pastes == map[]
    {
      pastes := map[];
    }

    /**
     * INSERT INTO pastes (id, content, created_at, expires_at, views_left).
     * An id already in use violates the primary key and the INSERT fails.
     */
    method Create(id: string, input: Accepted, createdAt: int) returns (inserted: bool)
      requires Valid()
      modifies this
      ensures Valid()
      ensures inserted == (id !in old(pastes))
      ensures pastes == if inserted then old(pastes)[id := NewPaste(input, createdAt)] else old(pastes)
    {
      if id in pastes {
        inserted := false;
      } else {
        pastes := pastes[id := NewPaste(input, createdAt)];
        inserted := true;
      }
    }

    /**
     * The atomic consume-or-reject: the row is looked up, tested and
     * decremented within this one method body, so no other call can observe
     * the state between the test and the decrement.
     */
    method Consume(id: string, now: int) returns (rows: seq<Row>)
      requires Valid()
      modifies this
      ensures Valid()
      ensures (pastes, rows) == UpdateReturning(old(pastes), id, now)
    {
      rows := [];
      if id in pastes {
        var p := pastes[id];
        if Live(p, now) {
          var q := Decremented(p);
          pastes := pastes[id := q];
          rows := [AsRow(q)];
        }
      }
    }
  }
}
