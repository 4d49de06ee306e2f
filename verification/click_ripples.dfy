/** The uncapped click-ripple list shared by the ripple button and the showcase image: every
    click appends one marker keyed by the click's timestamp, and a 600 ms timer later drops
    every marker with that key. */
module ClickRipples {
  import opened Host
  import JsBuiltins

  /** A click marker: its id (a `Date.now()` timestamp, so two clicks in the same millisecond
      share one) and its position relative to the clicked element. */
  datatype Spot = Spot(id: int, x: real, y: real)

  /** How long a click marker lives, in milliseconds. */
  const LifetimeMs: nat := 600

  /** The result of one click: the new list and the expiry timer armed for it. */
  datatype Click = Click(pool: seq<Spot>, timer: Timer<int>)

  /** `createRipple`: the new marker goes at the end, every earlier marker stays where it was,
      and its expiry is armed for `LifetimeMs`. There is no cap. */
  function Press(pool: seq<Spot>, id: int, x: real, y: real): (c: Click)
    ensures |c.pool| == |pool| + 1
    ensures c.pool[..|pool|] == pool && c.pool[|pool|] == Spot(id, x, y)
    ensures c.timer == Timer(id, LifetimeMs)
  {
    Click(pool + [Spot(id, x, y)], Timer(id, LifetimeMs))
  }

  /** The expiry callback: drops every marker with `id`; a missing id is a no-op. */
  function Expire(pool: seq<Spot>, id: int): (r: seq<Spot>)
    ensures forall k :: 0 <= k < |r| ==> r[k].id != id
    ensures (forall k :: 0 <= k < |pool| ==> pool[k].id != id) ==> r == pool
    ensures |r| <= |pool|
  {
    JsBuiltins.Filter(pool, (s: Spot) => s.id != id)
  }

  /** Expiry removes exactly the markers with that id, keeps every other marker with its
      multiplicity, keeps the survivors in order, and is idempotent. */
  lemma ExpireRemovesExactlyId(pool: seq<Spot>, id: int)
    ensures forall s :: s in Expire(pool, id) <==> s in pool && s.id != id
    ensures forall s: Spot :: s.id != id ==> multiset(Expire(pool, id))[s] == multiset(pool)[s]
    ensures forall a, b :: pool == a + b ==> Expire(pool, id) == Expire(a, id) + Expire(b, id)
    ensures Expire(Expire(pool, id), id) == Expire(pool, id)
  {
    JsBuiltins.FilterContents(pool, (s: Spot) => s.id != id);
    forall a, b | pool == a + b
      ensures Expire(pool, id) == Expire(a, id) + Expire(b, id)
    {
      JsBuiltins.FilterConcat(a, b, (s: Spot) => s.id != id);
    }
  }

  /** When the click's id is fresh, its own expiry exactly undoes the click. */
  lemma ExpireUndoesPress(pool: seq<Spot>, id: int, x: real, y: real)
    requires forall k :: 0 <= k < |pool| ==> pool[k].id != id
    ensures Expire(Press(pool, id, x, y).pool, id) == pool
  {
  }

  /** A click and the expiry of a different id commute, and expiries commute with each other:
      the result does not depend on the order in which timers fire. */
  lemma ExpiryOrderIrrelevant(pool: seq<Spot>, id: int, x: real, y: real, a: int, b: int)
    requires a != id
    ensures Expire(Press(pool, id, x, y).pool, a) == Press(Expire(pool, a), id, x, y).pool
    ensures Expire(Expire(pool, a), b) == Expire(Expire(pool, b), a)
  {
    JsBuiltins.FilterConcat(pool, [Spot(id, x, y)], (s: Spot) => s.id != a);
    JsBuiltins.FilterCommute(pool, (s: Spot) => s.id != a, (s: Spot) => s.id != b);
  }

  /** Two clicks in the same millisecond share an id, so the first of their timers to fire
      removes both markers at once (and every older marker with that id), leaving the list as
      one expiry of the original would; the second timer then finds nothing. */
  lemma CollidingIdsExpireTogether(pool: seq<Spot>, id: int, x1: real, y1: real, x2: real, y2: real)
    ensures Expire(Press(Press(pool, id, x1, y1).pool, id, x2, y2).pool, id) == Expire(pool, id)
  {
    var keep := (s: Spot) => s.id != id;
    JsBuiltins.FilterConcat(pool + [Spot(id, x1, y1)], [Spot(id, x2, y2)], keep);
    JsBuiltins.FilterConcat(pool, [Spot(id, x1, y1)], keep);
  }
}
