/** The featured-works carousel: a current slide index moved by the next/previous arrows, the
    thumbnails and a periodic auto-advance, plus click markers on the slide image. */
module WorksShowcase {
  import ClickRipples

  /** The number of works in the carousel's fixed list. */
  const WorkCount: nat := 4

  /** The slide after `i`, wrapping from the last slide to the first. */
  function Next(i: nat, n: nat): (j: nat)
    requires i < n
    ensures j < n
    ensures i < n - 1 ==> j == i + 1
    ensures i == n - 1 ==> j == 0
  {
    (i + 1) % n
  }

  /** The slide before `i`, wrapping from the first slide to the last. The operands are never
      negative, so JavaScript's truncating `%` agrees with the Euclidean one used here. */
  function Prev(i: nat, n: nat): (j: nat)
    requires i < n
    ensures j < n
    ensures 0 < i ==> j == i - 1
    ensures i == 0 ==> j == n - 1
  {
    (i - 1 + n) % n
  }

  /** The two arrows undo each other. */
  lemma NextPrevInverse(i: nat, n: nat)
    requires i < n
    ensures Prev(Next(i, n), n) == i
    ensures Next(Prev(i, n), n) == i
  {
  }

  /** The index after pressing "next" `k` times from `i`. */
  function NextN(i: nat, k: nat, n: nat): (j: nat)
    requires i < n
    ensures j < n
    decreases k
  {
    if k == 0 then i else Next(NextN(i, k - 1, n), n)
  }

  /** Within one turn, `k` steps forward move `k` slides on, wrapping past the end once. */
  lemma {:induction false} NextNWithinTurn(i: nat, k: nat, n: nat)
    requires i < n && k <= n
    ensures NextN(i, k, n) == if i + k < n then i + k else i + k - n
    decreases k
  {
    if k > 0 {
      NextNWithinTurn(i, k - 1, n);
    }
  }

  /** The carousel cycles with period exactly `n`: `n` steps return to the start and no
      shorter positive number of steps does. */
  lemma CycleLength(i: nat, n: nat, k: nat)
    requires i < n
    ensures NextN(i, n, n) == i
    ensures 0 < k < n ==> NextN(i, k, n) != i
  {
    NextNWithinTurn(i, n, n);
    if 0 < k < n {
      NextNWithinTurn(i, k, n);
    }
  }

  /** The component state: the current slide and the live click markers. */
  datatype State = State(current: nat, ripples: seq<ClickRipples.Spot>)

  /** The state on mount: the first slide and no markers. */
  const Initial: State := State(0, [])

  /** A thumbnail click: the slide shown is exactly the one at the clicked position, and the
      click markers are untouched. */
  function SelectThumbnail(s: State, index: nat): (t: State)
    requires index < WorkCount
    ensures t.current == index && t.ripples == s.ripples
  {
    s.(current := index)
  }

  /** What the carousel reacts to: the arrows, a thumbnail at position `index`, the 5-second
      auto-advance, a click on the slide image, and a marker's expiry timer. */
  datatype Event =
    | NextClick
    | PrevClick
    | Thumbnail(index: nat)
    | AutoAdvance
    | ImageClick(id: int, x: real, y: real)
    | RippleExpired(id: int)

  /** A thumbnail event is well formed when it names a rendered thumbnail. */
  predicate Valid(e: Event)
  {
    e.Thumbnail? ==> e.index < WorkCount
  }

  /** One event. The arrows and the auto-advance move the index; a thumbnail selects exactly
      its own slide; clicks and expiries touch only the markers. */
  function Step(s: State, e: Event): (t: State)
    requires s.current < WorkCount && Valid(e)
    ensures t.current < WorkCount
    ensures e.Thumbnail? ==> t == s.(current := e.index)
    ensures (e.NextClick? || e.AutoAdvance?) ==>
      t.current == (if s.current < WorkCount - 1 then s.current + 1 else 0)
    ensures e.PrevClick? ==> t.current == (if s.current > 0 then s.current - 1 else WorkCount - 1)
    ensures e.ImageClick? ==> t.ripples == s.ripples + [ClickRipples.Spot(e.id, e.x, e.y)]
    ensures e.RippleExpired? ==> t.ripples == ClickRipples.Expire(s.ripples, e.id)
    ensures (e.ImageClick? || e.RippleExpired?) ==> t.current == s.current
    ensures (e.NextClick? || e.AutoAdvance? || e.PrevClick? || e.Thumbnail?) ==> t.ripples == s.ripples
  {
    match e
    case NextClick => s.(current := Next(s.current, WorkCount))
    case AutoAdvance => s.(current := Next(s.current, WorkCount))
    case PrevClick => s.(current := Prev(s.current, WorkCount))
    case Thumbnail(index) => SelectThumbnail(s, index)
    case ImageClick(id, x, y) => s.(ripples := ClickRipples.Press(s.ripples, id, x, y).pool)
    case RippleExpired(id) => s.(ripples := ClickRipples.Expire(s.ripples, id))
  }

  /** The state after processing `events` in order. */
  function Run(s: State, events: seq<Event>): (t: State)
    requires s.current < WorkCount
    requires forall k :: 0 <= k < |events| ==> Valid(events[k])
    ensures t.current < WorkCount
    decreases |events|
  {
    if |events| == 0 then s else Run(Step(s, events[0]), events[1..])
  }

  /** Five presses of "next" from the first slide wrap round to the second slide. */
  lemma FivePressesFromStart()
    ensures Run(Initial, [NextClick, NextClick, NextClick, NextClick, NextClick]).current == 1
  {
  }
}
