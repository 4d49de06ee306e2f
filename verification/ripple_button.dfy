/** The button that draws a click marker and then forwards the click to the caller's own
    `onClick` handler, when one was given. */
module RippleButton {
  import opened Host
  import ClickRipples

  /** What one click does, in the order the handler does it: update the marker list, arm the
      marker's expiry, and call the caller's handler `H` with the click. */
  datatype Step<H> =
    | AddRipple(spot: ClickRipples.Spot)
    | ArmExpiry(timer: Timer<int>)
    | CallOnClick(handler: H)

  /** The number of steps in `steps` that call a handler. */
  function Calls<H>(steps: seq<Step<H>>): (n: nat)
    ensures n <= |steps|
    ensures n == 0 <==> forall k :: 0 <= k < |steps| ==> !steps[k].CallOnClick?
  {
    if |steps| == 0 then 0
    else (if steps[0].CallOnClick? then 1 else 0) + Calls(steps[1..])
  }

  /** The state after a click, with the steps taken to get there. */
  datatype Outcome<H> = Outcome(pool: seq<ClickRipples.Spot>, steps: seq<Step<H>>)

  /** The button's click handler: one marker at the click position, then, if the caller gave
      an `onClick`, exactly one forwarded call, made after the marker was added. */
  function HandleClick<H>(pool: seq<ClickRipples.Spot>, id: int, x: real, y: real,
                          onClick: Option<H>): (o: Outcome<H>)
    ensures o.pool == ClickRipples.Press(pool, id, x, y).pool
    ensures |o.steps| >= 2 && o.steps[0] == AddRipple(ClickRipples.Spot(id, x, y))
    ensures o.steps[1] == ArmExpiry(Timer(id, ClickRipples.LifetimeMs))
    ensures |o.steps| == if onClick.Some? then 3 else 2
    ensures Calls(o.steps) == if onClick.Some? then 1 else 0
    ensures forall k :: 0 <= k < |o.steps| && o.steps[k].CallOnClick? ==>
      k > 0 && o.steps[k].handler == onClick.value
  {
    var press := ClickRipples.Press(pool, id, x, y);
    var steps := [AddRipple(ClickRipples.Spot(id, x, y)), ArmExpiry(press.timer)]
      + match onClick
        case Some(h) => [CallOnClick(h)]
        case None => [];
    assert Calls(steps) == Calls(steps[2..]);
    Outcome(press.pool, steps)
  }

  /** The list after one click for each of `clicks`, each given by its id and position, with no
      expiry between. */
  function PressAll(pool: seq<ClickRipples.Spot>, clicks: seq<ClickRipples.Spot>): seq<ClickRipples.Spot>
    decreases |clicks|
  {
    if |clicks| == 0 then pool
    else PressAll(ClickRipples.Press(pool, clicks[0].id, clicks[0].x, clicks[0].y).pool, clicks[1..])
  }

  /** Over a sequence of clicks the list only grows, one marker per click, each at its own
      position after all earlier markers: the button has no cap. */
  lemma {:induction false} ClicksAccumulate(pool: seq<ClickRipples.Spot>, clicks: seq<ClickRipples.Spot>)
    ensures PressAll(pool, clicks) == pool + clicks
    decreases |clicks|
  {
    if |clicks| > 0 {
      var c := clicks[0];
      ClicksAccumulate(ClickRipples.Press(pool, c.id, c.x, c.y).pool, clicks[1..]);
      assert (pool + [c]) + clicks[1..] == pool + clicks;
    }
  }
}
