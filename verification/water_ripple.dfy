/** The ripple surface that spawns a marker on every pointer move over it, keeps at most a
    per-intensity number of them (dropping the oldest), and retires each one when its own
    timer fires. */
module WaterRipple {
  import opened Host
  import JsBuiltins

  /** The `intensity` prop. */
  datatype Intensity = Light | Medium | Strong

  /** The prop's default when the caller passes none. */
  const DefaultIntensity: Intensity := Medium

  /** Tuning for one intensity: the pool cap, the lifetime in milliseconds, and the upper bound
      of a ripple's size (the lower bound is always `MinSize`). Over exact reals the bound is
      exclusive; with IEEE doubles a sample just below 1 can round the size up to it. */
  datatype Config = Config(maxRipples: nat, duration: nat, maxSize: real)

  /** Every ripple is at least this large. */
  const MinSize: real := 50.0

  /** The intensity table: defined for every level, each with room for at least one ripple, a
      positive lifetime and a non-empty size range above `MinSize`. */
  function ConfigFor(i: Intensity): (c: Config)
    ensures c.maxRipples >= 1 && c.duration > 0 && c.maxSize > MinSize
  {
    match i
    case Light => Config(3, 1500, 100.0)
    case Medium => Config(5, 2000, 150.0)
    case Strong => Config(8, 2500, 200.0)
  }

  /** A stronger level allows more ripples, lets them live longer, and draws them larger. */
  lemma ConfigGrowsWithIntensity()
    ensures ConfigFor(Light).maxRipples < ConfigFor(Medium).maxRipples < ConfigFor(Strong).maxRipples
    ensures ConfigFor(Light).duration < ConfigFor(Medium).duration < ConfigFor(Strong).duration
    ensures ConfigFor(Light).maxSize < ConfigFor(Medium).maxSize < ConfigFor(Strong).maxSize
    ensures ConfigFor(DefaultIntensity) == Config(5, 2000, 150.0)
  {
  }

  /** One live ripple: its id, its position relative to the surface, and its diameter. */
  datatype Ripple = Ripple(id: real, x: real, y: real, size: real)

  /** The diameter drawn from the random sample `r` (a `Math.random()` value). */
  function SizeFor(i: Intensity, r: real): (size: real)
    requires 0.0 <= r < 1.0
    ensures MinSize <= size < ConfigFor(i).maxSize
  {
    r * (ConfigFor(i).maxSize - MinSize) + MinSize
  }

  /** The size map is strictly increasing in the sample, so distinct samples give distinct sizes. */
  lemma SizeForMonotone(i: Intensity, r1: real, r2: real)
    requires 0.0 <= r1 < r2 < 1.0
    ensures SizeFor(i, r1) < SizeFor(i, r2)
  {
  }

  /** Appending a ripple to the pool and keeping only the newest `maxRipples` of them
      (`[...prev, ripple].slice(-maxRipples)`). */
  function Push(pool: seq<Ripple>, ripple: Ripple, i: Intensity): (r: seq<Ripple>)
    ensures |r| == if |pool| < ConfigFor(i).maxRipples then |pool| + 1 else ConfigFor(i).maxRipples
    ensures |r| >= 1 && r[|r| - 1] == ripple
    ensures r == (pool + [ripple])[|pool| + 1 - |r|..]
  {
    JsBuiltins.Slice(pool + [ripple], -(ConfigFor(i).maxRipples as int))
  }

  /** Below the cap a push is a plain append; at or above it, exactly the oldest entries are
      dropped, enough to leave `maxRipples`, and the survivors keep their order. */
  lemma PushEvictsOldest(pool: seq<Ripple>, ripple: Ripple, i: Intensity)
    ensures |pool| < ConfigFor(i).maxRipples ==> Push(pool, ripple, i) == pool + [ripple]
    ensures |pool| >= ConfigFor(i).maxRipples ==>
      Push(pool, ripple, i) == pool[|pool| + 1 - ConfigFor(i).maxRipples..] + [ripple]
    ensures |pool| == ConfigFor(i).maxRipples ==> Push(pool, ripple, i) == pool[1..] + [ripple]
  {
  }

  /** The expiry callback: drops every ripple carrying `id` and nothing else. */
  function Expire(pool: seq<Ripple>, id: real): (r: seq<Ripple>)
    ensures forall k :: 0 <= k < |r| ==> r[k].id != id
    ensures (forall k :: 0 <= k < |pool| ==> pool[k].id != id) ==> r == pool
    ensures |r| <= |pool|
  {
    JsBuiltins.Filter(pool, (q: Ripple) => q.id != id)
  }

  /** Expiry removes exactly the ripples with the matching id: every other ripple survives
      with its multiplicity, and the survivors keep their relative order across any split. */
  lemma ExpireRemovesExactlyId(pool: seq<Ripple>, id: real)
    ensures forall q :: q in Expire(pool, id) <==> q in pool && q.id != id
    ensures forall q: Ripple :: q.id != id ==> multiset(Expire(pool, id))[q] == multiset(pool)[q]
    ensures forall a, b :: pool == a + b ==> Expire(pool, id) == Expire(a, id) + Expire(b, id)
  {
    JsBuiltins.FilterContents(pool, (q: Ripple) => q.id != id);
    forall a, b | pool == a + b
      ensures Expire(pool, id) == Expire(a, id) + Expire(b, id)
    {
      JsBuiltins.FilterConcat(a, b, (q: Ripple) => q.id != id);
    }
  }

  /** A timer that fires twice, or after its ripple was already evicted, changes nothing;
      timers may fire in any order. */
  lemma ExpireIdempotentAndCommutative(pool: seq<Ripple>, id: real, other: real)
    ensures Expire(Expire(pool, id), id) == Expire(pool, id)
    ensures Expire(Expire(pool, id), other) == Expire(Expire(pool, other), id)
  {
    JsBuiltins.FilterCommute(pool, (q: Ripple) => q.id != id, (q: Ripple) => q.id != other);
  }

  /** The race the expiry filter absorbs: once a full pool has evicted its oldest ripple, that
      ripple's timer still fires, and (ids being distinct) it finds nothing to remove. */
  lemma StaleExpiryAfterEviction(pool: seq<Ripple>, ripple: Ripple, i: Intensity)
    requires |pool| >= ConfigFor(i).maxRipples
    requires forall j, k :: 0 <= j < k < |pool + [ripple]| ==> (pool + [ripple])[j].id != (pool + [ripple])[k].id
    ensures pool[0] !in Push(pool, ripple, i)
    ensures Expire(Push(pool, ripple, i), pool[0].id) == Push(pool, ripple, i)
  {
    var all := pool + [ripple];
    var r := Push(pool, ripple, i);
    var drop := |pool| + 1 - |r|;
    assert drop >= 1;
    forall k | 0 <= k < |r|
      ensures r[k].id != pool[0].id
    {
      assert r[k] == all[drop + k] && all[0] == pool[0];
    }
  }

  /** The result of one `onMouseMove`: the new pool and the expiry timer armed, if any. */
  datatype Spawn = Spawn(pool: seq<Ripple>, timer: Option<Timer<real>>)

  /** `createRipple`: a disabled or detached surface does nothing; otherwise the ripple at
      (`x`, `y`) with id `id` and a size drawn from `r` is pushed and its expiry armed for the
      level's lifetime. */
  function CreateRipple(pool: seq<Ripple>, i: Intensity, disabled: bool, attached: bool,
                        x: real, y: real, r: real, id: real): (s: Spawn)
    requires 0.0 <= r < 1.0
    ensures disabled || !attached ==> s == Spawn(pool, None)
    ensures !disabled && attached ==>
      && s.timer == Some(Timer(id, ConfigFor(i).duration))
      && 1 <= |s.pool| <= ConfigFor(i).maxRipples
      && s.pool[|s.pool| - 1] == Ripple(id, x, y, SizeFor(i, r))
      && MinSize <= s.pool[|s.pool| - 1].size < ConfigFor(i).maxSize
    ensures !disabled && attached ==>
      && |s.pool| == (if |pool| < ConfigFor(i).maxRipples then |pool| + 1 else ConfigFor(i).maxRipples)
      && s.pool[..|s.pool| - 1] == pool[|pool| + 1 - |s.pool|..]
  {
    if disabled || !attached then Spawn(pool, None)
    else
      var ripple := Ripple(id, x, y, SizeFor(i, r));
      Spawn(Push(pool, ripple, i), Some(Timer(id, ConfigFor(i).duration)))
  }

  /** What can happen to the surface: a pointer move (with its injected random sample and id),
      or the expiry timer for `id` firing. */
  datatype Event = Move(x: real, y: real, r: real, id: real) | Fire(id: real)

  /** Every random sample in the trace is a `Math.random()` value. */
  predicate SamplesInRange(events: seq<Event>)
  {
    forall k :: 0 <= k < |events| && events[k].Move? ==> 0.0 <= events[k].r < 1.0
  }

  /** The pool after processing `events` in order, starting from `pool`. */
  function Run(pool: seq<Ripple>, i: Intensity, disabled: bool, attached: bool,
               events: seq<Event>): (r: seq<Ripple>)
    requires SamplesInRange(events)
    ensures |pool| <= ConfigFor(i).maxRipples ==> |r| <= ConfigFor(i).maxRipples
    ensures disabled || !attached ==> |r| <= |pool|
    decreases |events|
  {
    if |events| == 0 then pool
    else
      var next := match events[0]
        case Move(x, y, r, id) => CreateRipple(pool, i, disabled, attached, x, y, r, id).pool
        case Fire(id) => Expire(pool, id);
      Run(next, i, disabled, attached, events[1..])
  }

  /** Starting from the empty pool of a fresh mount, no interleaving of moves and expiries
      ever holds more ripples than the active level allows, and a disabled surface stays empty. */
  lemma CapInvariant(i: Intensity, disabled: bool, attached: bool, events: seq<Event>)
    requires SamplesInRange(events)
    ensures |Run([], i, disabled, attached, events)| <= ConfigFor(i).maxRipples
    ensures disabled ==> Run([], i, disabled, attached, events) == []
  {
  }
}
