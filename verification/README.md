# CarbonTech dashboard: interaction state, modelled in Dafny

The dashboard is almost entirely declarative React layout. The logic it does have sits in a
few small state updaters inside components, and this project models each of them as a pure
function over immutable values:

- **Water-ripple surface** (`water-ripple.tsx`): a per-intensity table (cap, lifetime, maximum
  size); a ripple spawned on every pointer move, sized from a random sample, pushed onto the
  pool with `slice(-maxRipples)` (FIFO eviction of the oldest); and a per-ripple expiry that
  filters the pool by id.
- **Click ripples** (`ripple-button.tsx`, and the slide image in `WorksShowcase.tsx`): an
  uncapped list, appended on click and filtered by id 600 ms later. The button also forwards
  the click to its caller's `onClick`.
- **Carousel** (`WorksShowcase.tsx`): next/previous by modular steps, thumbnail selection and
  auto-advance.
- **Chart filters** (`CarbonAnalytics.tsx`): membership toggles in two category lists, and the
  "All" button that clears the type list.
- **Brand kits** (`BrandKits.tsx`): the selection flag toggled by kit id.
- **Loader** (`immersive-loader.tsx`): progress +2 per tick up to 100, then stop and schedule
  completion; a caption stage cycling modulo 4.
- **Progress bar** (`progress-bar.tsx`): the width clamp into [0, 100].

Timers, the clock and randomness are inputs. A `setTimeout` is returned as a `Timer(id,
delayMs)` request, and its firing arrives later as an explicit event (`Fire(id)`,
`RippleExpired(id)`, `ProgressBeat`, ...). `Date.now()` ids are injected integers, which may
collide. The water ripple's `Date.now() + Math.random()` id is an injected real. A
`Math.random()` sample is an injected real `r` with `0 <= r < 1`. Pointer positions are given
already relative to the element, so `getBoundingClientRect` is not modelled.

Modules, one per source file, plus two shared ones:

| file | module | models |
|---|---|---|
| `host.dfy` | `Host` | optional props (`Option`) and timer requests (`Timer`) |
| `js_builtins.dfy` | `JsBuiltins` | `Array.prototype.filter`, one-argument `slice`, `Math.min`/`Math.max` |
| `water_ripple.dfy` | `WaterRipple` | the capped ripple pool |
| `click_ripples.dfy` | `ClickRipples` | the uncapped click-ripple list shared by two components |
| `ripple_button.dfy` | `RippleButton` | the button's click handler and `onClick` forwarding |
| `works_showcase.dfy` | `WorksShowcase` | the carousel and its image clicks |
| `carbon_analytics.dfy` | `CarbonAnalytics` | the filter toggles |
| `brand_kits.dfy` | `BrandKits` | the kit selection |
| `immersive_loader.dfy` | `ImmersiveLoader` | the loader's two intervals |
| `progress_bar.dfy` | `ProgressBar` | the width clamp |

The water-ripple surface spawns one ripple per `onMouseMove`
(`client/src/components/ui/water-ripple.tsx:70`); intensity is a closed union type, so an
unknown level cannot be passed; unmounting drops the component state.

## Model

| member | source | states |
|---|---|---|
| WaterRipple.ConfigFor | client/src/components/ui/water-ripple.tsx:30-36 | the table is defined for every intensity; every level has a cap of at least 1, a positive lifetime, and a maximum size above the 50 minimum |
| WaterRipple.ConfigGrowsWithIntensity | client/src/components/ui/water-ripple.tsx:30-34 | light < medium < strong in cap, lifetime and maximum size; the default level (medium) is (5, 2000, 150) |
| WaterRipple.SizeFor | client/src/components/ui/water-ripple.tsx:45 | for a sample r in [0, 1) the size lies in [50, maxSize) of the level |
| WaterRipple.SizeForMonotone | client/src/components/ui/water-ripple.tsx:45 | a larger sample gives a strictly larger ripple |
| JsBuiltins.Slice | client/src/components/ui/water-ripple.tsx:57 | `slice(start)` returns a suffix; a negative start keeps min(-start, length) elements, a non-negative one drops `start` |
| WaterRipple.Push | client/src/components/ui/water-ripple.tsx:54-58 | after a push the pool holds min(old length + 1, cap) ripples, is a suffix of old ++ [new], and ends with the new ripple |
| WaterRipple.PushEvictsOldest | client/src/components/ui/water-ripple.tsx:55-57 | below the cap a push is a plain append; at or over the cap exactly the oldest are dropped and the survivors keep their order; at the cap, pool[1..] ++ [new] |
| JsBuiltins.Filter | client/src/components/ui/ripple-button.tsx:35 | the result keeps only elements passing the test, never grows, and equals the input when every element passes |
| WaterRipple.Expire | client/src/components/ui/water-ripple.tsx:61-63 | no ripple with the expired id remains; if none had it (already evicted) the pool is unchanged |
| WaterRipple.ExpireRemovesExactlyId | client/src/components/ui/water-ripple.tsx:62 | a ripple survives expiry iff it was present with a different id, with its multiplicity; the survivors keep their order |
| WaterRipple.ExpireIdempotentAndCommutative | client/src/components/ui/water-ripple.tsx:60-63 | a second expiry of the same id changes nothing; two expiries give the same pool in either firing order |
| WaterRipple.StaleExpiryAfterEviction | client/src/components/ui/water-ripple.tsx:57-62 | with distinct ids, a ripple evicted from a full pool is gone, and its later expiry leaves the pool unchanged |
| WaterRipple.CreateRipple | client/src/components/ui/water-ripple.tsx:38-64 | disabled or detached: pool unchanged and no timer armed; otherwise the pool holds min(old length + 1, cap) ripples, the newest survivors of the old pool in order followed by the new ripple, and expiry is armed for the level's lifetime |
| WaterRipple.Run | client/src/components/ui/water-ripple.tsx:27-70 | over any interleaving of moves and expiries a pool within the cap stays within it; a disabled or detached surface never grows |
| WaterRipple.CapInvariant | client/src/components/ui/water-ripple.tsx:27-63 | from the empty pool of a fresh mount the cap holds after every trace, and a disabled surface stays empty |
| ClickRipples.Press | client/src/components/ui/ripple-button.tsx:22-36 | a click appends exactly one marker with the click's id and position, keeps all earlier markers in place, and arms a 600 ms expiry |
| ClickRipples.Expire | client/src/components/ui/ripple-button.tsx:34-36 | no marker with the id remains; an absent id is a no-op |
| ClickRipples.ExpireRemovesExactlyId | client/src/components/ui/ripple-button.tsx:35 | a marker survives iff it was present with a different id, with its multiplicity; order is kept; expiry is idempotent |
| ClickRipples.ExpireUndoesPress | client/src/components/ui/ripple-button.tsx:31-35 | when the click's id is fresh, its own expiry restores the list exactly |
| ClickRipples.ExpiryOrderIrrelevant | client/src/components/WorksShowcase.tsx:72-76 | expiring another id commutes with a click, and two expiries commute |
| ClickRipples.CollidingIdsExpireTogether | client/src/components/ui/ripple-button.tsx:26-35 | for any list and id, two clicks sharing that id (same millisecond) are both removed by the first expiry, which leaves what one expiry of the original list leaves |
| RippleButton.HandleClick | client/src/components/ui/ripple-button.tsx:19-42 | the handler takes exactly two steps, or three with an `onClick`: add the marker, arm its 600 ms expiry, then call the caller's `onClick` once, after both |
| RippleButton.ClicksAccumulate | client/src/components/ui/ripple-button.tsx:31 | without expiries, a sequence of clicks appends exactly one marker per click, at its own position, in click order, after the old list (no cap) |
| WorksShowcase.Next | client/src/components/WorksShowcase.tsx:79-81 | an in-range index stays in range; it moves up by one, and wraps from the last slide to 0 |
| WorksShowcase.Prev | client/src/components/WorksShowcase.tsx:83-85 | an in-range index stays in range; it moves down by one, and prev(0) is the last slide |
| WorksShowcase.NextPrevInverse | client/src/components/WorksShowcase.tsx:79-85 | prev(next(i)) = i and next(prev(i)) = i |
| WorksShowcase.NextNWithinTurn | client/src/components/WorksShowcase.tsx:80 | k <= n presses of next from i land on i + k, less n once it passes the end |
| WorksShowcase.CycleLength | client/src/components/WorksShowcase.tsx:80 | n presses of next return to the start, and no fewer positive number of presses does |
| WorksShowcase.SelectThumbnail | client/src/components/WorksShowcase.tsx:290 | the shown slide becomes exactly the clicked position; the markers are untouched |
| WorksShowcase.Step | client/src/components/WorksShowcase.tsx:66-90 | every event keeps the index in range; next and auto-advance move up one and wrap to 0, previous moves down one and wraps to the last slide, a thumbnail selects its slide; an image click appends its marker and an expiry filters by id; navigation leaves the markers alone, clicks and expiries leave the index alone |
| WorksShowcase.Run | client/src/components/WorksShowcase.tsx:18-90 | the index stays in range over any sequence of events |
| WorksShowcase.FivePressesFromStart | client/src/components/WorksShowcase.tsx:80 | with four works, five presses of next from the first slide show the second |
| CarbonAnalytics.Set | client/src/components/CarbonAnalytics.tsx:15-16 | replacing one category's list leaves the other category's list as it was |
| CarbonAnalytics.Toggle | client/src/components/CarbonAnalytics.tsx:17-19 | membership of the value flips; an absent value is appended after all prior values; a present one is removed everywhere, the rest kept in order with their multiplicities |
| CarbonAnalytics.ToggleFilter | client/src/components/CarbonAnalytics.tsx:14-21 | membership of the value flips in the named category only; the other category is identical |
| CarbonAnalytics.ShowAll | client/src/components/CarbonAnalytics.tsx:69-70 | "All" empties the type list and leaves the status list unchanged |
| CarbonAnalytics.ClickTypeButton | client/src/components/CarbonAnalytics.tsx:68-74 | "All" clears the types; any other button toggles its own value in the type list, keeping the other values in order; statuses never change |
| CarbonAnalytics.ClickStatusButton | client/src/components/CarbonAnalytics.tsx:92 | a status button toggles its own value in the status list, keeping the other values in order, and leaves the types unchanged |
| CarbonAnalytics.ToggleKeepsDistinct | client/src/components/CarbonAnalytics.tsx:17-19 | a list with no duplicates has none after a toggle |
| CarbonAnalytics.ToggleAbsentTwice | client/src/components/CarbonAnalytics.tsx:19 | toggling an absent value twice restores the list exactly |
| CarbonAnalytics.TogglePresentTwice | client/src/components/CarbonAnalytics.tsx:17-19 | toggling a present value twice gives the other values in order followed by it: equal to the original as a set |
| CarbonAnalytics.DoubleToggleReorders | client/src/components/CarbonAnalytics.tsx:9-19 | on the initial filters, toggling "Refurbishment" twice gives ["New build", "Refurbishment"], not the original order |
| BrandKits.ToggleKit | client/src/components/BrandKits.tsx:20-26 | length, order, ids, names and colours are kept; a kit's selection flips iff its id matches |
| BrandKits.ToggleTwiceIsIdentity | client/src/components/BrandKits.tsx:22-24 | toggling the same id twice restores the list |
| BrandKits.ToggleUnknownIsIdentity | client/src/components/BrandKits.tsx:23 | toggling an id no kit has leaves the list unchanged |
| BrandKits.TogglesCommute | client/src/components/BrandKits.tsx:22-24 | toggles of two ids commute |
| BrandKits.InitialSelection | client/src/components/BrandKits.tsx:14-18 | on mount exactly one kit, "agency", is selected, and the ids are distinct |
| BrandKits.ToggleFlipsSelection | client/src/components/BrandKits.tsx:20-26 | with distinct ids, toggling a present id removes it from, or adds it to, the selected set and changes nothing else in it |
| ImmersiveLoader.ProgressTick | client/src/components/ui/immersive-loader.tsx:21-28 | below 100 a tick adds exactly 2; at or above 100 it pins progress to 100, stops the interval and schedules completion once; a stopped interval changes nothing |
| ImmersiveLoader.StageTick | client/src/components/ui/immersive-loader.tsx:36 | the caption stage stays in [0, 4), moves up by one and wraps from 3 to 0; nothing else changes |
| ImmersiveLoader.Run | client/src/components/ui/immersive-loader.tsx:19-40 | over any interleaving of the two intervals progress stays even, within [0, 100], never decreases, and completion is scheduled exactly once, only when stopped at 100 |
| ImmersiveLoader.InitialIsReachable | client/src/components/ui/immersive-loader.tsx:9-10 | the mount state (progress 0, stage 0) satisfies those invariants, so every trace from it does |
| ImmersiveLoader.ProgressSchedule | client/src/components/ui/immersive-loader.tsx:21-28 | from mount, tick k <= 50 gives progress 2k with the interval armed; tick 51 stops it and schedules completion once; later ticks change nothing |
| ImmersiveLoader.StageCycle | client/src/components/ui/immersive-loader.tsx:36 | four caption ticks bring the caption back to where it started |
| ProgressBar.Width | client/src/components/ui/progress-bar.tsx:13 | the width lies in [0, 100]; values in [0, 100] pass through; negatives give 0 and values over 100 give 100 |
| ProgressBar.WidthIdempotent | client/src/components/ui/progress-bar.tsx:13 | clamping twice is clamping once |
| ProgressBar.WidthMonotone | client/src/components/ui/progress-bar.tsx:13 | a larger value never gives a narrower bar |

## Left out

- Rendering: JSX, framer-motion animation curves, CSS classes and the secondary-wave layer are presentation only.
- DOM geometry: `getBoundingClientRect` and `clientX`/`clientY`. The model takes the element-relative position as an input.
- The clock and randomness: `Date.now()` and `Math.random()` become injected ids and an injected sample in [0, 1).
- Real timers: `setTimeout` and `setInterval` become returned timer requests and explicit events. So do the 5000 ms carousel auto-advance, the 50 ms and 1000 ms loader intervals and the 800 ms completion delay. The model does not order timer firings by time; any firing order is allowed, which covers every real one.
- Interval cleanup on unmount, and timers firing after unmount: a React state update on an unmounted component is dropped, so there is no model state to change.
- JavaScript numbers: positions, sizes and widths are exact reals. There is no floating-point rounding and no `NaN`. `Math.max(0, NaN)` is `NaN` in the browser, which this clamp cannot express.
- WaterRipple.SizeFor: the strict bound `size < maxSize` holds over the reals only. `Math.random()` may return 1 - 2^-53, and in doubles `r * (maxSize - 50) + 50` then rounds to exactly `maxSize` for the light and medium levels (computed by hand, not executed).
- WorksShowcase.Next: requires a non-empty carousel. The works list is a constant of length 4; an empty list would give `NaN` in the source.
- The loader's `onComplete` is recorded only as a count of scheduled completions. React may call a state updater twice in development mode, which would schedule it twice; that is not modelled.
- The App's 3000 ms loader timer, scroll progress (`use-scroll-progress.tsx`, a floating-point division), PortfolioStats number formatting, and the static composition components carry no state logic worth stating.
