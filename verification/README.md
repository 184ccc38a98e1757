# Job application simulator: the tick state machine and the dashboard ladders

This project models the two parts of the satirical "infinite job application
loop" demo that carry behaviour rather than markup.

- **`CodeExecutor`** (`code_executor.dfy`) models the code executor component.
  The `Executor` value holds five things:
  - the execution state: line cursor, applications, rejections, time wasted and sanity;
  - the rejection-message log;
  - the job-posting cursor;
  - the fast-forward speed;
  - the one-shot "sanity lost" latch.

  `Tick` is one interval callback. `Observe` is the effect that fires the
  sanity-lost notification. `FastForward` and `Reset` are the two buttons.
  `Run` replays a sequence of ticks. `Execute` replays a session that
  interleaves ticks with button presses. The induction lemmas give the closed
  forms after `n` ticks. They also show that the notification fires exactly
  once per run, on tick 200, and that reset re-arms it.
- **`StatsDashboard`** (`stats_dashboard.dfy`) models three display conversions:
  - the hours/minutes/seconds split of the time counter;
  - the two eleven-band mood ladders, one for the emoji and one for the description;
  - the four-band progress-bar colour.

  Each ladder is proved equal to one reference definition. That definition
  says the band of a sanity value is the number of the ladder's thresholds the
  value does not exceed. Agreement between the two mood ladders, the
  partition into bands and monotonicity all follow from it.

Modelling choices:

- Sanity is a `real`. The source starts it at 100 and only ever subtracts 0.5
  before clamping at 0. Every value it takes is a multiple of one half, so the
  source's floating-point arithmetic is exact and a `real` is faithful.
- Counters are unbounded naturals. They count seconds of run time, far below
  where floating point loses integers.
- The tick takes its randomness and clock readings as a `TickInput`:
  - `random` is a `Math.random()` draw in [0, 1);
  - `id` and `timestamp` are the two `Date.now()` readings;
  - `sanitySeen` is the sanity value the callback tests when it picks a
    message pool.

  `sanitySeen` is kept separate from the state because the interval callback
  reads `state.sanityLevel` through the closure created when the effect was
  last set up. That effect depends only on `isRunning` and `speed`. The model
  therefore makes no claim about which snapshot the callback sees.
- Messages are identified by pool and position: a `Reason`. The model keeps
  only the pool sizes: 28 standard reasons, 8 desperate and 10 breakdown
  messages. It also keeps the 20 job postings.
- The emoji of the mood ladder are a datatype of eleven named faces, from
  `Smiling` to `Ghost`. The source's string literals are mis-encoded.

Three facts about the code that the model keeps as written:

- The rendered snippet has 16 lines (components/code-executor.tsx:357-374),
  but the line cursor advances `% 8` (components/code-executor.tsx:234).
  `InvariantFacts` shows the cursor stays below 8 in every reachable state,
  so snippet lines 8 to 15 are never highlighted.
- The message pool is chosen from the sanity the interval closure captured
  (components/code-executor.tsx:243). The effect that creates the closure
  depends only on `isRunning` and `speed` (components/code-executor.tsx:287).
  `Tier` therefore takes the sanity as an argument. `TierAtTick` states
  which pool each tick would use if it read the sanity as it was just
  before that tick.
- The code does not validate its pools or its speed. The pools are fixed
  non-empty literals, and the speed starts at 1 and only doubles up to 8.

## Model

| member | source | states |
|---|---|---|
| CodeExecutor.DecaySanity | components/code-executor.tsx:230 | The new sanity is never negative and at most half a point lower. For non-negative sanity it is never above the old one. It is positive exactly when the old one exceeded one half, and then it is exactly half a point lower. |
| CodeExecutor.NextState | components/code-executor.tsx:227-240 | One tick raises applications, rejections and time wasted by exactly one each, so their difference is kept. The line cursor stays below 8 and wraps from 7 to 0. Sanity in [0,100] stays in [0,100] and does not increase. |
| CodeExecutor.Tier | components/code-executor.tsx:242-271 | Sanity at or below 0 chooses the breakdown pool. Sanity in (0,25] chooses the desperate pool. Anything above 25 chooses the standard pool. Each condition holds in both directions. |
| CodeExecutor.Select | components/code-executor.tsx:256-270 | For a draw in [0,1) the index `floor(r * length)` lies within the chosen pool, so the message is a member of the pool `Tier` picks. |
| CodeExecutor.Entry | components/code-executor.tsx:273-280 | The appended entry carries the given id and timestamp and a reason from the pool chosen for the sanity the callback saw. |
| CodeExecutor.Tick | components/code-executor.tsx:226-283 | A tick applies the state update and appends exactly one entry at the end of the log, leaving every earlier entry as it was. The job cursor stays within the 20 postings and wraps from 19 to 0. Speed and latch are untouched. |
| CodeExecutor.Observe | components/code-executor.tsx:217-222 | The notification fires exactly when sanity is 0 and the latch is clear. Afterwards the latch is set exactly when it was set before or the notification fired. Nothing else changes. |
| CodeExecutor.ObserveIdempotent | components/code-executor.tsx:217-222 | Re-running the effect on an unchanged state never fires a second time and changes nothing. |
| CodeExecutor.NextSpeed | components/code-executor.tsx:334-336 | Fast-forward doubles the speed until doubling would reach 8, and then gives 8. The result never exceeds 8, and speeds 1, 2, 4 and 8 map into that set without decreasing. |
| CodeExecutor.IntervalMs | components/code-executor.tsx:283 | The interval times the speed is 1000 ms, and at any speed up to 8 the interval is at least 125 ms. |
| CodeExecutor.FastForward | components/code-executor.tsx:334-336 | The new speed is min(2·speed, 8) and nothing else changes. The speed stays capped at 8 and within {1,2,4,8}. |
| CodeExecutor.FastForwardFromOne | components/code-executor.tsx:334-336 | After n presses from speed 1 the speed is min(2^n, 8). It is always 1, 2, 4 or 8, it is fixed at 8 from the third press on, and the interval never drops below 125 ms. |
| CodeExecutor.Reset | components/code-executor.tsx:341-354 | Reset yields counters 0, sanity 100, line 0, an empty log, job index 0, speed 1 and a cleared latch, whatever the state before. |
| CodeExecutor.Step | components/code-executor.tsx:217-283 | A tick followed by the latch effect is that tick with only the latch possibly set. It fires exactly when the tick takes sanity to 0 while the latch is clear. |
| CodeExecutor.Run | components/code-executor.tsx:224-287 | A run of k ticks grows the log by k and every counter by k, keeps the speed, and fires the notification at most k times. |
| CodeExecutor.RunLog | components/code-executor.tsx:273-280 | The log after a run is the old log followed by exactly one entry per tick, in tick order. |
| CodeExecutor.RunSanity | components/code-executor.tsx:230 | From sanity s >= 0, k ticks leave exactly max(0, s - k/2). |
| CodeExecutor.RunCursors | components/code-executor.tsx:226-283 | k ticks move the line cursor to (line + k) mod 8 and the job cursor to (job + k) mod 20. |
| CodeExecutor.LinePeriod | components/code-executor.tsx:234 | Every 8 ticks the line cursor returns to where it started. |
| CodeExecutor.SanityAfter | components/code-executor.tsx:202-240 | Sanity after n ticks from 100 stays in [0,100]. It equals 100 - n/2 before tick 200 and is 0 exactly from tick 200 on. |
| CodeExecutor.InvariantFacts | components/code-executor.tsx:202-240 | Every reachable state has equal applications, rejections and time wasted. It also has sanity in [0,100], line cursor below 8 (so below the 16 snippet lines), job cursor below 20, one log entry per application, the latch set exactly when sanity is 0, and a speed of at most 8 with an interval of at least 125 ms. |
| CodeExecutor.TickAdvances | components/code-executor.tsx:227-240 | A tick from the state after n ticks gives the state after n + 1 ticks. |
| CodeExecutor.StepAdvances | components/code-executor.tsx:217-240 | A tick followed by the latch effect moves from n to n + 1 ticks and fires exactly when n + 1 is 200. |
| CodeExecutor.RunAdvances | components/code-executor.tsx:217-283 | From n ticks after the start, k more ticks reach n + k. The notification fires once if tick 200 is among them and otherwise not at all. |
| CodeExecutor.RunFromInitial | components/code-executor.tsx:202-240 | After k ticks from the initial state, applications, rejections, time wasted and log length all equal k and sanity is max(0, 100 - k/2). The notification has fired once if k >= 200 and never before. |
| CodeExecutor.ResetRearmsLatch | components/code-executor.tsx:341-354 | Reset yields a reachable state from any prior state, the latch included. Any 200 or more ticks after it fire the notification exactly once. |
| CodeExecutor.TierAtTick | components/code-executor.tsx:242-271 | If each tick reads the pre-tick sanity, ticks 0 to 149 use the standard pool and ticks 150 to 199 the desperate one. The tick that brings sanity to 0 still uses the desperate pool, and from tick 200 on the breakdown pool is used. |
| CodeExecutor.Apply | components/code-executor.tsx:217-354 | Only a tick can fire the notification, and only when the latch was clear before and is set after. Fast-forward changes only the speed, to min(2·speed, 8). Reset yields the initial executor. |
| CodeExecutor.Execute | components/code-executor.tsx:217-354 | A session fires the notification at most once per tick it contains, however ticks, fast-forwards and resets are interleaved. |
| CodeExecutor.ApplyKeepsInvariant | components/code-executor.tsx:334-354 | Tick, fast-forward and reset each keep a state reachable, and only the tick that makes the count 200 fires. |
| CodeExecutor.SessionKeepsInvariant | components/code-executor.tsx:217-354 | Any interleaving of ticks, fast-forwards and resets from a reachable state ends in a reachable state. |
| CodeExecutor.FiresAtMostOnceBetweenResets | components/code-executor.tsx:217-222 | Between resets the notification fires at most once. It fires exactly when the ticks carry the application count across 200, however fast-forwards are interleaved. |
| StatsDashboard.JsRem | components/stats-dashboard.tsx:37-38 | JavaScript's remainder agrees with the mathematical one on non-negative dividends and is never positive on negative ones. |
| StatsDashboard.FormatTime | components/stats-dashboard.tsx:35-40 | For seconds >= 0, hours·3600 + minutes·60 + secs equals the input, minutes and secs lie in [0,60), and hours is floor(seconds / 3600). |
| StatsDashboard.FormatTimeRoundTrip | components/stats-dashboard.tsx:35-40 | Splitting the total of any valid hours/minutes/seconds triple gives that triple back, so the split is the unique inverse of the total. |
| StatsDashboard.MoodBand | components/stats-dashboard.tsx:42-68 | Every sanity value gets a band index that indexes both the eleven emoji and the eleven descriptions. |
| StatsDashboard.MoodEmoji | components/stats-dashboard.tsx:42-54 | The emoji is the entry of the eleven-face table at the reference band, the number of thresholds 90, 80, …, 10, 5 the sanity does not exceed. |
| StatsDashboard.MoodDescription | components/stats-dashboard.tsx:56-68 | The description is the entry of the eleven-description table at the same reference band. |
| StatsDashboard.MoodLaddersAgree | components/stats-dashboard.tsx:42-68 | Two sanity values show the same emoji exactly when they show the same description, and exactly when they fall in the same band, so `getMoodEmoji` and `getMoodDescription` always select the same band. |
| StatsDashboard.MoodBandsPartition | components/stats-dashboard.tsx:42-68 | Every sanity value lies in exactly one of the eleven bands between consecutive thresholds (90, 80, …, 10, 5). |
| StatsDashboard.MoodMonotone | components/stats-dashboard.tsx:42-68 | If a ≤ b then the mood for a is the same as or worse than the mood for b. |
| StatsDashboard.CompletelyLost | components/stats-dashboard.tsx:52-67 | "Completely lost", and the ghost emoji, are shown exactly when sanity is at most 5. |
| StatsDashboard.ProgressColour | components/stats-dashboard.tsx:166-174 | The colour's rank, from chart-2 down to destructive, is the number of the thresholds 75, 50 and 25 that sanity does not exceed. |
| StatsDashboard.ProgressColourMonotone | components/stats-dashboard.tsx:166-174 | Less sanity never gives a better bar colour. |
| StatsDashboard.DestructiveWhenLow | components/stats-dashboard.tsx:166-174 | The bar is destructive exactly when sanity is at most 25. That is exactly when a tick reading that sanity leaves the standard message pool. |

## Left out

- React scheduling (components/code-executor.tsx:224-287): `useState`/`useEffect` ordering, `setInterval`/`clearInterval` timing and the stale-closure question. The model leaves the last one open by taking the sanity the callback reads as an input. A tick is one atomic transition followed by one run of the latch effect.
- Pause and resume: the `isRunning` flag lives in app/page.tsx, which is not part of this model. A paused simulation simply receives no ticks.
- The `onReset` and `onSanityLost` callbacks into the page: they only toggle page booleans. Firing is modelled as the boolean `Observe` returns.
- Randomness and clock: `Math.random()` is an input in [0, 1), and the `Date.now()` id and timestamp are uninterpreted inputs. The source does not guarantee unique ids, and neither does the model.
- The modal's focus trap and keyboard handlers (components/code-executor.tsx:289-329): DOM event plumbing. The Escape key only calls the reset that `Reset` models.
- Number and string formatting: the `${hours}h ${minutes}m ${secs}s` template (components/stats-dashboard.tsx:39) and `toFixed` (components/code-executor.tsx:419, components/stats-dashboard.tsx:146). `FormatTime` returns the three numbers.
- FormatTime: its properties are stated only for seconds >= 0, because the time counter it is given is never negative. Negative inputs are computed with JavaScript's operators but nothing is claimed about them.
- JsRem: for a negative dividend only the sign of the result is stated, because the model never calls it with one where it matters.
- JSX rendering, styling and the message and posting strings themselves. Only the pool sizes (28, 8, 10) and the catalogue size (20) are modelled.
- The other components and app files: static content, auto-scrolling, a random status label and device detection.
