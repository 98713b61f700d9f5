# good-vs-evil counter store, in Dafny

The good-vs-evil service keeps two shared tallies, `good` and `evil`, in an
`AppState` object. Clients bump one tally with `GET /api/v1/tap/good` or
`GET /api/v1/tap/evil`. They read both tallies with `GET /api/v1/state`.
Every answer is a `StateDto` pair.

This project models that store and its three JSON handlers from
`src/main.rs`:

- `i64.dfy`, module `I64`: the `i64` range and the wrap-around of
  `AtomicI64::fetch_add`. `Wrap(x)` is the unique `i64` congruent to `x`
  modulo 2^64.
- `store.dfy`, module `Store`: the `StateDto` datatype and the class
  `AppState`, with its two mutable fields and the methods `TapGood`,
  `TapEvil` and `Snapshot`. It also holds a value-level specification of
  the request stream. `Apply` serves one request, `Run` gives the
  counters after a sequence of requests, and `Replies` gives the answers
  to those requests.
- `handlers.dfy`, module `Handlers`: the handlers `get_state`, `tap_good`
  and `tap_evil`, which take the shared `AppState`. `Serve` dispatches one
  request to its handler, as the route table does. `FreshScenario` is a
  client run against a fresh store.
- `properties.dfy`, module `StoreProperties`: lemmas over any sequence of
  requests. They cover exact counts, order independence, idempotent reads,
  monotonicity and non-negativity without overflow, and what happens at
  the overflow boundary.

Overflow is modelled as the code behaves. Nothing in `src/main.rs` guards
it: `fetch_add` at lines 52 and 56 wraps, so one tap on a counter at
`i64::MAX` makes it `i64::MIN` (`TapAtMaxWraps`). Monotonicity and
"never negative" are therefore proved only for runs with at most
`i64::MAX` taps per counter.

## Model

| member | source | states |
|---|---|---|
| `I64.Wrap` | src/main.rs:39-40 | the stored value is the `i64` with the same low 64 bits as the mathematical result, and equals it whenever that result is in range |
| `I64.WrappingAdd` | src/main.rs:52 | `fetch_add(d)` leaves a value congruent to `a + d` modulo 2^64, and exactly `a + d` when that sum fits in an `i64` |
| `I64.WrapAdd` | src/main.rs:52 | adding to an already wrapped counter gives the same result as adding first and wrapping once |
| `Store.AppState.constructor` | src/main.rs:37-41 | `AppState::default()` starts with `good == 0` and `evil == 0` |
| `Store.AppState.TapGood` | src/main.rs:51-53 | `good` becomes `good + 1` (wrapping at `i64::MAX`), `evil` is unchanged, and no other state changes |
| `Store.AppState.TapEvil` | src/main.rs:55-57 | `evil` becomes `evil + 1` (wrapping at `i64::MAX`), `good` is unchanged, and no other state changes |
| `Store.AppState.Snapshot` | src/main.rs:59-64 | returns a `StateDto` equal to the current `good` and `evil`, and has no `modifies` clause, so it changes nothing |
| `Handlers.GetState` | src/main.rs:98-100 | answers with the current counters and changes nothing |
| `Handlers.TapGood` | src/main.rs:102-107 | answers with the state after its own increment, `{good: old good + 1, evil: old evil}`, never the stale pre-increment pair |
| `Handlers.TapEvil` | src/main.rs:109-114 | answers with the state after its own increment, `{good: old good, evil: old evil + 1}` |
| `Handlers.Serve` | src/main.rs:71-74 | each routed request moves the store from `s` to `Apply(s, op)` and answers with that new state, which ties the handlers to the specification the lemmas are about |
| `Handlers.FreshScenario` | src/main.rs:98-114 | on a fresh store, tap/good, tap/good, tap/evil, then state answers `{good: 2, evil: 1}` |
| `StoreProperties.RunCounts` | src/main.rs:50-65 | after any sequence of requests each counter is its start value plus the number of taps on it, wrapped to `i64` |
| `StoreProperties.CountIsMultiplicity` | src/main.rs:50-65 | the number of taps of a kind in a request sequence is that kind's multiplicity in the multiset of requests |
| `StoreProperties.OrderIrrelevant` | src/main.rs:51-57 | two request sequences that are permutations of each other leave the store in the same state, so increments commute |
| `StoreProperties.TapsCommute` | src/main.rs:51-57 | `tap_good; tap_evil` and `tap_evil; tap_good` leave the same state |
| `StoreProperties.RepeatedTapGood` | src/main.rs:51-53 | n `tap_good` requests add n to `good` (wrapping) and leave `evil` unchanged, and without overflow `good` is exactly the old value plus n |
| `StoreProperties.RepeatedTapEvil` | src/main.rs:55-57 | n `tap_evil` requests add n to `evil` (wrapping) and leave `good` unchanged |
| `StoreProperties.CountAppend` | src/main.rs:50-65 | the number of taps in two request runs back to back is the sum of the numbers in each run |
| `StoreProperties.ReplyAt` | src/main.rs:102-114 | the i-th reply is the i-th request applied to the state left by the earlier ones, so it equals the state after the first i+1 requests |
| `StoreProperties.RepliesLength` | src/main.rs:98-114 | every request gets exactly one reply |
| `StoreProperties.ReadsAreIdempotent` | src/main.rs:98-100 | any run of `get_state` calls with no tap between them leaves the store unchanged, and every call returns the same pair |
| `StoreProperties.RunWithoutOverflow` | src/main.rs:50-65 | below the overflow bound, each counter after any run of requests is exactly its start value plus the number of taps on it |
| `StoreProperties.RepliesMonotone` | src/main.rs:50-65 | without overflow, no reply is below the starting counters, and a later reply is never below an earlier one in either field |
| `StoreProperties.FreshCountsTaps` | src/main.rs:37-41 | from a fresh store, with at most `i64::MAX` taps per side, each counter equals its number of taps and so is never negative |
| `StoreProperties.TapAtMaxWraps` | src/main.rs:52 | one tap on a counter at `i64::MAX` makes it `i64::MIN`, leaving the other counter alone, because overflow is not guarded |
| `StoreProperties.FreshScenarioReplies` | src/main.rs:51-64 | from a fresh store, tap/good, tap/good, tap/evil, state get the replies `{1,0}`, `{2,0}`, `{2,1}`, `{2,1}` |
| `StoreProperties.HundredTaps` | src/main.rs:51-53 | one hundred `tap_good` requests on a fresh store give `{good: 100, evil: 0}` |

## Left out

- `main`, the axum router and the TCP listener on `0.0.0.0:3500` (src/main.rs:67-91): framework and I/O plumbing. The router at src/main.rs:71-83 wires only `/`, `/api/v1/state`, `/api/v1/tap/good` and `/api/v1/tap/evil`; `Handlers.Serve` stands in for the three API routes.
- The index page (`IndexTemplate`, `HtmlTemplate::into_response`, `handler_index`, src/main.rs:14-34, 93-96): askama rendering is not visible here.
- JSON encoding of `StateDto` (`#[derive(Serialize)]`, the `Json` wrapper): serde does the encoding. Only the pair of values is modelled.
- `Arc` sharing, `Ordering::Relaxed` and concurrent interleaving: each atomic call is one sequential step. The model makes no claim of cross-counter snapshot isolation under concurrency. The real `snapshot` loads the two counters separately, so another request may run between the two loads.
