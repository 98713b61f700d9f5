/** The shared two-counter store of the good-vs-evil service (src/main.rs):
    the `AppState` object with its `good` and `evil` tallies, the `StateDto`
    pair that `snapshot` hands out, and a value-level state machine (`Apply`,
    `Run`, `Replies`) that specifies what each request does to the store. */
module Store {
  import opened I64

  /** An immutable point-in-time copy of both counters. */
  datatype StateDto = StateDto(good: i64, evil: i64)

  /** The three API requests that reach the store, named after their
      routes: `/api/v1/state`, `/api/v1/tap/good`, `/api/v1/tap/evil`. */
  datatype Op = State | Good | Evil

  /** The store as the process creates it: both counters zero. */
  const Initial: StateDto := StateDto(0, 0)

  /** The counters after one request. Every handler answers with the
      snapshot taken after its own mutation, so this is also its reply. */
  function Apply(s: StateDto, op: Op): StateDto {
    match op
    case State => s
    case Good => s.(good := WrappingAdd(s.good, 1))
    case Evil => s.(evil := WrappingAdd(s.evil, 1))
  }

  /** The counters after a sequence of requests served one at a time. */
  function Run(s: StateDto, ops: seq<Op>): StateDto
    decreases |ops|
  {
    if ops == [] then s else Run(Apply(s, ops[0]), ops[1..])
  }

  /** The replies to a sequence of requests served one at a time. */
  function Replies(s: StateDto, ops: seq<Op>): seq<StateDto>
    decreases |ops|
  {
    if ops == [] then [] else [Apply(s, ops[0])] + Replies(Apply(s, ops[0]), ops[1..])
  }

  /** How many times op occurs in ops. */
  function Count(ops: seq<Op>, op: Op): nat
    decreases |ops|
  {
    if ops == [] then 0 else (if ops[0] == op then 1 else 0) + Count(ops[1..], op)
  }

  /** `AppState`: two `AtomicI64` counters shared by every handler. Each
      atomic call is one sequential step here. */
  class AppState {
    var good: i64
    var evil: i64

    /** The current counters as a value. */
    function Value(): StateDto
      reads this
    {
      StateDto(good, evil)
    }

    /** `AppState::default()`: both counters start at zero. */
    constructor ()
      ensures good == 0 && evil == 0
      ensures Value() == Initial
    {
      good, evil := 0, 0;
    }

    /** `fetch_add(1)` on `good`: one more, wrapping at the i64 boundary;
        `evil` is untouched. */
    method TapGood()
      modifies this
      ensures good == WrappingAdd(old(good), 1) && evil == old(evil)
      ensures old(good) as int < Max ==> good as int == old(good) as int + 1
      ensures Value() == Apply(old(Value()), Good)
    {
      good := WrappingAdd(good, 1);
    }

    /** `fetch_add(1)` on `evil`, symmetric to TapGood. */
    method TapEvil()
      modifies this
      ensures evil == WrappingAdd(old(evil), 1) && good == old(good)
      ensures old(evil) as int < Max ==> evil as int == old(evil) as int + 1
      ensures Value() == Apply(old(Value()), Evil)
    {
      evil := WrappingAdd(evil, 1);
    }

    /** Loads both counters into a fresh `StateDto`; changes nothing. */
    method Snapshot() returns (dto: StateDto)
      ensures dto.good == good && dto.evil == evil
    {
      dto := StateDto(good, evil);
    }
  }
}
