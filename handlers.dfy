/** The three JSON API handlers of src/main.rs (`get_state`, `tap_good`,
    `tap_evil`). Each receives the shared `AppState` and answers with a
    `StateDto`; the `Json` wrapper and its encoding are not modelled. */
module Handlers {
  import opened I64
  import opened Store

  /** `GET /api/v1/state`: the current snapshot, no side effect. */
  method GetState(state: AppState) returns (reply: StateDto)
    ensures reply == state.Value()
  {
    reply := state.Snapshot();
  }

  /** `GET /api/v1/tap/good`: increment `good`, then answer with the
      snapshot taken after that increment. */
  method TapGood(state: AppState) returns (reply: StateDto)
    modifies state
    ensures reply == state.Value()
    ensures reply == Apply(old(state.Value()), Good)
    ensures reply.good == WrappingAdd(old(state.good), 1) && reply.evil == old(state.evil)
  {
    state.TapGood();
    reply := state.Snapshot();
  }

  /** `GET /api/v1/tap/evil`: increment `evil`, then answer with the
      snapshot taken after that increment. */
  method TapEvil(state: AppState) returns (reply: StateDto)
    modifies state
    ensures reply == state.Value()
    ensures reply == Apply(old(state.Value()), Evil)
    ensures reply.evil == WrappingAdd(old(state.evil), 1) && reply.good == old(state.good)
  {
    state.TapEvil();
    reply := state.Snapshot();
  }

  /** Dispatch one request to its handler, as the router does. */
  method Serve(state: AppState, op: Op) returns (reply: StateDto)
    modifies state
    ensures reply == state.Value()
    ensures reply == Apply(old(state.Value()), op)
  {
    match op
    case State => reply := GetState(state);
    case Good => reply := TapGood(state);
    case Evil => reply := TapEvil(state);
  }

  /** A fresh store that receives tap/good, tap/good, tap/evil and then
      /state answers the last request with {good: 2, evil: 1}. */
  method FreshScenario() returns (last: StateDto)
    ensures last == StateDto(2, 1)
  {
    var state := new AppState();
    var r1 := TapGood(state);
    var r2 := TapGood(state);
    var r3 := TapEvil(state);
    last := GetState(state);
  }
}
