/** The Step Functions state machine that runs one analysis: invoke the
    extractor Lambda, check the status code it returned, then either start the
    Athena query or fail. The definition is data, and `Run` is a small
    interpreter for the state kinds it uses. */
module Orchestrator {
  import opened Results

  const HttpSuccess := 200

  datatype StateId = InvokeExtractor | CheckStatusCode | StartAthenaQuery | FailState

  datatype Action = InvokeLambda | StartQueryExecution

  /** A task state either names its successor or ends the execution. A choice
      state compares `$.Payload.statusCode` with one number. */
  datatype State =
    | Task(action: Action, next: Option<StateId>)
    | Choice(expectedStatus: int, whenEqual: StateId, otherwise: StateId)
    | Fail

  datatype Definition = Definition(startAt: StateId, states: map<StateId, State>)

  /** The chain `invoke.next(choice.when(status == 200, query).otherwise(fail))`. */
  const StateMachine := Definition(
    InvokeExtractor,
    map[
      InvokeExtractor := Task(InvokeLambda, Some(CheckStatusCode)),
      CheckStatusCode := Choice(HttpSuccess, StartAthenaQuery, FailState),
      StartAthenaQuery := Task(StartQueryExecution, None),
      FailState := Fail
    ])

  datatype Outcome = Succeeded | Failed | Unfinished

  /** The states an execution entered, in order, and how it ended. */
  datatype Execution = Execution(path: seq<StateId>, outcome: Outcome)

  /** The states a state can hand over to. */
  function Successors(st: State): (r: set<StateId>)
    ensures st.Fail? ==> r == {}
    ensures st.Task? ==> (r == {} <==> st.next.None?)
    ensures st.Choice? ==> st.whenEqual in r && st.otherwise in r
  {
    match st
    case Task(_, next) => if next.Some? then {next.value} else {}
    case Choice(_, whenEqual, otherwise) => {whenEqual, otherwise}
    case Fail => {}
  }

  /** Runs `d` from state `s` for at most `fuel` states. `status` is the
      `$.Payload.statusCode` of the current state input, if it has one.
      `invocation` is what the extractor Lambda returns: its status code, or
      `None` when the invocation itself fails, which fails the invoke state.
      The query state is taken to succeed. */
  function Run(d: Definition, s: StateId, status: Option<int>, invocation: Option<int>, fuel: nat): (r: Execution)
    ensures |r.path| <= fuel
    ensures fuel > 0 ==> |r.path| >= 1 && r.path[0] == s
    ensures r.outcome == Unfinished ==> |r.path| == fuel
    ensures forall i | 0 <= i < |r.path| - 1 ::
              r.path[i] in d.states && r.path[i + 1] in Successors(d.states[r.path[i]])
    decreases fuel
  {
    if fuel == 0 then Execution([], Unfinished)
    else if s !in d.states then Execution([s], Failed)
    else
      var rest :=
        match d.states[s]
        case Fail => Execution([], Failed)
        case Task(action, next) =>
          var output := if action == InvokeLambda then invocation else status;
          if action == InvokeLambda && invocation.None? then Execution([], Failed)
          else if next.None? then Execution([], Succeeded)
          else Run(d, next.value, output, invocation, fuel - 1)
        case Choice(expected, whenEqual, otherwise) =>
          if status.None? then Execution([], Failed)
          else if status.value == expected then Run(d, whenEqual, status, invocation, fuel - 1)
          else Run(d, otherwise, status, invocation, fuel - 1);
      Execution([s] + rest.path, rest.outcome)
  }

  /** One execution of the deployed state machine, started by the schedule
      with an input that carries no status code. */
  function Execute(invocation: Option<int>): (r: Execution)
    ensures |r.path| >= 1 && r.path[0] == InvokeExtractor
    ensures r.outcome != Unfinished
    ensures r.outcome == Succeeded <==> invocation == Some(HttpSuccess)
    ensures StartAthenaQuery in r.path <==> invocation == Some(HttpSuccess)
    ensures FailState in r.path <==> invocation.Some? && invocation.value != HttpSuccess
    ensures r.outcome == Succeeded ==> r.path[|r.path| - 1] == StartAthenaQuery
    ensures forall i, j | 0 <= i < j < |r.path| :: r.path[i] != r.path[j]
  {
    Run(StateMachine, StateMachine.startAt, None, invocation, 3)
  }

  /** Query and Fail states end the execution, and no state leads back to the
      invocation. */
  lemma TerminalStates()
    ensures Successors(StateMachine.states[StartAthenaQuery]) == {}
    ensures Successors(StateMachine.states[FailState]) == {}
    ensures forall s | s in StateMachine.states :: InvokeExtractor !in Successors(StateMachine.states[s])
  {
  }

  /** The definition is closed, every state of it is entered by some
      execution, and the three possible paths are: invocation only (the
      invocation failed), invocation–check–query, and invocation–check–Fail. */
  lemma StateMachinePaths(code: int)
    ensures StateMachine.states.Keys == {InvokeExtractor, CheckStatusCode, StartAthenaQuery, FailState}
    ensures forall s | s in StateMachine.states :: Successors(StateMachine.states[s]) <= StateMachine.states.Keys
    ensures Execute(None) == Execution([InvokeExtractor], Failed)
    ensures code == HttpSuccess ==> Execute(Some(code)) == Execution([InvokeExtractor, CheckStatusCode, StartAthenaQuery], Succeeded)
    ensures code != HttpSuccess ==> Execute(Some(code)) == Execution([InvokeExtractor, CheckStatusCode, FailState], Failed)
  {
  }

  /** Three states are enough: any larger step budget gives the same execution. */
  lemma {:induction false} EnoughFuel(invocation: Option<int>, fuel: nat)
    requires fuel >= 3
    ensures Run(StateMachine, StateMachine.startAt, None, invocation, fuel) == Execute(invocation)
  {
    var d := StateMachine;
    if invocation.Some? {
      var s := invocation;
      var target := if s.value == HttpSuccess then StartAthenaQuery else FailState;
      assert Run(d, target, s, invocation, fuel - 2) == Run(d, target, s, invocation, 1);
      assert Run(d, CheckStatusCode, s, invocation, fuel - 1) == Run(d, CheckStatusCode, s, invocation, 2);
    }
  }
}
