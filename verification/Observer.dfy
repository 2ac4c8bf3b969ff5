// The execution observer: the sink's state machine (onchain/blockifier-patch/bt_trace.rs).
module Observer {
  import opened Common

  datatype Step = Step(pc: nat, ap: nat, fp: nat)

  // What `enter` is told about the entry point being called.
  datatype EntryPoint = EntryPoint(
    classHash: Felt,
    storageAddress: Felt,
    callerAddress: Felt,
    selector: Felt,
    entryPointType: string,
    callType: string,
    cairo0: bool,
    calldata: seq<Felt>)

  datatype Frame = Frame(
    id: nat,
    parent: Option<nat>,
    parentStep: Option<nat>,
    call: EntryPoint,
    steps: seq<Step>,
    error: Option<string>,
    retdata: seq<Felt>,
    failed: bool)

  datatype SinkState = SinkState(frames: seq<Frame>, stack: seq<nat>, pendingStep: seq<Option<nat>>)

  const EMPTY_SINK := SinkState([], [], [])

  function Last<T>(s: seq<T>): Option<T> {
    if s == [] then None else Some(s[|s| - 1])
  }

  function Popped<T>(s: seq<T>): seq<T> {
    if s == [] then [] else s[..|s| - 1]
  }

  function Entered(s: SinkState, call: EntryPoint): SinkState {
    var parentStep := match Last(s.pendingStep) { case Some(p) => p case None => None };
    SinkState(
      s.frames + [Frame(|s.frames|, Last(s.stack), parentStep, call, [], None, [], false)],
      s.stack + [|s.frames|],
      s.pendingStep + [None])
  }

  function SyscallNoted(s: SinkState, step: nat): SinkState {
    if s.pendingStep == [] then s
    else s.(pendingStep := s.pendingStep[|s.pendingStep| - 1 := Some(step)])
  }

  function StepsRecorded(s: SinkState, steps: seq<Step>): SinkState
    requires forall i :: 0 <= i < |s.stack| ==> s.stack[i] < |s.frames|
  {
    match Last(s.stack)
    case None => s
    case Some(top) => s.(frames := s.frames[top := s.frames[top].(steps := steps)])
  }

  function Exited(s: SinkState, id: nat, error: Option<string>, retdata: seq<Felt>, failed: bool): SinkState
    requires id < |s.frames|
  {
    SinkState(
      s.frames[id := s.frames[id].(error := error, retdata := retdata, failed := failed)],
      Popped(s.stack),
      Popped(s.pendingStep))
  }

  class Sink {
    var frames: seq<Frame>
    var stack: seq<nat>
    var pendingStep: seq<Option<nat>>

    ghost function State(): SinkState
      reads this
    {
      SinkState(frames, stack, pendingStep)
    }

    // `frames[top]` is indexed by every stack entry.
    ghost predicate Valid()
      reads this
    {
      forall i :: 0 <= i < |stack| ==> stack[i] < |frames|
    }

    constructor ()
      ensures State() == EMPTY_SINK && Valid()
    {
      frames, stack, pendingStep := [], [], [];
    }

    method Enter(call: EntryPoint) returns (id: nat)
      requires Valid()
      modifies this
      ensures Valid() && id == old(|frames|)
      ensures State() == Entered(old(State()), call)
    {
      id := |frames|;
      var parent := Last(stack);
      var parentStep := None;
      if pendingStep != [] {
        parentStep := pendingStep[|pendingStep| - 1];
      }
      frames := frames + [Frame(id, parent, parentStep, call, [], None, [], false)];
      stack := stack + [id];
      pendingStep := pendingStep + [None];
    }

    method SyscallAt(step: nat)
      requires Valid()
      modifies this`pendingStep
      ensures Valid()
      ensures State() == SyscallNoted(old(State()), step)
    {
      if pendingStep != [] {
        pendingStep := pendingStep[|pendingStep| - 1 := Some(step)];
      }
    }

    method RecordSteps(steps: seq<Step>)
      requires Valid()
      modifies this`frames
      ensures Valid()
      ensures State() == StepsRecorded(old(State()), steps)
    {
      if stack != [] {
        var top := stack[|stack| - 1];
        frames := frames[top := frames[top].(steps := steps)];
      }
    }

    method Exit(id: Option<nat>, error: Option<string>, retdata: seq<Felt>, failed: bool)
      requires Valid()
      requires id.Some? ==> id.value < |frames|
      modifies this
      ensures Valid()
      ensures State() ==
              if id.None? then old(State()) else Exited(old(State()), id.value, error, retdata, failed)
    {
      if id == None {
        return;
      }
      frames := frames[id.value := frames[id.value].(error := error, retdata := retdata, failed := failed)];
      stack := Popped(stack);
      pendingStep := Popped(pendingStep);
    }
  }
}
