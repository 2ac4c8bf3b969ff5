// Writing a transaction's frames as one event stream (onchain/src/record.rs).
module Emission {
  import opened Common
  import opened Observer
  import opened Forest

  datatype FnName = Named(name: string) | BySelector(selector: Felt) | AtPc(pc: nat)

  datatype Position = CairoLine(path: string, line: nat) | CasmLine(path: string, line: nat)

  datatype Value = Address(felt: Felt) | Felts(felts: seq<Felt>) | NoValue | ErrorValue(msg: string)

  // The trace writer's calls. `EntryCall` and `InternalCall` are both `register_call`; an entry call keeps
  // the frame it opens.
  datatype Event =
    | Start(path: string)
    | Arg(name: string, value: Value)
    | EntryCall(frame: nat, fn: FnName, at: Position)
    | InternalCall(fn: FnName, at: Position)
    | Stepped(at: Position)
    | Return(value: Value)
    | ContractEvent(from: Felt, keys: seq<Felt>, data: seq<Felt>)
    | EntryPointError(msg: string)
    | Reverted(msg: string)

  datatype Opcode = CallOp | RetOp | OtherOp

  datatype ClassListing = ClassListing(
    pcLine: map<nat, nat>, functionAt: map<nat, string>, opcodes: map<nat, Opcode>)

  datatype Context = Context(
    listings: map<Felt, ClassListing>,
    paths: map<Felt, string>,
    names: map<Felt, map<Felt, string>>,
    cairoAt: map<Felt, map<nat, (string, nat)>>,
    eventsByFrame: map<nat, seq<(seq<Felt>, seq<Felt>)>>)

  // Every frame's class has a listing and an interned path.
  predicate Covered(c: Context, f: Frame) {
    f.call.classHash in c.listings && f.call.classHash in c.paths
  }

  ghost predicate Ready(c: Context, frames: seq<Frame>) {
    && WellFormed(Shape(frames))
    && (forall i :: 0 <= i < |frames| ==> frames[i].id == i)
    && forall i :: 0 <= i < |frames| ==> Covered(c, frames[i])
  }

  function GetOr<K, V>(m: map<K, V>, k: K, default: V): V {
    if k in m then m[k] else default
  }

  function CasmAt(c: Context, f: Frame, pc: nat): Position
    requires Covered(c, f)
  {
    CasmLine(c.paths[f.call.classHash], GetOr(c.listings[f.call.classHash].pcLine, pc, 1))
  }

  // Where a step is shown: its bound Cairo line, or its own listing line.
  function PositionOf(c: Context, f: Frame, s: Step): Position
    requires Covered(c, f)
  {
    var cairo := GetOr(c.cairoAt, f.call.classHash, map[]);
    if s.pc in cairo then CairoLine(cairo[s.pc].0, cairo[s.pc].1) else CasmAt(c, f, s.pc)
  }

  function OpcodeOf(c: Context, f: Frame, s: Step): Opcode
    requires Covered(c, f)
  {
    GetOr(c.listings[f.call.classHash].opcodes, s.pc, OtherOp)
  }

  function Header(c: Context, f: Frame): seq<Event>
    requires Covered(c, f)
  {
    var names := GetOr(c.names, f.call.classHash, map[]);
    var fn := if f.call.selector in names then Named(names[f.call.selector]) else BySelector(f.call.selector);
    [Arg("contract", Address(f.call.storageAddress)),
     Arg("class_hash", Address(f.call.classHash)),
     Arg("caller", Address(f.call.callerAddress)),
     Arg("calldata", Felts(f.call.calldata)),
     EntryCall(f.id, fn, EntryLine(c, f))]
  }

  function EntryLine(c: Context, f: Frame): Position
    requires Covered(c, f)
  {
    if f.steps == [] then CasmLine(c.paths[f.call.classHash], 1) else CasmAt(c, f, f.steps[0].pc)
  }

  // Internal calls open, and whether the last step was a call, after `n` steps.
  function Internal(c: Context, f: Frame, n: nat): (r: (nat, bool))
    requires Covered(c, f) && n <= |f.steps|
    decreases n, 0
  {
    if n == 0 then (0, false)
    else
      var d := DepthAt(c, f, n - 1);
      match OpcodeOf(c, f, f.steps[n - 1])
      case CallOp => (d, true)
      case RetOp => (if d > 0 then d - 1 else 0, false)
      case OtherOp => (d, false)
  }

  // Internal calls open while step `i` runs.
  function DepthAt(c: Context, f: Frame, i: nat): nat
    requires Covered(c, f) && i < |f.steps|
    decreases i, 1
  {
    var (d, pending) := Internal(c, f, i);
    if pending then d + 1 else d
  }

  function OpenInternal(c: Context, f: Frame, i: nat): seq<Event>
    requires Covered(c, f) && i < |f.steps|
  {
    if Internal(c, f, i).1 then
      var pc := f.steps[i].pc;
      var at := c.listings[f.call.classHash].functionAt;
      [InternalCall(if pc in at then Named(at[pc]) else AtPc(pc), CasmAt(c, f, pc))]
    else []
  }

  function CloseInternal(c: Context, f: Frame, i: nat): seq<Event>
    requires Covered(c, f) && i < |f.steps|
  {
    if OpcodeOf(c, f, f.steps[i]) == RetOp && DepthAt(c, f, i) > 0 then [Return(NoValue)] else []
  }

  function Repeat<T>(x: T, n: nat): (r: seq<T>)
    ensures |r| == n && forall i :: 0 <= i < n ==> r[i] == x
  {
    seq(n, _ => x)
  }

  function FrameEvents(c: Context, f: Frame, n: nat): (r: seq<Event>)
    requires n <= |GetOr(c.eventsByFrame, f.id, [])|
    ensures |r| == n
    ensures forall i :: 0 <= i < n ==> r[i].ContractEvent?
  {
    var evs := GetOr(c.eventsByFrame, f.id, []);
    seq(n, i requires 0 <= i < n => ContractEvent(f.call.storageAddress, evs[i].0, evs[i].1))
  }

  function Footer(f: Frame): seq<Event> {
    match f.error
    case Some(e) => [EntryPointError(e), Return(ErrorValue(e))]
    case None => [Return(Felts(f.retdata))]
  }

  // What a frame's own drained calls and contract events write.
  function Closing(c: Context, f: Frame): seq<Event>
    requires Covered(c, f)
  {
    Repeat(Return(NoValue), Internal(c, f, |f.steps|).0) +
    FrameEvents(c, f, |GetOr(c.eventsByFrame, f.id, [])|)
  }

  // ----- the stream one frame writes, its children's streams spliced in

  ghost function EmitFrame(c: Context, frames: seq<Frame>, id: nat): seq<Event>
    requires Ready(c, frames) && id < |frames|
    decreases |frames| - id, 2, 0
  {
    Header(c, frames[id]) + EmitBody(c, frames, id) + Footer(frames[id])
  }

  ghost function EmitBody(c: Context, frames: seq<Frame>, id: nat): seq<Event>
    requires Ready(c, frames) && id < |frames|
    decreases |frames| - id, 1, |frames[id].steps| + 1
  {
    var m := |frames[id].steps|;
    EmitSteps(c, frames, id, m) + EmitKids(c, frames, id, m, |frames|) + Closing(c, frames[id])
  }

  ghost function EmitSteps(c: Context, frames: seq<Frame>, id: nat, n: nat): seq<Event>
    requires Ready(c, frames) && id < |frames| && n <= |frames[id].steps|
    decreases |frames| - id, 1, n
  {
    if n == 0 then []
    else
      var f, i := frames[id], n - 1;
      EmitSteps(c, frames, id, i) + OpenInternal(c, f, i) + EmitKids(c, frames, id, i, |frames|) +
      [Stepped(PositionOf(c, f, f.steps[i]))] + CloseInternal(c, f, i)
  }

  ghost function EmitKids(c: Context, frames: seq<Frame>, id: nat, slot: nat, hi: nat): seq<Event>
    requires Ready(c, frames) && id < |frames| && hi <= |frames|
    decreases |frames| - id, 0, hi
  {
    if hi <= id + 1 then []
    else
      var before := EmitKids(c, frames, id, slot, hi - 1);
      if HangsAt(Shape(frames), hi - 1, id, slot) then before + EmitFrame(c, frames, hi - 1) else before
  }

  ghost function EmitTops(c: Context, frames: seq<Frame>, hi: nat): seq<Event>
    requires Ready(c, frames) && hi <= |frames|
  {
    if hi == 0 then []
    else
      var before := EmitTops(c, frames, hi - 1);
      if frames[hi - 1].parent == None then before + EmitFrame(c, frames, hi - 1) else before
  }

  // The whole container.
  ghost function Container(c: Context, frames: seq<Frame>, revert: Option<string>): seq<Event>
    requires Ready(c, frames) && frames != []
  {
    [Start(c.paths[frames[0].call.classHash])] + EmitTops(c, frames, |frames|) +
    match revert { case Some(e) => [Reverted(e)] case None => [] }
  }

  // ----- counting and projecting a stream

  datatype Kind = EntryCalls | EntryOf(frame: nat) | InternalCalls | Returns | Steps | CairoSteps | ContractEvents

  predicate IsKind(e: Event, k: Kind) {
    match k
    case EntryCalls => e.EntryCall?
    case EntryOf(id) => e.EntryCall? && e.frame == id
    case InternalCalls => e.InternalCall?
    case Returns => e.Return?
    case Steps => e.Stepped?
    case CairoSteps => e.Stepped? && e.at.CairoLine?
    case ContractEvents => e.ContractEvent?
  }

  ghost function Count(ev: seq<Event>, k: Kind): nat {
    if ev == [] then 0
    else Count(ev[..|ev| - 1], k) + if IsKind(ev[|ev| - 1], k) then 1 else 0
  }

  // The positions a stream steps through.
  ghost function StepsOf(ev: seq<Event>): seq<Position> {
    if ev == [] then []
    else
      var e := ev[|ev| - 1];
      StepsOf(ev[..|ev| - 1]) + if e.Stepped? then [e.at] else []
  }

  // The number of open calls after `ev`; `None` once a return closes nothing.
  ghost function Track(ev: seq<Event>): Option<nat> {
    if ev == [] then Some(0)
    else
      match Track(ev[..|ev| - 1])
      case None => None
      case Some(d) =>
        match ev[|ev| - 1]
        case EntryCall(_, _, _) => Some(d + 1)
        case InternalCall(_, _) => Some(d + 1)
        case Return(_) => if d == 0 then None else Some(d - 1)
        case _ => Some(d)
  }

  // A balanced bracket word of calls and returns.
  ghost predicate Balanced(ev: seq<Event>) {
    Track(ev) == Some(0)
  }

  lemma {:induction false} CountConcat(a: seq<Event>, b: seq<Event>, k: Kind)
    ensures Count(a + b, k) == Count(a, k) + Count(b, k)
    decreases |b|
  {
    if b == [] {
      assert a + b == a;
    } else {
      assert (a + b)[..|a + b| - 1] == a + b[..|b| - 1];
      CountConcat(a, b[..|b| - 1], k);
    }
  }

  lemma {:induction false} StepsOfConcat(a: seq<Event>, b: seq<Event>)
    ensures StepsOf(a + b) == StepsOf(a) + StepsOf(b)
    decreases |b|
  {
    if b == [] {
      assert a + b == a;
    } else {
      assert (a + b)[..|a + b| - 1] == a + b[..|b| - 1];
      StepsOfConcat(a, b[..|b| - 1]);
    }
  }

  // A word that never closes more than it opened can follow any other.
  lemma {:induction false} TrackConcat(a: seq<Event>, b: seq<Event>)
    requires Track(a).Some? && Track(b).Some?
    ensures Track(a + b) == Some(Track(a).value + Track(b).value)
    decreases |b|
  {
    if b == [] {
      assert a + b == a;
    } else {
      assert (a + b)[..|a + b| - 1] == a + b[..|b| - 1];
      TrackConcat(a, b[..|b| - 1]);
    }
  }
}
