// The recorder itself: `write_container` and `emit` as they run (onchain/src/record.rs),
// proved to write the stream of Emission.
module Recorder {
  import opened Common
  import opened Observer
  import opened Forest
  import opened Emission
  import opened EmissionCounts
  import FrameReading

  // The trace writer: an append-only log.
  class TraceLog {
    var events: seq<Event>

    constructor ()
      ensures events == []
    {
      events := [];
    }

    method Write(e: Event)
      modifies this
      ensures events == old(events) + [e]
    {
      events := events + [e];
    }
  }

  // The kinds of event the counters count.
  predicate Tallied(k: Kind) {
    k.Steps? || k.InternalCalls? || k.CairoSteps? || k.ContractEvents?
  }

  // The counters a run reports; `steps` starts at 1 for the writer's start position.
  class Recorded {
    var steps: nat
    var internalCalls: nat
    var cairoSteps: nat
    var eventsWritten: nat

    ghost function Tally(k: Kind): int
      reads this
    {
      match k
      case Steps => steps - 1
      case InternalCalls => internalCalls
      case CairoSteps => cairoSteps
      case ContractEvents => eventsWritten
      case _ => 0
    }

    // The counters say what is in the log.
    ghost predicate Matches(ev: seq<Event>)
      reads this
    {
      forall k {:trigger Tally(k)} :: Tallied(k) ==> Tally(k) == Count(ev, k)
    }

    constructor ()
      ensures Matches([])
    {
      steps, internalCalls, cairoSteps, eventsWritten := 1, 0, 0, 0;
    }
  }

  lemma {:induction false} CountSnoc(ev: seq<Event>, e: Event)
    ensures forall k :: Count(ev + [e], k) == Count(ev, k) + if IsKind(e, k) then 1 else 0
  {
    assert (ev + [e])[..|ev|] == ev;
  }

  // Writing an event that no counter counts.
  method WritePlain(w: TraceLog, rec: Recorded, e: Event)
    requires rec.Matches(w.events)
    requires !e.Stepped? && !e.InternalCall? && !e.ContractEvent?
    modifies w
    ensures w.events == old(w.events) + [e] && rec.Matches(w.events)
  {
    CountSnoc(w.events, e);
    w.Write(e);
    forall k | Tallied(k) ensures rec.Tally(k) == Count(w.events, k) {
      assert old(rec.Tally(k)) == Count(old(w.events), k);
    }
  }

  method WriteInternalCall(w: TraceLog, rec: Recorded, e: Event)
    requires rec.Matches(w.events) && e.InternalCall?
    modifies w, rec
    ensures w.events == old(w.events) + [e] && rec.Matches(w.events)
  {
    CountSnoc(w.events, e);
    w.Write(e);
    rec.internalCalls := rec.internalCalls + 1;
    forall k | Tallied(k) ensures rec.Tally(k) == Count(w.events, k) {
      assert old(rec.Tally(k)) == Count(old(w.events), k);
    }
  }

  method WriteStep(w: TraceLog, rec: Recorded, at: Position)
    requires rec.Matches(w.events)
    modifies w, rec
    ensures w.events == old(w.events) + [Stepped(at)] && rec.Matches(w.events)
  {
    CountSnoc(w.events, Stepped(at));
    w.Write(Stepped(at));
    if at.CairoLine? {
      rec.cairoSteps := rec.cairoSteps + 1;
    }
    rec.steps := rec.steps + 1;
    forall k | Tallied(k) ensures rec.Tally(k) == Count(w.events, k) {
      assert old(rec.Tally(k)) == Count(old(w.events), k);
    }
  }

  method WriteContractEvent(w: TraceLog, rec: Recorded, e: Event)
    requires rec.Matches(w.events) && e.ContractEvent?
    modifies w, rec
    ensures w.events == old(w.events) + [e] && rec.Matches(w.events)
  {
    CountSnoc(w.events, e);
    w.Write(e);
    rec.eventsWritten := rec.eventsWritten + 1;
    forall k | Tallied(k) ensures rec.Tally(k) == Count(w.events, k) {
      assert old(rec.Tally(k)) == Count(old(w.events), k);
    }
  }

  // ----- grouping the children

  method GroupByParent(frames: seq<Frame>) returns (children: map<Option<nat>, seq<nat>>)
    requires forall i :: 0 <= i < |frames| ==> frames[i].id == i
    ensures forall p: Option<nat> :: GetOr(children, p, []) == ChildrenOf(frames, p)
  {
    children := map[];
    var i := 0;
    while i < |frames|
      invariant 0 <= i <= |frames|
      invariant forall p: Option<nat> :: GetOr(children, p, []) == ChildrenOf(frames[..i], p)
    {
      var f := frames[i];
      assert frames[..i + 1][..i] == frames[..i];
      children := children[f.parent := GetOr(children, f.parent, []) + [f.id]];
      i := i + 1;
    }
    assert frames[..i] == frames;
  }

  // The children of one frame that run before step `slot`.
  function AtSlot(frames: seq<Frame>, ks: seq<nat>, m: nat, slot: nat): (r: seq<nat>)
    requires forall i :: 0 <= i < |ks| ==> ks[i] < |frames|
    ensures forall i :: 0 <= i < |r| ==> r[i] in ks
  {
    if ks == [] then []
    else
      var n := |ks| - 1;
      var before := AtSlot(frames, ks[..n], m, slot);
      if Slot(NodeOf(frames[ks[n]]), m) == slot then before + [ks[n]] else before
  }

  method GroupBySlot(frames: seq<Frame>, kids: seq<nat>, m: nat)
    returns (kidAt: map<nat, seq<nat>>, kidEnd: seq<nat>)
    requires forall i :: 0 <= i < |kids| ==> kids[i] < |frames|
    ensures forall slot :: 0 <= slot < m ==> GetOr(kidAt, slot, []) == AtSlot(frames, kids, m, slot)
    ensures kidEnd == AtSlot(frames, kids, m, m)
  {
    kidAt, kidEnd := map[], [];
    var i := 0;
    while i < |kids|
      invariant 0 <= i <= |kids|
      invariant forall slot :: 0 <= slot < m ==> GetOr(kidAt, slot, []) == AtSlot(frames, kids[..i], m, slot)
      invariant kidEnd == AtSlot(frames, kids[..i], m, m)
    {
      var k := kids[i];
      assert kids[..i + 1][..i] == kids[..i];
      match frames[k].parentStep {
        case Some(s) =>
          if s < m {
            kidAt := kidAt[s := GetOr(kidAt, s, []) + [k]];
          } else {
            kidEnd := kidEnd + [k];
          }
        case None => kidEnd := kidEnd + [k];
      }
      i := i + 1;
    }
    assert kids[..i] == kids;
  }

  // Emitting a list of frames one after the other.
  ghost function EmitList(c: Context, frames: seq<Frame>, ks: seq<nat>): seq<Event>
    requires Ready(c, frames) && forall i :: 0 <= i < |ks| ==> ks[i] < |frames|
  {
    if ks == [] then []
    else EmitList(c, frames, ks[..|ks| - 1]) + EmitFrame(c, frames, ks[|ks| - 1])
  }

  lemma {:induction false} EmitListSnoc(c: Context, frames: seq<Frame>, ks: seq<nat>, k: nat)
    requires Ready(c, frames) && k < |frames| && forall i :: 0 <= i < |ks| ==> ks[i] < |frames|
    ensures EmitList(c, frames, ks + [k]) == EmitList(c, frames, ks) + EmitFrame(c, frames, k)
  {
    var all := ks + [k];
    assert all[..|all| - 1] == ks && all[|all| - 1] == k;
    assert EmitList(c, frames, all) == EmitList(c, frames, all[..|all| - 1]) + EmitFrame(c, frames, all[|all| - 1]);
  }

  lemma {:induction false} EmitListStep(c: Context, frames: seq<Frame>, ks: seq<nat>, i: nat, start: seq<Event>)
    requires Ready(c, frames) && i < |ks| && forall i :: 0 <= i < |ks| ==> ks[i] < |frames|
    ensures start + EmitList(c, frames, ks[..i]) + EmitFrame(c, frames, ks[i]) ==
      start + EmitList(c, frames, ks[..i + 1])
  {
    EmitListSnoc(c, frames, ks[..i], ks[i]);
    assert ks[..i + 1] == ks[..i] + [ks[i]];
    Appended(start, EmitList(c, frames, ks[..i]), EmitFrame(c, frames, ks[i]), EmitList(c, frames, ks[..i + 1]));
  }

  lemma {:induction false} Appended(start: seq<Event>, a: seq<Event>, b: seq<Event>, both: seq<Event>)
    requires both == a + b
    ensures start + a + b == start + both
  {
  }

  lemma {:induction false} AtSlotSnoc(frames: seq<Frame>, ks: seq<nat>, k: nat, m: nat, slot: nat)
    requires k < |frames| && forall i :: 0 <= i < |ks| ==> ks[i] < |frames|
    ensures AtSlot(frames, ks + [k], m, slot) ==
      if Slot(NodeOf(frames[k]), m) == slot then AtSlot(frames, ks, m, slot) + [k] else AtSlot(frames, ks, m, slot)
  {
    assert (ks + [k])[..|ks|] == ks;
  }

  lemma {:induction false} ChildrenSnoc(frames: seq<Frame>, p: Option<nat>, k: nat)
    requires k < |frames|
    ensures ChildrenOf(frames[..k + 1], p) ==
      if frames[k].parent == p then ChildrenOf(frames[..k], p) + [k] else ChildrenOf(frames[..k], p)
  {
    assert frames[..k + 1][..k] == frames[..k];
  }

  // The list of the children below `hi` that run before step `slot`.
  function SlotList(frames: seq<Frame>, id: nat, slot: nat, hi: nat): seq<nat>
    requires id < |frames| && hi <= |frames|
  {
    AtSlot(frames, ChildrenOf(frames[..hi], Some(id)), |frames[id].steps|, slot)
  }

  lemma {:induction false} SlotListStep(frames: seq<Frame>, id: nat, slot: nat, k: nat)
    requires WellFormed(Shape(frames)) && id < |frames| && k < |frames|
    ensures SlotList(frames, id, slot, k + 1) ==
      if HangsAt(Shape(frames), k, id, slot) then SlotList(frames, id, slot, k) + [k] else SlotList(frames, id, slot, k)
    ensures HangsAt(Shape(frames), k, id, slot) ==> id < k
  {
    ChildrenSnoc(frames, Some(id), k);
    AtSlotSnoc(frames, ChildrenOf(frames[..k], Some(id)), k, |frames[id].steps|, slot);
    assert Shape(frames)[k] == NodeOf(frames[k]);
  }

  lemma {:induction false} EmitSlotList(c: Context, frames: seq<Frame>, id: nat, slot: nat, hi: nat)
    requires Ready(c, frames) && id < |frames| && hi <= |frames|
    ensures EmitList(c, frames, SlotList(frames, id, slot, hi)) == EmitKids(c, frames, id, slot, hi)
    decreases hi
  {
    if hi > 0 {
      var k := hi - 1;
      EmitSlotList(c, frames, id, slot, k);
      SlotListStep(frames, id, slot, k);
      if HangsAt(Shape(frames), k, id, slot) {
        EmitListSnoc(c, frames, SlotList(frames, id, slot, k), k);
      }
    }
  }

  lemma {:induction false} EmitTopListStep(c: Context, frames: seq<Frame>, k: nat, before: seq<nat>, after: seq<nat>)
    requires Ready(c, frames) && k < |frames| && forall i :: 0 <= i < |before| ==> before[i] < |frames|
    requires after == if frames[k].parent == None then before + [k] else before
    requires EmitList(c, frames, before) == EmitTops(c, frames, k)
    ensures EmitList(c, frames, after) == EmitTops(c, frames, k + 1)
  {
    if frames[k].parent == None {
      EmitListSnoc(c, frames, before, k);
    }
  }

  lemma {:induction false} EmitTopList(c: Context, frames: seq<Frame>, hi: nat)
    requires Ready(c, frames) && hi <= |frames|
    ensures EmitList(c, frames, ChildrenOf(frames[..hi], None)) == EmitTops(c, frames, hi)
  {
    if hi > 0 {
      var k := hi - 1;
      EmitTopList(c, frames, k);
      ChildrenSnoc(frames, None, k);
      EmitTopListStep(c, frames, k, ChildrenOf(frames[..k], None), ChildrenOf(frames[..hi], None));
    }
  }

  // ----- emit

  method EmitAll(w: TraceLog, c: Context, frames: seq<Frame>, children: map<Option<nat>, seq<nat>>, rec: Recorded,
          ghost floor: int, ks: seq<nat>)
    requires Ready(c, frames) && rec.Matches(w.events)
    requires forall p: Option<nat> :: GetOr(children, p, []) == ChildrenOf(frames, p)
    requires -1 <= floor && forall i :: 0 <= i < |ks| ==> floor < ks[i] < |frames|
    modifies w, rec
    ensures w.events == old(w.events) + EmitList(c, frames, ks) && rec.Matches(w.events)
    decreases |frames| - floor, 0
  {
    var i := 0;
    assert ks[..0] == [];
    while i < |ks|
      invariant 0 <= i <= |ks|
      invariant w.events == old(w.events) + EmitList(c, frames, ks[..i]) && rec.Matches(w.events)
    {
      Emit(w, c, frames, children, ks[i], rec);
      EmitListStep(c, frames, ks, i, old(w.events));
      i := i + 1;
    }
    assert ks[..i] == ks;
  }

  method EmitKidList(w: TraceLog, c: Context, frames: seq<Frame>, children: map<Option<nat>, seq<nat>>, ghost id: nat,
          ghost slot: nat, ks: seq<nat>, rec: Recorded)
    requires Ready(c, frames) && rec.Matches(w.events) && id < |frames|
    requires forall p: Option<nat> :: GetOr(children, p, []) == ChildrenOf(frames, p)
    requires ks == AtSlot(frames, ChildrenOf(frames, Some(id)), |frames[id].steps|, slot)
    modifies w, rec
    ensures w.events == old(w.events) + EmitKids(c, frames, id, slot, |frames|) && rec.Matches(w.events)
    decreases |frames| - id, 1, 0
  {
    KidsAfter(frames, id, slot);
    EmitAll(w, c, frames, children, rec, id, ks);
    assert frames[..|frames|] == frames;
    EmitSlotList(c, frames, id, slot, |frames|);
  }

  method Emit(w: TraceLog, c: Context, frames: seq<Frame>, children: map<Option<nat>, seq<nat>>, id: nat, rec: Recorded)
    requires Ready(c, frames) && rec.Matches(w.events) && id < |frames|
    requires forall p: Option<nat> :: GetOr(children, p, []) == ChildrenOf(frames, p)
    modifies w, rec
    ensures w.events == old(w.events) + EmitFrame(c, frames, id) && rec.Matches(w.events)
    ensures w.events == old(w.events) + FrameReading.Segment(c, frames, id)
    decreases |frames| - id, 3
  {
    var f := frames[id];
    EmitHeader(w, c, f, rec);
    EmitSplicedSteps(w, c, frames, children, id, rec);
    assert w.events == old(w.events) + Header(c, f) + EmitBody(c, frames, id);
    EmitFooter(w, f, rec);
    FrameWritten(c, frames, id, old(w.events), EmitBody(c, frames, id), w.events);
  }

  lemma {:induction false} FrameWritten(c: Context, frames: seq<Frame>, id: nat, before: seq<Event>, body: seq<Event>,
          now: seq<Event>)
    requires Ready(c, frames) && id < |frames| && body == EmitBody(c, frames, id)
    requires now == before + Header(c, frames[id]) + body + Footer(frames[id])
    ensures now == before + EmitFrame(c, frames, id) == before + FrameReading.Segment(c, frames, id)
  {
    FrameReading.SegmentAlike(c, frames, id);
    Regroup(before, Header(c, frames[id]), body, Footer(frames[id]));
  }

  method EmitSplicedSteps(w: TraceLog, c: Context, frames: seq<Frame>, children: map<Option<nat>, seq<nat>>, id: nat,
          rec: Recorded)
    requires Ready(c, frames) && rec.Matches(w.events) && id < |frames|
    requires forall p: Option<nat> :: GetOr(children, p, []) == ChildrenOf(frames, p)
    modifies w, rec
    ensures w.events == old(w.events) + EmitBody(c, frames, id) && rec.Matches(w.events)
    decreases |frames| - id, 2
  {
    var kids := GetOr(children, Some(id), []);
    var kidAt, kidEnd := GroupBySlot(frames, kids, |frames[id].steps|);
    var depth := EmitStepLoop(w, c, frames, children, id, kidAt, rec);
    EmitRest(w, c, frames, children, id, kidEnd, depth, rec, old(w.events));
  }

  method EmitRest(w: TraceLog, c: Context, frames: seq<Frame>, children: map<Option<nat>, seq<nat>>, id: nat,
          kidEnd: seq<nat>, depth: nat, rec: Recorded, ghost start: seq<Event>)
    requires Ready(c, frames) && rec.Matches(w.events) && id < |frames|
    requires forall p: Option<nat> :: GetOr(children, p, []) == ChildrenOf(frames, p)
    requires kidEnd == AtSlot(frames, ChildrenOf(frames, Some(id)), |frames[id].steps|, |frames[id].steps|)
    requires depth == Internal(c, frames[id], |frames[id].steps|).0
    requires w.events == start + EmitSteps(c, frames, id, |frames[id].steps|)
    modifies w, rec
    ensures w.events == start + EmitBody(c, frames, id) && rec.Matches(w.events)
    decreases |frames| - id, 1, 2
  {
    ghost var m := |frames[id].steps|;
    EmitKidList(w, c, frames, children, id, m, kidEnd, rec);
    EmitClosing(w, c, frames[id], depth, rec);
    Regroup(start, EmitSteps(c, frames, id, m), EmitKids(c, frames, id, m, |frames|), Closing(c, frames[id]));
  }

  lemma {:induction false} Regroup(a: seq<Event>, b: seq<Event>, c: seq<Event>, d: seq<Event>)
    ensures a + b + c + d == a + (b + c + d)
    ensures a + b + c == a + (b + c)
  {
  }

  method EmitStepLoop(w: TraceLog, c: Context, frames: seq<Frame>, children: map<Option<nat>, seq<nat>>, id: nat,
          kidAt: map<nat, seq<nat>>, rec: Recorded)
    returns (depth: nat)
    requires Ready(c, frames) && rec.Matches(w.events) && id < |frames|
    requires forall p: Option<nat> :: GetOr(children, p, []) == ChildrenOf(frames, p)
    requires forall slot :: 0 <= slot < |frames[id].steps| ==>
      GetOr(kidAt, slot, []) == AtSlot(frames, ChildrenOf(frames, Some(id)), |frames[id].steps|, slot)
    modifies w, rec
    ensures w.events == old(w.events) + EmitSteps(c, frames, id, |frames[id].steps|) && rec.Matches(w.events)
    ensures depth == Internal(c, frames[id], |frames[id].steps|).0
    ensures w.events == old(w.events) + FrameReading.AroundAll(c, frames, id, |frames[id].steps|)
    ensures depth == |FrameReading.LeftOpen(c, frames[id])|
    decreases |frames| - id, 1, 2
  {
    FrameReading.AroundAlike(c, frames, id, |frames[id].steps|);
    FrameReading.DrainsLeftOpen(c, frames[id]);
    var pendingCall := false;
    depth := 0;
    var i := 0;
    while i < |frames[id].steps|
      invariant 0 <= i <= |frames[id].steps|
      invariant (depth, pendingCall) == Internal(c, frames[id], i)
      invariant w.events == old(w.events) + EmitSteps(c, frames, id, i) && rec.Matches(w.events)
    {
      depth, pendingCall :=
        EmitOneStep(w, c, frames, children, id, i, depth, pendingCall, GetOr(kidAt, i, []), rec, old(w.events));
      i := i + 1;
    }
  }

  method EmitOneStep(w: TraceLog, c: Context, frames: seq<Frame>, children: map<Option<nat>, seq<nat>>, id: nat, i: nat,
          depth: nat, pendingCall: bool, ks: seq<nat>, rec: Recorded, ghost start: seq<Event>)
    returns (d: nat, p: bool)
    requires Ready(c, frames) && rec.Matches(w.events) && id < |frames| && i < |frames[id].steps|
    requires forall p: Option<nat> :: GetOr(children, p, []) == ChildrenOf(frames, p)
    requires (depth, pendingCall) == Internal(c, frames[id], i)
    requires ks == AtSlot(frames, ChildrenOf(frames, Some(id)), |frames[id].steps|, i)
    requires w.events == start + EmitSteps(c, frames, id, i)
    modifies w, rec
    ensures w.events == start + EmitSteps(c, frames, id, i + 1) && rec.Matches(w.events)
    ensures (d, p) == Internal(c, frames[id], i + 1)
    decreases |frames| - id, 1, 1
  {
    d := EmitOpenInternal(w, c, frames[id], i, depth, pendingCall, rec);
    EmitKidList(w, c, frames, children, id, i, ks, rec);
    d, p := EmitStep(w, c, frames[id], i, d, rec);
    StepAppended(c, frames, id, i, start, old(w.events), w.events);
  }

  lemma {:induction false} StepAppended(c: Context, frames: seq<Frame>, id: nat, i: nat, start: seq<Event>,
          done: seq<Event>, now: seq<Event>)
    requires Ready(c, frames) && id < |frames| && i < |frames[id].steps|
    requires done == start + EmitSteps(c, frames, id, i)
    requires var f := frames[id];
      now == done + OpenInternal(c, f, i) + EmitKids(c, frames, id, i, |frames|) +
             [Stepped(PositionOf(c, f, f.steps[i]))] + CloseInternal(c, f, i)
    ensures now == start + EmitSteps(c, frames, id, i + 1)
  {
  }

  lemma {:induction false} KidsAfter(frames: seq<Frame>, id: nat, slot: nat)
    requires WellFormed(Shape(frames)) && id < |frames|
    ensures forall i :: 0 <= i < |AtSlot(frames, ChildrenOf(frames, Some(id)), |frames[id].steps|, slot)| ==>
      id < AtSlot(frames, ChildrenOf(frames, Some(id)), |frames[id].steps|, slot)[i] < |frames|
  {
    var ks := ChildrenOf(frames, Some(id));
    forall k | k in ks ensures id < k < |frames| {
      var i :| 0 <= i < |ks| && ks[i] == k;
      assert Shape(frames)[k].parent == Some(id);
    }
  }

  method EmitHeader(w: TraceLog, c: Context, f: Frame, rec: Recorded)
    requires Covered(c, f) && rec.Matches(w.events)
    modifies w
    ensures w.events == old(w.events) + Header(c, f) && rec.Matches(w.events)
  {
    var names := GetOr(c.names, f.call.classHash, map[]);
    var fn := BySelector(f.call.selector);
    if f.call.selector in names {
      fn := Named(names[f.call.selector]);
    }
    WritePlain(w, rec, Arg("contract", Address(f.call.storageAddress)));
    WritePlain(w, rec, Arg("class_hash", Address(f.call.classHash)));
    WritePlain(w, rec, Arg("caller", Address(f.call.callerAddress)));
    WritePlain(w, rec, Arg("calldata", Felts(f.call.calldata)));
    WritePlain(w, rec, EntryCall(f.id, fn, EntryLine(c, f)));
  }

  method EmitOpenInternal(w: TraceLog, c: Context, f: Frame, i: nat, depth: nat, pendingCall: bool, rec: Recorded)
    returns (d: nat)
    requires Covered(c, f) && rec.Matches(w.events) && i < |f.steps|
    requires (depth, pendingCall) == Internal(c, f, i)
    modifies w, rec
    ensures w.events == old(w.events) + OpenInternal(c, f, i) && rec.Matches(w.events)
    ensures d == DepthAt(c, f, i)
  {
    d := depth;
    if pendingCall {
      var pc, listing := f.steps[i].pc, c.listings[f.call.classHash];
      var callee := AtPc(pc);
      if pc in listing.functionAt {
        callee := Named(listing.functionAt[pc]);
      }
      WriteInternalCall(w, rec, InternalCall(callee, CasmAt(c, f, pc)));
      d := d + 1;
    }
  }

  method EmitStep(w: TraceLog, c: Context, f: Frame, i: nat, depth: nat, rec: Recorded)
    returns (d: nat, pendingCall: bool)
    requires Covered(c, f) && rec.Matches(w.events) && i < |f.steps| && depth == DepthAt(c, f, i)
    modifies w, rec
    ensures w.events == old(w.events) + [Stepped(PositionOf(c, f, f.steps[i]))] + CloseInternal(c, f, i)
    ensures rec.Matches(w.events) && (d, pendingCall) == Internal(c, f, i + 1)
  {
    var s := f.steps[i];
    WriteStep(w, rec, PositionOf(c, f, s));
    d, pendingCall := depth, false;
    match OpcodeOf(c, f, s) {
      case CallOp => pendingCall := true;
      case RetOp =>
        if depth > 0 {
          WritePlain(w, rec, Return(NoValue));
          d := depth - 1;
        }
      case OtherOp =>
    }
  }

  method EmitClosing(w: TraceLog, c: Context, f: Frame, depth: nat, rec: Recorded)
    requires Covered(c, f) && rec.Matches(w.events) && depth == Internal(c, f, |f.steps|).0
    modifies w, rec
    ensures w.events == old(w.events) + Closing(c, f) && rec.Matches(w.events)
    ensures w.events == old(w.events) + (Repeat(Return(NoValue), |FrameReading.LeftOpen(c, f)|) +
                                         FrameReading.OwnEvents(c, f))
  {
    FrameReading.DrainsLeftOpen(c, f);
    FrameReading.EndsAlike(c, f);
    var d := depth;
    while d > 0
      invariant 0 <= d <= depth
      invariant w.events == old(w.events) + Repeat(Return(NoValue), depth - d) && rec.Matches(w.events)
    {
      WritePlain(w, rec, Return(NoValue));
      d := d - 1;
      assert Repeat(Return(NoValue), depth - d) == Repeat(Return(NoValue), depth - d - 1) + [Return(NoValue)];
    }
    ghost var drained := w.events;
    var evs := GetOr(c.eventsByFrame, f.id, []);
    var i := 0;
    while i < |evs|
      invariant 0 <= i <= |evs|
      invariant w.events == drained + FrameEvents(c, f, i) && rec.Matches(w.events)
    {
      WriteContractEvent(w, rec, ContractEvent(f.call.storageAddress, evs[i].0, evs[i].1));
      assert FrameEvents(c, f, i + 1) ==
        FrameEvents(c, f, i) + [ContractEvent(f.call.storageAddress, evs[i].0, evs[i].1)];
      i := i + 1;
    }
  }

  method EmitFooter(w: TraceLog, f: Frame, rec: Recorded)
    requires rec.Matches(w.events)
    modifies w
    ensures w.events == old(w.events) + Footer(f) && rec.Matches(w.events)
  {
    match f.error {
      case Some(e) =>
        WritePlain(w, rec, EntryPointError(e));
        WritePlain(w, rec, Return(ErrorValue(e)));
      case None => WritePlain(w, rec, Return(Felts(f.retdata)));
    }
  }

  method WriteFrames(w: TraceLog, c: Context, frames: seq<Frame>, rec: Recorded)
    requires Ready(c, frames) && rec.Matches(w.events)
    modifies w, rec
    ensures w.events == old(w.events) + EmitTops(c, frames, |frames|) && rec.Matches(w.events)
  {
    var children := GroupByParent(frames);
    EmitAll(w, c, frames, children, rec, -1, GetOr(children, None, []));
    assert frames[..|frames|] == frames;
    EmitTopList(c, frames, |frames|);
  }

  method WriteEvents(c: Context, frames: seq<Frame>, revert: Option<string>)
    returns (r: Result<TraceLog, string>, rec: Recorded)
    requires Ready(c, frames)
    ensures r.Err? <==> frames == []
    ensures r.Ok? ==> r.value.events == Container(c, frames, revert) && rec.Matches(r.value.events)
  {
    rec := new Recorded();
    if frames == [] {
      return Err("the executor ran no entry point at all"), rec;
    }
    var w := new TraceLog();
    WritePlain(w, rec, Start(c.paths[frames[0].call.classHash]));
    WriteFrames(w, c, frames, rec);
    match revert {
      case Some(e) => WritePlain(w, rec, Reverted(e));
      case None =>
    }
    r := Ok(w);
  }

  // One transaction's container. It fails exactly when the executor ran no entry point;
  // otherwise the counters count the frames' own steps, internal calls and events.
  method WriteContainer(c: Context, frames: seq<Frame>, revert: Option<string>)
    returns (r: Result<TraceLog, string>, rec: Recorded)
    requires Ready(c, frames)
    ensures r.Err? <==> frames == []
    ensures r.Ok? ==> r.value.events == Container(c, frames, revert)
    ensures r.Ok? ==> FrameReading.ReadsWhole(c, frames, revert, r.value.events)
    ensures r.Ok? ==> rec.steps == 1 + SumFrom(StepCounts(frames), 0)
    ensures r.Ok? ==> rec.eventsWritten == SumFrom(EventCounts(c, frames), 0)
    ensures r.Ok? ==> rec.cairoSteps == Count(r.value.events, CairoSteps)
    ensures r.Ok? ==> Count(r.value.events, Returns) == |frames| + rec.internalCalls
  {
    r, rec := WriteEvents(c, frames, revert);
    if r.Ok? {
      ContainerCounts(c, frames, revert);
      FrameReading.ContainerReadsWhole(c, frames, revert);
      assert rec.Tally(Steps) == rec.steps - 1 && rec.Tally(ContractEvents) == rec.eventsWritten;
      assert rec.Tally(InternalCalls) == rec.internalCalls && rec.Tally(CairoSteps) == rec.cairoSteps;
    }
  }
}
