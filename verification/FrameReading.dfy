// A frame's part of the container as its reader finds it (onchain/src/record.rs): which opcode opens and
// closes an internal call, told by matching calls and rets, and what stands around every step.
module FrameReading {
  import opened Common
  import opened Observer
  import opened Forest
  import opened Emission

  // ---- Matching calls and rets ----------------------------------------------------------

  // Step `i` decodes as `op`.
  predicate Decodes(c: Context, f: Frame, i: nat, op: Opcode)
    requires Covered(c, f)
  {
    && i < |f.steps|
    && var opcodes := c.listings[f.call.classHash].opcodes;
       f.steps[i].pc in opcodes && opcodes[f.steps[i].pc] == op
  }

  // The calls less the rets among the steps from `lo` up to `hi`.
  function Level(c: Context, f: Frame, lo: nat, hi: nat): int
    requires Covered(c, f) && lo <= hi <= |f.steps|
    decreases hi
  {
    if lo == hi then 0
    else
      Level(c, f, lo, hi - 1) +
      if Decodes(c, f, hi - 1, CallOp) then 1 else if Decodes(c, f, hi - 1, RetOp) then -1 else 0
  }

  // The call that step `j` makes is not yet returned from before step `i`: since then the rets have nowhere
  // outnumbered the calls.
  ghost predicate OpenAt(c: Context, f: Frame, j: nat, i: nat)
    requires Covered(c, f) && i <= |f.steps|
  {
    && j < i && Decodes(c, f, j, CallOp)
    && forall k: nat {:trigger StillOpen(c, f, j, k)} :: j < k <= i ==> StillOpen(c, f, j, k)
  }

  ghost predicate StillOpen(c: Context, f: Frame, j: nat, k: nat)
    requires Covered(c, f) && j < k <= |f.steps|
  {
    Level(c, f, j + 1, k) >= 0
  }

  // A ret has an internal call of this frame to return from.
  ghost predicate Returns(c: Context, f: Frame, i: nat)
    requires Covered(c, f) && i < |f.steps|
  {
    Decodes(c, f, i, RetOp) && exists j: nat :: OpenAt(c, f, j, i)
  }

  // The calls entered and never returned from. A call that is the last step is not entered.
  ghost function LeftOpen(c: Context, f: Frame): set<nat>
    requires Covered(c, f)
  {
    set j: nat | j + 1 < |f.steps| && OpenAt(c, f, j, |f.steps|)
  }

  // ---- What the frame's reader finds ----------------------------------------------------

  // Where step `i` is shown: its class's Cairo line, or its listing's line for the pc, or else line 1.
  function ListingLine(c: Context, f: Frame, i: nat): Position
    requires Covered(c, f) && i < |f.steps|
  {
    var pcLine, pc := c.listings[f.call.classHash].pcLine, f.steps[i].pc;
    CasmLine(c.paths[f.call.classHash], if pc in pcLine then pcLine[pc] else 1)
  }

  function ShownAt(c: Context, f: Frame, i: nat): Position
    requires Covered(c, f) && i < |f.steps|
  {
    var class_, pc := f.call.classHash, f.steps[i].pc;
    if class_ in c.cairoAt && pc in c.cairoAt[class_]
    then CairoLine(c.cairoAt[class_][pc].0, c.cairoAt[class_][pc].1)
    else ListingLine(c, f, i)
  }

  // The function entered at step `i`.
  function Callee(c: Context, f: Frame, i: nat): FnName
    requires Covered(c, f) && i < |f.steps|
  {
    var functionAt, pc := c.listings[f.call.classHash].functionAt, f.steps[i].pc;
    if pc in functionAt then Named(functionAt[pc]) else AtPc(pc)
  }

  // The frame's own call, with its arguments.
  function Opening(c: Context, f: Frame): seq<Event>
    requires Covered(c, f)
  {
    var class_, selector := f.call.classHash, f.call.selector;
    var fn :=
      if class_ in c.names && selector in c.names[class_] then Named(c.names[class_][selector])
      else BySelector(selector);
    [Arg("contract", Address(f.call.storageAddress)), Arg("class_hash", Address(f.call.classHash)),
     Arg("caller", Address(f.call.callerAddress)), Arg("calldata", Felts(f.call.calldata)),
     EntryCall(f.id, fn, if f.steps == [] then CasmLine(c.paths[class_], 1) else ListingLine(c, f, 0))]
  }

  // The frame's own return: its error, or its return data.
  function Ending(f: Frame): seq<Event> {
    if f.error.Some? then [EntryPointError(f.error.value), Return(ErrorValue(f.error.value))]
    else [Return(Felts(f.retdata))]
  }

  function OwnEvents(c: Context, f: Frame): seq<Event> {
    if f.id !in c.eventsByFrame then []
    else
      var evs := c.eventsByFrame[f.id];
      seq(|evs|, i requires 0 <= i < |evs| => ContractEvent(f.call.storageAddress, evs[i].0, evs[i].1))
  }

  // Frame `k` was opened by frame `id`, at the syscall of its step `i`, or at no step of its trace.
  predicate OpenedAt(frames: seq<Frame>, k: nat, id: nat, i: nat)
    requires k < |frames| && id < |frames| && i <= |frames[id].steps|
  {
    && frames[k].parent == Some(id)
    && if i < |frames[id].steps| then frames[k].parentStep == Some(i)
       else frames[k].parentStep.Some? ==> frames[k].parentStep.value >= |frames[id].steps|
  }

  // The segments of the frames opened there with ids from `id` up to `hi`, in that order.
  ghost function Inner(c: Context, frames: seq<Frame>, id: nat, i: nat, hi: nat): seq<Event>
    requires Ready(c, frames) && id < |frames| && i <= |frames[id].steps| && hi <= |frames|
    decreases |frames| - id, 0, hi
  {
    if hi <= id + 1 then []
    else
      Inner(c, frames, id, i, hi - 1) + if OpenedAt(frames, hi - 1, id, i) then Segment(c, frames, hi - 1) else []
  }

  // What stands around step `i`: a call entered there, the frames its syscall opened, the step itself, and
  // a return.
  ghost function Around(c: Context, frames: seq<Frame>, id: nat, i: nat): seq<Event>
    requires Ready(c, frames) && id < |frames| && i < |frames[id].steps|
    decreases |frames| - id, 1
  {
    var f := frames[id];
    (if i > 0 && Decodes(c, f, i - 1, CallOp) then [InternalCall(Callee(c, f, i), ListingLine(c, f, i))] else []) +
    Inner(c, frames, id, i, |frames|) +
    [Stepped(ShownAt(c, f, i))] +
    (if Returns(c, f, i) then [Return(NoValue)] else [])
  }

  ghost function AroundAll(c: Context, frames: seq<Frame>, id: nat, n: nat): seq<Event>
    requires Ready(c, frames) && id < |frames| && n <= |frames[id].steps|
    decreases |frames| - id, 2, n
  {
    if n == 0 then [] else AroundAll(c, frames, id, n - 1) + Around(c, frames, id, n - 1)
  }

  // The frame's whole segment.
  ghost function Segment(c: Context, frames: seq<Frame>, id: nat): seq<Event>
    requires Ready(c, frames) && id < |frames|
    decreases |frames| - id, 3
  {
    var f, m := frames[id], |frames[id].steps|;
    Opening(c, f) + AroundAll(c, frames, id, m) + Inner(c, frames, id, m, |frames|) +
    Repeat(Return(NoValue), |LeftOpen(c, f)|) + OwnEvents(c, f) + Ending(f)
  }

  // ---- The counter of open calls is the matching ----------------------------------------

  // The steps whose calls are open before step `i`, oldest first.
  ghost function Stack(c: Context, f: Frame, i: nat): seq<nat>
    requires Covered(c, f) && i <= |f.steps|
  {
    if i == 0 then []
    else
      var before := Stack(c, f, i - 1);
      if Decodes(c, f, i - 1, CallOp) then before + [i - 1]
      else if Decodes(c, f, i - 1, RetOp) && before != [] then before[..|before| - 1]
      else before
  }

  // Each of them is open, with as many calls above it as later ones stand on the stack.
  ghost predicate IsOpen(c: Context, f: Frame, i: nat, s: seq<nat>, a: nat)
    requires Covered(c, f) && i <= |f.steps| && a < |s|
  {
    OpenAt(c, f, s[a], i) && Level(c, f, s[a] + 1, i) == |s| - 1 - a
  }

  ghost predicate HoldsOpen(c: Context, f: Frame, i: nat, s: seq<nat>)
    requires Covered(c, f) && i <= |f.steps|
  {
    && (forall a: nat {:trigger IsOpen(c, f, i, s, a)} :: a < |s| ==> IsOpen(c, f, i, s, a))
    && (forall a: nat, b: nat :: a < b < |s| ==> s[a] < s[b])
    && (forall j: nat {:trigger OpenAt(c, f, j, i)} :: OpenAt(c, f, j, i) ==> j in s)
  }

  lemma {:induction false} OpenNext(c: Context, f: Frame, j: nat, i: nat)
    requires Covered(c, f) && j < i < |f.steps|
    ensures OpenAt(c, f, j, i + 1) <==> OpenAt(c, f, j, i) && Level(c, f, j + 1, i + 1) >= 0
  {
    assert OpenAt(c, f, j, i + 1) ==> StillOpen(c, f, j, i + 1);
  }

  lemma {:induction false} OpenFirst(c: Context, f: Frame, i: nat)
    requires Covered(c, f) && i < |f.steps|
    ensures OpenAt(c, f, i, i + 1) <==> Decodes(c, f, i, CallOp)
  {
  }

  lemma {:induction false} StackHolds(c: Context, f: Frame, i: nat)
    requires Covered(c, f) && i <= |f.steps|
    ensures HoldsOpen(c, f, i, Stack(c, f, i))
  {
    if i > 0 {
      StackHolds(c, f, i - 1);
      StackHoldsNext(c, f, i - 1, i);
    }
  }

  lemma {:induction false} StackHoldsNext(c: Context, f: Frame, k: nat, i: nat)
    requires Covered(c, f) && i == k + 1 <= |f.steps| && HoldsOpen(c, f, k, Stack(c, f, k))
    ensures HoldsOpen(c, f, i, Stack(c, f, i))
  {
    var s, t := Stack(c, f, k), Stack(c, f, i);
    forall a: nat | a < |t| ensures IsOpen(c, f, i, t, a) {
      StaysOpen(c, f, k, a);
    }
    forall a: nat, b: nat | a < b < |t| ensures t[a] < t[b] {
      assert a < |s| && IsOpen(c, f, k, s, a);
    }
    forall j: nat | OpenAt(c, f, j, i) ensures j in t {
      StackHoldsAll(c, f, k, j);
    }
  }

  lemma {:induction false} StaysOpen(c: Context, f: Frame, k: nat, a: nat)
    requires Covered(c, f) && k < |f.steps| && HoldsOpen(c, f, k, Stack(c, f, k)) && a < |Stack(c, f, k + 1)|
    ensures IsOpen(c, f, k + 1, Stack(c, f, k + 1), a)
  {
    var s, t := Stack(c, f, k), Stack(c, f, k + 1);
    if a == |s| {
      OpenFirst(c, f, k);
    } else {
      assert IsOpen(c, f, k, s, a);
      OpenNext(c, f, s[a], k);
      assert t[a] == s[a];
    }
  }

  // What is open after a step was open before it, unless it is the step's own call.
  lemma {:induction false} StackHoldsAll(c: Context, f: Frame, k: nat, j: nat)
    requires Covered(c, f) && k < |f.steps| && HoldsOpen(c, f, k, Stack(c, f, k)) && OpenAt(c, f, j, k + 1)
    ensures j in Stack(c, f, k + 1)
  {
    var s := Stack(c, f, k);
    if j == k {
      OpenFirst(c, f, k);
    } else {
      OpenNext(c, f, j, k);
      var a: nat :| a < |s| && s[a] == j;
      assert IsOpen(c, f, k, s, a);
      if Decodes(c, f, k, CallOp) {
        assert (s + [k])[a] == j;
      } else if Decodes(c, f, k, RetOp) {
        assert a < |s| - 1;
        assert s[..|s| - 1][a] == j;
      }
    }
  }

  // The recorder's counter and flag are the stack's size and whether the last step called.
  lemma {:induction false} CounterIsStack(c: Context, f: Frame, n: nat)
    requires Covered(c, f) && n <= |f.steps|
    ensures var (d, pending) := Internal(c, f, n);
      && (pending <==> n > 0 && Decodes(c, f, n - 1, CallOp))
      && |Stack(c, f, n)| == d + if pending then 1 else 0
  {
    if n > 0 {
      CounterIsStack(c, f, n - 1);
    }
  }

  lemma {:induction false} ReturnsWhenOpen(c: Context, f: Frame, i: nat)
    requires Covered(c, f) && i < |f.steps|
    ensures CloseInternal(c, f, i) == if Returns(c, f, i) then [Return(NoValue)] else []
  {
    CounterIsStack(c, f, i);
    StackHolds(c, f, i);
    var s := Stack(c, f, i);
    if s != [] {
      assert IsOpen(c, f, i, s, 0);
    }
  }

  // As many numbers as the list of them is long.
  lemma {:induction false} CountRising(some: set<nat>, s: seq<nat>)
    requires forall a: nat, b: nat :: a < b < |s| ==> s[a] < s[b]
    requires forall j: nat :: j in some <==> j in s
    ensures |some| == |s|
  {
    if s == [] {
      assert some == {};
    } else {
      var n := |s| - 1;
      forall j: nat ensures j in some - {s[n]} <==> j in s[..n] {
        if j in some - {s[n]} {
          var a: nat :| a < |s| && s[a] == j;
          assert s[..n][a] == j;
        }
      }
      CountRising(some - {s[n]}, s[..n]);
      assert some == (some - {s[n]}) + {s[n]};
    }
  }

  lemma {:induction false} DrainsLeftOpen(c: Context, f: Frame)
    requires Covered(c, f)
    ensures Internal(c, f, |f.steps|).0 == |LeftOpen(c, f)|
  {
    var m := |f.steps|;
    var s := Stack(c, f, m);
    CounterIsStack(c, f, m);
    StackHolds(c, f, m);
    var entered := if Internal(c, f, m).1 then s[..|s| - 1] else s;
    forall j: nat ensures j in LeftOpen(c, f) <==> j in entered {
      EnteredIsOpen(c, f, j);
    }
    CountRising(LeftOpen(c, f), entered);
  }

  lemma {:induction false} EnteredIsOpen(c: Context, f: Frame, j: nat)
    requires Covered(c, f) && HoldsOpen(c, f, |f.steps|, Stack(c, f, |f.steps|))
    ensures var s := Stack(c, f, |f.steps|);
      j in LeftOpen(c, f) <==> j in if Internal(c, f, |f.steps|).1 then s[..|s| - 1] else s
  {
    var m := |f.steps|;
    var s := Stack(c, f, m);
    CounterIsStack(c, f, m);
    if j in s {
      var a: nat :| a < |s| && s[a] == j;
      assert IsOpen(c, f, m, s, a);
      if Internal(c, f, m).1 && a < |s| - 1 {
        assert s[..|s| - 1][a] == j && s[a] < s[|s| - 1];
      }
    }
  }

  // ---- The recorder's segment is the reader's -------------------------------------------

  lemma {:induction false} OpensAfterCall(c: Context, f: Frame, i: nat)
    requires Covered(c, f) && i < |f.steps|
    ensures OpenInternal(c, f, i) ==
      if i > 0 && Decodes(c, f, i - 1, CallOp) then [InternalCall(Callee(c, f, i), ListingLine(c, f, i))] else []
  {
    CounterIsStack(c, f, i);
  }

  lemma {:induction false} HangsWhereOpened(frames: seq<Frame>, k: nat, id: nat, i: nat)
    requires k < |frames| && id < |frames| && i <= |frames[id].steps|
    ensures HangsAt(Shape(frames), k, id, i) <==> OpenedAt(frames, k, id, i)
  {
  }

  lemma {:induction false} EndsAlike(c: Context, f: Frame)
    requires Covered(c, f)
    ensures Header(c, f) == Opening(c, f) && Footer(f) == Ending(f)
    ensures FrameEvents(c, f, |GetOr(c.eventsByFrame, f.id, [])|) == OwnEvents(c, f)
  {
  }

  lemma {:induction false} InnerAlike(c: Context, frames: seq<Frame>, id: nat, i: nat, hi: nat)
    requires Ready(c, frames) && id < |frames| && i <= |frames[id].steps| && hi <= |frames|
    ensures EmitKids(c, frames, id, i, hi) == Inner(c, frames, id, i, hi)
    decreases |frames| - id, 0, hi
  {
    if hi > id + 1 {
      InnerAlike(c, frames, id, i, hi - 1);
      HangsWhereOpened(frames, hi - 1, id, i);
      if OpenedAt(frames, hi - 1, id, i) {
        SegmentAlike(c, frames, hi - 1);
      }
    }
  }

  lemma {:induction false} AroundAlike(c: Context, frames: seq<Frame>, id: nat, n: nat)
    requires Ready(c, frames) && id < |frames| && n <= |frames[id].steps|
    ensures EmitSteps(c, frames, id, n) == AroundAll(c, frames, id, n)
    decreases |frames| - id, 2, n
  {
    if n > 0 {
      AroundAlike(c, frames, id, n - 1);
      InnerAlike(c, frames, id, n - 1, |frames|);
      AroundOne(c, frames, id, n - 1, EmitSteps(c, frames, id, n - 1));
    }
  }

  lemma {:induction false} AroundOne(c: Context, frames: seq<Frame>, id: nat, i: nat, done: seq<Event>)
    requires Ready(c, frames) && id < |frames| && i < |frames[id].steps|
    requires done == EmitSteps(c, frames, id, i) == AroundAll(c, frames, id, i)
    requires EmitKids(c, frames, id, i, |frames|) == Inner(c, frames, id, i, |frames|)
    ensures EmitSteps(c, frames, id, i + 1) == AroundAll(c, frames, id, i + 1)
  {
    var f, kids := frames[id], Inner(c, frames, id, i, |frames|);
    OpensAfterCall(c, f, i);
    ReturnsWhenOpen(c, f, i);
    Regrouped(done, OpenInternal(c, f, i), kids, [Stepped(ShownAt(c, f, i))], CloseInternal(c, f, i));
    assert Around(c, frames, id, i) ==
      OpenInternal(c, f, i) + kids + [Stepped(ShownAt(c, f, i))] + CloseInternal(c, f, i);
  }

  lemma {:induction false} Regrouped<T>(a: seq<T>, b: seq<T>, c: seq<T>, d: seq<T>, e: seq<T>)
    ensures a + b + c + d + e == a + (b + c + d + e)
  {
  }

  // For every pattern of opcodes, a frame's segment is what its reader finds.
  lemma {:induction false} SegmentAlike(c: Context, frames: seq<Frame>, id: nat)
    requires Ready(c, frames) && id < |frames|
    ensures EmitFrame(c, frames, id) == Segment(c, frames, id)
    decreases |frames| - id, 3
  {
    var f, m := frames[id], |frames[id].steps|;
    AroundAlike(c, frames, id, m);
    InnerAlike(c, frames, id, m, |frames|);
    DrainsLeftOpen(c, f);
    EndsAlike(c, f);
    Reassociated(Opening(c, f), AroundAll(c, frames, id, m), Inner(c, frames, id, m, |frames|),
      Repeat(Return(NoValue), |LeftOpen(c, f)|), OwnEvents(c, f), Ending(f));
  }

  lemma {:induction false} Reassociated<T>(a: seq<T>, b: seq<T>, c: seq<T>, d: seq<T>, e: seq<T>, g: seq<T>)
    ensures a + (b + c + (d + e)) + g == a + b + c + d + e + g
  {
  }

  // ---- Every frame's segment stands in the container ------------------------------------

  ghost predicate Within(part: seq<Event>, whole: seq<Event>) {
    exists before, after :: whole == before + part + after
  }

  lemma {:induction false} WithinAround(part: seq<Event>, middle: seq<Event>, before: seq<Event>, after: seq<Event>)
    requires Within(part, middle)
    ensures Within(part, before + middle + after)
  {
    var a, b :| middle == a + part + b;
    assert before + middle + after == (before + a) + part + (b + after);
  }

  lemma {:induction false} WithinItself(part: seq<Event>)
    ensures Within(part, part)
  {
    assert part == [] + part + [];
  }

  lemma {:induction false} WithinEither(part: seq<Event>, a: seq<Event>, b: seq<Event>)
    ensures Within(part, a) || Within(part, b) ==> Within(part, a + b)
  {
    if Within(part, a) {
      WithinAround(part, a, [], b);
      assert [] + a + b == a + b;
    } else if Within(part, b) {
      WithinAround(part, b, a, []);
      assert a + b + [] == a + b;
    }
  }

  lemma {:induction false} KidWithin(c: Context, frames: seq<Frame>, id: nat, i: nat, hi: nat, k: nat)
    requires Ready(c, frames) && id < k < hi <= |frames| && HangsAt(Shape(frames), k, id, i)
    ensures Within(EmitFrame(c, frames, k), EmitKids(c, frames, id, i, hi))
  {
    var part, before, last := EmitFrame(c, frames, k), EmitKids(c, frames, id, i, hi - 1), EmitFrame(c, frames, hi - 1);
    if k == hi - 1 {
      WithinItself(part);
    } else {
      KidWithin(c, frames, id, i, hi - 1, k);
    }
    WithinEither(part, before, last);
  }

  lemma {:induction false} WithinThird(part: seq<Event>, a: seq<Event>, b: seq<Event>, d: seq<Event>, e: seq<Event>,
          g: seq<Event>)
    requires Within(part, d)
    ensures Within(part, a + b + d + e + g)
  {
    WithinAround(part, d, a + b, e + g);
    assert a + b + d + (e + g) == a + b + d + e + g;
  }

  lemma {:induction false} WithinFirst(part: seq<Event>, a: seq<Event>, b: seq<Event>, d: seq<Event>, e: seq<Event>,
          g: seq<Event>)
    requires Within(part, a)
    ensures Within(part, a + b + d + e + g)
  {
    WithinAround(part, a, [], b + d + e + g);
    assert [] + a + (b + d + e + g) == a + b + d + e + g;
  }

  lemma {:induction false} KidsWithinSteps(c: Context, frames: seq<Frame>, id: nat, n: nat, i: nat, part: seq<Event>)
    requires Ready(c, frames) && id < |frames| && i < n <= |frames[id].steps|
    requires Within(part, EmitKids(c, frames, id, i, |frames|))
    ensures Within(part, EmitSteps(c, frames, id, n))
  {
    var f, k := frames[id], n - 1;
    var done, kids := EmitSteps(c, frames, id, k), EmitKids(c, frames, id, k, |frames|);
    var open, step, close := OpenInternal(c, f, k), [Stepped(PositionOf(c, f, f.steps[k]))], CloseInternal(c, f, k);
    if i == k {
      WithinThird(part, done, open, kids, step, close);
    } else {
      KidsWithinSteps(c, frames, id, k, i, part);
      WithinFirst(part, done, open, kids, step, close);
    }
  }

  lemma {:induction false} WithinParent(c: Context, frames: seq<Frame>, k: nat)
    requires Ready(c, frames) && k < |frames| && frames[k].parent.Some?
    ensures frames[k].parent.value < k
    ensures Within(EmitFrame(c, frames, k), EmitFrame(c, frames, frames[k].parent.value))
  {
    assert Shape(frames)[k].parent == frames[k].parent;
    var id := frames[k].parent.value;
    var f, m, part := frames[id], |frames[id].steps|, EmitFrame(c, frames, k);
    var slot := Slot(Shape(frames)[k], m);
    var steps, kids, closing := EmitSteps(c, frames, id, m), EmitKids(c, frames, id, m, |frames|), Closing(c, f);
    KidWithin(c, frames, id, slot, |frames|, k);
    if slot < m {
      KidsWithinSteps(c, frames, id, m, slot, part);
      WithinAround(part, steps, [], kids + closing);
      assert [] + steps + (kids + closing) == EmitBody(c, frames, id);
    } else {
      WithinAround(part, kids, steps, closing);
    }
    WithinAround(part, EmitBody(c, frames, id), Header(c, f), Footer(f));
  }

  lemma {:induction false} TopWithin(c: Context, frames: seq<Frame>, hi: nat, k: nat)
    requires Ready(c, frames) && k < hi <= |frames| && frames[k].parent == None
    ensures Within(EmitFrame(c, frames, k), EmitTops(c, frames, hi))
  {
    var part, before, last := EmitFrame(c, frames, k), EmitTops(c, frames, hi - 1), EmitFrame(c, frames, hi - 1);
    if k == hi - 1 {
      WithinItself(part);
    } else {
      TopWithin(c, frames, hi - 1, k);
    }
    WithinEither(part, before, last);
  }

  lemma {:induction false} WithinTrans(a: seq<Event>, b: seq<Event>, whole: seq<Event>)
    requires Within(a, b) && Within(b, whole)
    ensures Within(a, whole)
  {
    var before, after :| whole == before + b + after;
    WithinAround(a, b, before, after);
  }

  lemma {:induction false} WithinTops(c: Context, frames: seq<Frame>, k: nat)
    requires Ready(c, frames) && k < |frames|
    ensures Within(EmitFrame(c, frames, k), EmitTops(c, frames, |frames|))
    decreases k
  {
    if frames[k].parent == None {
      TopWithin(c, frames, |frames|, k);
    } else {
      WithinParent(c, frames, k);
      WithinTops(c, frames, frames[k].parent.value);
      WithinTrans(EmitFrame(c, frames, k), EmitFrame(c, frames, frames[k].parent.value), EmitTops(c, frames, |frames|));
    }
  }

  // The segments of the top-level frames below `hi`, in the order they were opened.
  ghost function Tops(c: Context, frames: seq<Frame>, hi: nat): seq<Event>
    requires Ready(c, frames) && hi <= |frames|
  {
    if hi == 0 then []
    else Tops(c, frames, hi - 1) + if frames[hi - 1].parent == None then Segment(c, frames, hi - 1) else []
  }

  lemma {:induction false} TopsAlike(c: Context, frames: seq<Frame>, hi: nat)
    requires Ready(c, frames) && hi <= |frames|
    ensures EmitTops(c, frames, hi) == Tops(c, frames, hi)
  {
    if hi > 0 {
      TopsAlike(c, frames, hi - 1);
      SegmentAlike(c, frames, hi - 1);
    }
  }

  // The container, from its start to the transaction's revert, holds every frame's segment whole.
  ghost predicate ReadsWhole(c: Context, frames: seq<Frame>, revert: Option<string>, ev: seq<Event>)
    requires Ready(c, frames) && frames != []
  {
    && ev == [Start(c.paths[frames[0].call.classHash])] + Tops(c, frames, |frames|) +
             (if revert.Some? then [Reverted(revert.value)] else [])
    && forall k: nat :: k < |frames| ==> Within(Segment(c, frames, k), ev)
  }

  lemma {:induction false} ContainerReadsWhole(c: Context, frames: seq<Frame>, revert: Option<string>)
    requires Ready(c, frames) && frames != []
    ensures ReadsWhole(c, frames, revert, Container(c, frames, revert))
  {
    var head, tail := [Start(c.paths[frames[0].call.classHash])], if revert.Some? then [Reverted(revert.value)] else [];
    TopsAlike(c, frames, |frames|);
    assert Container(c, frames, revert) == head + EmitTops(c, frames, |frames|) + tail;
    forall k: nat | k < |frames| ensures Within(Segment(c, frames, k), Container(c, frames, revert)) {
      SegmentAlike(c, frames, k);
      WithinTops(c, frames, k);
      WithinAround(EmitFrame(c, frames, k), EmitTops(c, frames, |frames|), head, tail);
    }
  }
}
