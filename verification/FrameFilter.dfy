// The frames compared with a reverted transaction's published trace (onchain/src/main.rs).
module FrameFilter {
  import opened Common
  import opened Observer
  import opened Forest
  import opened VmRun

  // The top-level frames, in order.
  function Tops(frames: seq<Frame>): seq<nat> {
    ChildrenOf(frames, None)
  }

  // A reverted transaction that ran validate, execute and the fee transfer loses its
  // execute phase in the published trace.
  function DroppedTop(frames: seq<Frame>, revertedExecute: bool, deployAccount: bool): Option<nat> {
    var tops := Tops(frames);
    if revertedExecute && !deployAccount && |tops| == 3 then Some(tops[1]) else None
  }

  // A list of frames as an observer leaves it.
  ghost predicate Observed(frames: seq<Frame>) {
    && (forall i :: 0 <= i < |frames| ==> frames[i].id == i)
    && WellFormed(Shape(frames))
    && Preorder(Shape(frames))
  }

  method InDropped(frames: seq<Frame>, droppedTop: Option<nat>, start: nat) returns (dropped: bool)
    requires WellFormed(Shape(frames)) && start < |frames|
    ensures dropped <==> droppedTop.Some? && Above(Shape(frames), droppedTop.value, start)
  {
    var id: nat := start;
    ghost var t := Shape(frames);
    while true
      invariant id < |frames|
      invariant droppedTop.Some? ==> (Above(t, droppedTop.value, start) <==> Above(t, droppedTop.value, id))
      decreases id
    {
      if Some(id) == droppedTop {
        return true;
      }
      assert t[id].parent == frames[id].parent;
      match frames[id].parent {
        case Some(p) => id := p;
        case None => return false;
      }
    }
  }

  // The ids kept, in order.
  method Mine(frames: seq<Frame>, revertedExecute: bool, deployAccount: bool) returns (mine: seq<nat>)
    requires Observed(frames)
    ensures var tops := Tops(frames);
      mine ==
              if revertedExecute && !deployAccount && |tops| == 3
              then Range(0, tops[1]) + Range(tops[2], |frames|)
              else Range(0, |frames|)
  {
    var droppedTop := DroppedTop(frames, revertedExecute, deployAccount);
    ghost var tops := Tops(frames);
    ghost var from, to :=
      if droppedTop.Some? then tops[1] else |frames|, if droppedTop.Some? then tops[2] else |frames|;
    assert droppedTop.Some? ==> tops[2] in tops && tops[1] in tops;
    mine := [];
    var i := 0;
    while i < |frames|
      invariant 0 <= i <= |frames|
      invariant mine == Range(0, if i < from then i else from) + Range(to, i)
    {
      var dropped := InDropped(frames, droppedTop, frames[i].id);
      assert dropped <==> from <= i < to by {
        if droppedTop.Some? {
          DroppedRange(frames, tops[1], tops[2], i);
        }
      }
      if !dropped {
        mine := mine + [frames[i].id];
      }
      i := i + 1;
    }
  }

  function Range(lo: nat, hi: nat): (r: seq<nat>)
    ensures |r| == if lo < hi then hi - lo else 0
  {
    if hi <= lo then [] else Range(lo, hi - 1) + [hi - 1]
  }

  // ----- in preorder, a frame's top-level ancestor is the latest one opened before it

  ghost function Root(t: seq<Node>, id: nat): nat
    requires WellFormed(t) && id < |t|
    decreases id
  {
    if t[id].parent.Some? then Root(t, t[id].parent.value) else id
  }

  lemma {:induction false} AboveSameRoot(t: seq<Node>, a: nat, id: nat)
    requires WellFormed(t) && Above(t, a, id)
    ensures a < |t| && Root(t, a) == Root(t, id)
    decreases id
  {
    if a != id {
      AboveSameRoot(t, a, t[id].parent.value);
    }
  }

  lemma {:induction false} RootIsAbove(t: seq<Node>, id: nat)
    requires WellFormed(t) && id < |t|
    ensures Above(t, Root(t, id), id)
    decreases id
  {
    if t[id].parent.Some? {
      RootIsAbove(t, t[id].parent.value);
    }
  }

  lemma {:induction false} RootIsLatestTop(t: seq<Node>, id: nat)
    requires WellFormed(t) && Preorder(t) && id < |t|
    ensures var r := Root(t, id);
      r <= id && t[r].parent == None && forall c :: r < c <= id ==> t[c].parent != None
    decreases id
  {
    if t[id].parent.Some? {
      var p := t[id].parent.value;
      assert Follows(t, id);
      AboveSameRoot(t, p, id - 1);
      RootIsLatestTop(t, id - 1);
    }
  }

  // With `a` and `b` consecutive top-level frames, exactly the ids in [a, b) are below `a`.
  lemma {:induction false} DroppedRange(frames: seq<Frame>, a: nat, b: nat, id: nat)
    requires Observed(frames) && a < b < |frames| && id < |frames|
    requires frames[a].parent == None && frames[b].parent == None
    requires forall c :: a < c < b ==> frames[c].parent != None
    ensures Above(Shape(frames), a, id) <==> a <= id < b
  {
    var t := Shape(frames);
    assert t[a].parent == None && t[b].parent == None;
    RootIsLatestTop(t, id);
    RootIsAbove(t, id);
    var r := Root(t, id);
    assert t[r].parent == frames[r].parent;
    if Above(t, a, id) {
      AboveSameRoot(t, a, id);
    }
  }

  // Every legal run leaves its frames in that form.
  lemma {:induction false} RunIsObserved(actions: seq<Action>, v: Vm)
    requires Run(actions, v)
    ensures Observed(v.sink.frames)
  {
    Reachable(actions, v);
    SameParentsPreorder(Live(v), Shape(v.sink.frames));
  }

  lemma {:induction false} SameParentsPreorder(t: seq<Node>, t': seq<Node>)
    requires WellFormed(t) && Preorder(t) && |t| == |t'|
    requires forall i :: 0 <= i < |t| ==> t'[i].parent == t[i].parent
    ensures WellFormed(t') && Preorder(t')
  {
    assert WellFormed(t');
    forall i | 0 < i < |t'| ensures Follows(t', i) {
      assert Follows(t, i);
      if t[i].parent.Some? {
        AboveKept(t, t', t[i].parent.value, i - 1);
      }
    }
  }
}
