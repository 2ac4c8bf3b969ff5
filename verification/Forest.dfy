// The call forest the observer's frames describe, and the interleaving of its steps.
module Forest {
  import opened Common
  import opened Observer

  // The part of a frame that decides where its steps go.
  datatype Node = Node(parent: Option<nat>, parentStep: Option<nat>, steps: seq<Step>)

  function NodeOf(f: Frame): Node {
    Node(f.parent, f.parentStep, f.steps)
  }

  function Shape(frames: seq<Frame>): (t: seq<Node>)
    ensures |t| == |frames|
    ensures forall i :: 0 <= i < |t| ==> t[i] == NodeOf(frames[i])
  {
    seq(|frames|, i requires 0 <= i < |frames| => NodeOf(frames[i]))
  }

  // Every parent was opened before its children.
  ghost predicate WellFormed(t: seq<Node>) {
    forall i :: 0 <= i < |t| && t[i].parent.Some? ==> t[i].parent.value < i
  }

  // The frames opened by `p` (`None`: the top-level ones), in the order they were opened.
  function ChildrenOf(frames: seq<Frame>, p: Option<nat>): (r: seq<nat>)
    ensures forall i :: 0 <= i < |r| ==> r[i] < |frames| && frames[r[i]].parent == p
    ensures forall i, j :: 0 <= i < j < |r| ==> r[i] < r[j]
    ensures forall c: nat :: c < |frames| && frames[c].parent == p ==> c in r
  {
    if frames == [] then []
    else
      var n := |frames| - 1;
      ChildrenOf(frames[..n], p) + if frames[n].parent == p then [n] else []
  }

  // The parent step before which a child runs: its own, or the end of the parent's steps
  // when the parent never completed that step.
  function Slot(child: Node, parentSteps: nat): nat {
    if child.parentStep.Some? && child.parentStep.value < parentSteps then child.parentStep.value else parentSteps
  }

  // Frame `c` was opened by `p`, and runs before step `slot` of `p`.
  predicate HangsAt(t: seq<Node>, c: nat, p: nat, slot: nat)
    requires c < |t| && p < |t|
  {
    t[c].parent == Some(p) && Slot(t[c], |t[p].steps|) == slot
  }

  // One executed instruction: the frame it ran in, and the step.
  type Executed = (nat, Step)

  // A frame's steps with each child's steps spliced in at its slot.
  ghost function Weave(t: seq<Node>, id: nat): seq<Executed>
    requires WellFormed(t) && id < |t|
    decreases |t| - id, 2, 0
  {
    WeaveSteps(t, id, |t[id].steps|) + WeaveKids(t, id, |t[id].steps|, |t|)
  }

  ghost function WeaveSteps(t: seq<Node>, id: nat, n: nat): seq<Executed>
    requires WellFormed(t) && id < |t| && n <= |t[id].steps|
    decreases |t| - id, 1, n
  {
    if n == 0 then []
    else WeaveSteps(t, id, n - 1) + WeaveKids(t, id, n - 1, |t|) + [(id, t[id].steps[n - 1])]
  }

  // The children below `hi` that run before step `slot`, in the order they were opened.
  ghost function WeaveKids(t: seq<Node>, id: nat, slot: nat, hi: nat): seq<Executed>
    requires WellFormed(t) && id < |t| && hi <= |t|
    decreases |t| - id, 0, hi
  {
    if hi <= id + 1 then []
    else
      var before := WeaveKids(t, id, slot, hi - 1);
      if HangsAt(t, hi - 1, id, slot) then before + Weave(t, hi - 1) else before
  }

  ghost function WeaveTops(t: seq<Node>, hi: nat): seq<Executed>
    requires WellFormed(t) && hi <= |t|
  {
    if hi == 0 then []
    else
      var before := WeaveTops(t, hi - 1);
      if t[hi - 1].parent == None then before + Weave(t, hi - 1) else before
  }

  // ----- a frame that has executed nothing contributes nothing, wherever it hangs

  lemma {:induction false} WeaveAfterOpen(t: seq<Node>, f: Node, id: nat)
    requires WellFormed(t + [f]) && WellFormed(t) && f.steps == []
    requires id < |t|
    ensures Weave(t + [f], id) == Weave(t, id)
    decreases |t| - id, 2, 0
  {
    var m := |t[id].steps|;
    WeaveStepsAfterOpen(t, f, id, m);
    WeaveKidsAfterOpen(t, f, id, m, |t|);
    WeaveLeaf(t, f);
  }

  lemma {:induction false} WeaveStepsAfterOpen(t: seq<Node>, f: Node, id: nat, n: nat)
    requires WellFormed(t + [f]) && WellFormed(t) && f.steps == []
    requires id < |t| && n <= |t[id].steps|
    ensures WeaveSteps(t + [f], id, n) == WeaveSteps(t, id, n)
    decreases |t| - id, 1, n
  {
    if n > 0 {
      WeaveStepsAfterOpen(t, f, id, n - 1);
      WeaveKidsAfterOpen(t, f, id, n - 1, |t|);
      WeaveLeaf(t, f);
    }
  }

  lemma {:induction false} WeaveKidsAfterOpen(t: seq<Node>, f: Node, id: nat, slot: nat, hi: nat)
    requires WellFormed(t + [f]) && WellFormed(t) && f.steps == []
    requires id < |t| && hi <= |t|
    ensures WeaveKids(t + [f], id, slot, hi) == WeaveKids(t, id, slot, hi)
    decreases |t| - id, 0, hi
  {
    if hi > id + 1 {
      var c := hi - 1;
      WeaveKidsAfterOpen(t, f, id, slot, c);
      assert HangsAt(t + [f], c, id, slot) == HangsAt(t, c, id, slot);
      if t[c].parent == Some(id) {
        WeaveAfterOpen(t, f, c);
      }
    }
  }

  lemma {:induction false} WeaveLeaf(t: seq<Node>, f: Node)
    requires WellFormed(t + [f]) && f.steps == []
    ensures Weave(t + [f], |t|) == []
  {
  }

  lemma {:induction false} WeaveTopsAfterOpen(t: seq<Node>, f: Node, hi: nat)
    requires WellFormed(t + [f]) && WellFormed(t) && f.steps == []
    requires hi <= |t|
    ensures WeaveTops(t + [f], hi) == WeaveTops(t, hi)
    ensures hi == |t| ==> WeaveTops(t + [f], |t| + 1) == WeaveTops(t, |t|)
  {
    WeaveLeaf(t, f);
    if hi > 0 {
      WeaveTopsAfterOpen(t, f, hi - 1);
      WeaveAfterOpen(t, f, hi - 1);
    }
  }

  // ----- a step executed by the innermost open frame comes last

  // `path` is the chain of open frames: each one the last child of the one before it, at
  // the step that one is suspended at.
  ghost predicate OpenPath(t: seq<Node>, path: seq<nat>) {
    && (forall i, j :: 0 <= i < j < |path| ==> path[i] < path[j])
    && (forall j :: 0 <= j < |path| ==> path[j] < |t|)
    && (path != [] ==> t[path[0]].parent == None && forall c :: path[0] < c < |t| ==> t[c].parent != None)
    && (forall j :: 0 < j < |path| ==> Suspended(t, path[j - 1], path[j]))
  }

  // `p` waits for its last child `c`.
  ghost predicate Suspended(t: seq<Node>, p: nat, c: nat)
    requires p < |t| && c < |t|
  {
    && t[c].parent == Some(p)
    && t[c].parentStep == Some(|t[p].steps|)
    && forall d :: c < d < |t| ==> t[d].parent != Some(p)
  }

  // Children run no later than the parent's current step.
  ghost predicate OpenedInTime(t: seq<Node>) {
    forall c {:trigger InTime(t, c)} :: 0 <= c < |t| ==> InTime(t, c)
  }

  ghost predicate InTime(t: seq<Node>, c: nat)
    requires c < |t|
  {
    t[c].parent.Some? && t[c].parent.value < |t| ==>
      t[c].parentStep.Some? && t[c].parentStep.value <= |t[t[c].parent.value].steps|
  }

  function Stepped(t: seq<Node>, top: nat, s: Step): seq<Node>
    requires top < |t|
  {
    t[top := t[top].(steps := t[top].steps + [s])]
  }

  ghost predicate CanStep(t: seq<Node>, path: seq<nat>) {
    WellFormed(t) && OpenPath(t, path) && OpenedInTime(t) && path != []
  }

  // Two forests of the same shape whose frames differ only on `path`, a set of frames
  // that contains every ancestor of its members.
  ghost predicate SameOff(t: seq<Node>, t': seq<Node>, path: seq<nat>) {
    && WellFormed(t) && WellFormed(t') && |t| == |t'|
    && (forall c :: 0 <= c < |t| ==> t'[c].parent == t[c].parent)
    && (forall c :: 0 <= c < |t| && c !in path ==> t'[c] == t[c])
    && (forall c :: 0 <= c < |t| && t[c].parent.Some? && c in path ==> t[c].parent.value in path)
  }

  lemma {:induction false} WeaveOffPath(t: seq<Node>, t': seq<Node>, path: seq<nat>, id: nat)
    requires SameOff(t, t', path) && id < |t| && id !in path
    ensures Weave(t', id) == Weave(t, id)
    decreases |t| - id, 2, 0
  {
    var m := |t[id].steps|;
    WeaveStepsOffPath(t, t', path, id, m);
    WeaveKidsOffPath(t, t', path, id, m, |t|);
  }

  lemma {:induction false} WeaveStepsOffPath(t: seq<Node>, t': seq<Node>, path: seq<nat>, id: nat, n: nat)
    requires SameOff(t, t', path) && id < |t| && n <= |t[id].steps| && id !in path
    ensures WeaveSteps(t', id, n) == WeaveSteps(t, id, n)
    decreases |t| - id, 1, n
  {
    if n > 0 {
      WeaveStepsOffPath(t, t', path, id, n - 1);
      WeaveKidsOffPath(t, t', path, id, n - 1, |t|);
    }
  }

  lemma {:induction false} WeaveKidsOffPath(t: seq<Node>, t': seq<Node>, path: seq<nat>, id: nat, slot: nat, hi: nat)
    requires SameOff(t, t', path) && id < |t| && hi <= |t| && id !in path
    ensures WeaveKids(t', id, slot, hi) == WeaveKids(t, id, slot, hi)
    decreases |t| - id, 0, hi
  {
    if hi > id + 1 {
      var c := hi - 1;
      WeaveKidsOffPath(t, t', path, id, slot, c);
      if t[c].parent == Some(id) {
        assert c !in path;
        assert HangsAt(t', c, id, slot) == HangsAt(t, c, id, slot);
        WeaveOffPath(t, t', path, c);
      }
    }
  }

  lemma {:induction false} SteppedSameOff(t: seq<Node>, path: seq<nat>, s: Step)
    requires CanStep(t, path)
    ensures SameOff(t, Stepped(t, path[|path| - 1], s), path)
  {
    forall c | 0 <= c < |t| && t[c].parent.Some? && c in path
      ensures t[c].parent.value in path
    {
      var i :| 0 <= i < |path| && path[i] == c;
      assert Suspended(t, path[i - 1], path[i]);
      assert path[i - 1] in path;
    }
  }

  // The only child of an open frame that is itself open is the one it waits for.
  lemma {:induction false} OpenKid(t: seq<Node>, path: seq<nat>, j: nat, c: nat)
    requires OpenPath(t, path) && j < |path| && c < |t| && t[c].parent == Some(path[j])
    ensures c in path ==> j + 1 < |path| && c == path[j + 1] && t[c].parentStep == Some(|t[path[j]].steps|)
  {
    if c in path {
      var i :| 0 <= i < |path| && path[i] == c;
      assert i > 0 && Suspended(t, path[i - 1], path[i]);
      assert path[i - 1] == path[j];
    }
  }

  // Children that are not open contribute the same before and after the step.
  lemma {:induction false} WeaveSettledKids( t: seq<Node>, t': seq<Node>, path: seq<nat>, p: nat, slot: nat, hi: nat)
    requires SameOff(t, t', path) && p < |t| && hi <= |t|
    requires forall c :: p < c < hi && (HangsAt(t, c, p, slot) || HangsAt(t', c, p, slot)) ==>
      c !in path && HangsAt(t, c, p, slot) && HangsAt(t', c, p, slot)
    ensures WeaveKids(t', p, slot, hi) == WeaveKids(t, p, slot, hi)
    decreases hi
  {
    if hi > p + 1 {
      var c := hi - 1;
      WeaveSettledKids(t, t', path, p, slot, c);
      if HangsAt(t, c, p, slot) {
        WeaveOffPath(t, t', path, c);
      }
      assert HangsAt(t', c, p, slot) == HangsAt(t, c, p, slot);
    }
  }

  lemma {:induction false} EarlyKidsSettled(t: seq<Node>, path: seq<nat>, s: Step, j: nat, slot: nat, hi: nat)
    requires CanStep(t, path) && j < |path| && hi <= |t|
    requires slot < |t[path[j]].steps| || (slot == |t[path[j]].steps| && (j == |path| - 1 || hi <= path[j + 1]))
    ensures WeaveKids(Stepped(t, path[|path| - 1], s), path[j], slot, hi) == WeaveKids(t, path[j], slot, hi)
  {
    var p, t' := path[j], Stepped(t, path[|path| - 1], s);
    SteppedSameOff(t, path, s);
    forall c | p < c < hi && (HangsAt(t, c, p, slot) || HangsAt(t', c, p, slot))
      ensures c !in path && HangsAt(t, c, p, slot) && HangsAt(t', c, p, slot)
    {
      OpenKid(t, path, j, c);
      assert InTime(t, c);
    }
    WeaveSettledKids(t, t', path, p, slot, hi);
  }

  // Before its current step, an open frame's interleaving is settled.
  lemma {:induction false} WeaveStepsOnPath(t: seq<Node>, path: seq<nat>, s: Step, j: nat, n: nat)
    requires CanStep(t, path) && j < |path| && n <= |t[path[j]].steps|
    ensures WeaveSteps(Stepped(t, path[|path| - 1], s), path[j], n) == WeaveSteps(t, path[j], n)
  {
    if n > 0 {
      WeaveStepsOnPath(t, path, s, j, n - 1);
      EarlyKidsSettled(t, path, s, j, n - 1, |t|);
    }
  }

  lemma {:induction false} NoKids(t: seq<Node>, p: nat, slot: nat, lo: nat, hi: nat)
    requires WellFormed(t) && p < lo <= hi <= |t|
    requires forall c :: lo <= c < hi ==> !HangsAt(t, c, p, slot)
    ensures WeaveKids(t, p, slot, hi) == WeaveKids(t, p, slot, lo)
    decreases hi
  {
    if hi > lo {
      NoKids(t, p, slot, lo, hi - 1);
    }
  }

  lemma {:induction false} WeaveInnermost(t: seq<Node>, path: seq<nat>, s: Step)
    requires CanStep(t, path)
    ensures var top := path[|path| - 1];
      Weave(Stepped(t, top, s), top) == Weave(t, top) + [(top, s)]
  {
    var j := |path| - 1;
    var top := path[j];
    var t', m := Stepped(t, top, s), |t[top].steps|;
    var end := m + 1;
    WeaveStepsOnPath(t, path, s, j, m);
    EarlyKidsSettled(t, path, s, j, m, |t|);
    forall c | top < c < |t'| ensures !HangsAt(t', c, top, end) {
      assert InTime(t, c);
    }
    NoKids(t', top, end, top + 1, |t|);
    assert WeaveSteps(t', top, m + 1) == WeaveSteps(t', top, m) + WeaveKids(t', top, m, |t|) + [(top, s)];
  }

  // An open frame's last child ends its interleaving.
  lemma {:induction false} WeaveLastKid(t: seq<Node>, p: nat, c: nat)
    requires WellFormed(t) && p < c < |t| && Suspended(t, p, c)
    ensures Weave(t, p) == WeaveSteps(t, p, |t[p].steps|) + WeaveKids(t, p, |t[p].steps|, c) + Weave(t, c)
  {
    var m := |t[p].steps|;
    NoKids(t, p, m, c + 1, |t|);
    assert HangsAt(t, c, p, m);
    assert WeaveKids(t, p, m, c + 1) == WeaveKids(t, p, m, c) + Weave(t, c);
  }

  lemma {:induction false} WeaveOnPath(t: seq<Node>, path: seq<nat>, s: Step, j: nat)
    requires CanStep(t, path) && j < |path|
    ensures var top := path[|path| - 1];
      Weave(Stepped(t, top, s), path[j]) == Weave(t, path[j]) + [(top, s)]
    decreases |path| - j
  {
    if j == |path| - 1 {
      WeaveInnermost(t, path, s);
    } else {
      var p, c, top := path[j], path[j + 1], path[|path| - 1];
      var t', m := Stepped(t, top, s), |t[p].steps|;
      assert Suspended(t, p, c) && Suspended(t', p, c);
      WeaveOnPath(t, path, s, j + 1);
      WeaveStepsOnPath(t, path, s, j, m);
      EarlyKidsSettled(t, path, s, j, m, c);
      WeaveLastKid(t, p, c);
      WeaveLastKid(t', p, c);
    }
  }

  ghost predicate SameWeave(t: seq<Node>, t': seq<Node>, c: nat)
    requires WellFormed(t) && WellFormed(t') && c < |t| == |t'|
  {
    t'[c].parent == t[c].parent && Weave(t', c) == Weave(t, c)
  }

  lemma {:induction false} WeaveTopsSame(t: seq<Node>, t': seq<Node>, hi: nat)
    requires WellFormed(t) && WellFormed(t') && hi <= |t| == |t'|
    requires forall c {:trigger SameWeave(t, t', c)} :: 0 <= c < hi ==> SameWeave(t, t', c)
    ensures WeaveTops(t', hi) == WeaveTops(t, hi)
  {
    if hi > 0 {
      var c := hi - 1;
      WeaveTopsSame(t, t', c);
      assert SameWeave(t, t', c);
    }
  }

  lemma {:induction false} WeaveTopsPast(t: seq<Node>, lo: nat, hi: nat)
    requires WellFormed(t) && lo <= hi <= |t| && forall c :: lo <= c < hi ==> t[c].parent != None
    ensures WeaveTops(t, hi) == WeaveTops(t, lo)
  {
    if hi > lo {
      WeaveTopsPast(t, lo, hi - 1);
    }
  }

  // The last top-level frame ends the interleaving of the whole forest.
  lemma {:induction false} WeaveLastTop(t: seq<Node>, root: nat)
    requires WellFormed(t) && root < |t| && t[root].parent == None
    requires forall c :: root < c < |t| ==> t[c].parent != None
    ensures WeaveTops(t, |t|) == WeaveTops(t, root) + Weave(t, root)
  {
    WeaveTopsPast(t, root + 1, |t|);
    assert WeaveTops(t, root + 1) == WeaveTops(t, root) + Weave(t, root);
  }

  // The trees before the open one stay as they are.
  lemma {:induction false} EarlierTopsStay(t: seq<Node>, path: seq<nat>, s: Step)
    requires CanStep(t, path)
    ensures WeaveTops(Stepped(t, path[|path| - 1], s), path[0]) == WeaveTops(t, path[0])
  {
    var t' := Stepped(t, path[|path| - 1], s);
    SteppedSameOff(t, path, s);
    forall c | 0 <= c < path[0] ensures SameWeave(t, t', c) {
      assert c !in path;
      WeaveOffPath(t, t', path, c);
    }
    WeaveTopsSame(t, t', path[0]);
  }

  lemma {:induction false} WeaveTopsAfterStep(t: seq<Node>, path: seq<nat>, s: Step)
    requires CanStep(t, path)
    ensures var top := path[|path| - 1];
      WeaveTops(Stepped(t, top, s), |t|) == WeaveTops(t, |t|) + [(top, s)]
  {
    var root, t' := path[0], Stepped(t, path[|path| - 1], s);
    EarlierTopsStay(t, path, s);
    WeaveOnPath(t, path, s, 0);
    WeaveLastTop(t, root);
    WeaveLastTop(t', root);
    assert WeaveTops(t, root) + Weave(t', root) == WeaveTops(t, |t|) + [(path[|path| - 1], s)];
  }
}
