// The synthetic return value followed along the walk (src/tracer.rs): which call writes it, by the visited
// set the walk has at that call.
module SyntheticWalk {
  import opened Common
  import opened Expressions
  import opened SourceWalk
  import opened WalkProofs

  // What is visited does not depend on the value handed down.
  lemma {:induction false} SameVisited(c: Program, name: string, visited: set<string>, p: Option<i64>, q: Option<i64>)
    requires WellFormed(c)
    ensures WalkFn(c, name, visited, p).visited == WalkFn(c, name, visited, q).visited
    decreases Names(c) - visited, 0
  {
    if name !in visited && Find(c.table, name).Some? {
      var f := Find(c.table, name).value;
      assert f.bareName in Names(c);
      var visited' := visited + {name};
      var tail := TailCall(f, visited', |f.lines|);
      var post := HasPostStep(f, tail);
      SameVisitedItems(c, Plan(f), visited', tail, if post then None else p, if post then None else q);
    }
  }

  lemma {:induction false} SameVisitedItems(c: Program, items: seq<Item>, visited: set<string>,
          tail: Option<(nat, nat)>, p: Option<i64>, q: Option<i64>)
    requires WellFormed(c)
    ensures WalkItems(c, items, visited, tail, p).visited == WalkItems(c, items, visited, tail, q).visited
    decreases Names(c) - visited, |items|
  {
    if items != [] {
      var n := |items| - 1;
      var w := WalkItems(c, items[..n], visited, tail, p);
      SameVisitedItems(c, items[..n], visited, tail, p, q);
      match items[n]
      case Emit(e) =>
      case Visit(offset, index, callee) =>
        assert Names(c) - w.visited == Names(c) - visited || Names(c) - w.visited < Names(c) - visited;
        var at := tail == Some((offset, index));
        SameVisited(c, callee, w.visited, if at then p else None, if at then q else None);
    }
  }

  predicate AtTail(items: seq<Item>, tail: Option<(nat, nat)>, k: nat) {
    k < |items| && items[k].Visit? && tail == Some((items[k].offset, items[k].index))
  }

  // A value handed to this call is written: the function is in the table and entered for the first time,
  // and its frame has a step after its tail call, or hands the value on to a call that writes it.
  ghost predicate Carried(c: Program, name: string, visited: set<string>)
    requires WellFormed(c)
    decreases Names(c) - visited, 0
  {
    && name !in visited && Find(c.table, name).Some?
    && var f := Find(c.table, name).value;
       assert f.bareName in Names(c);
       var visited' := visited + {name};
       var tail := TailCall(f, visited', |f.lines|);
       HasPostStep(f, tail) || SomeHandedOn(c, Plan(f), visited', tail)
  }

  ghost predicate SomeHandedOn(c: Program, items: seq<Item>, visited: set<string>, tail: Option<(nat, nat)>)
    requires WellFormed(c)
    decreases Names(c) - visited, 2
  {
    exists k: nat :: HandedOn(c, items, visited, tail, k)
  }

  ghost predicate HandedOn(c: Program, items: seq<Item>, visited: set<string>, tail: Option<(nat, nat)>, k: nat)
    requires WellFormed(c)
    decreases Names(c) - visited, 1
  {
    && AtTail(items, tail, k)
    && var before := WalkItems(c, items[..k], visited, tail, None).visited;
       assert Names(c) - before == Names(c) - visited || Names(c) - before < Names(c) - visited;
       Carried(c, items[k].callee, before)
  }

  lemma {:induction false} CarriedUnfolds(c: Program, name: string, visited: set<string>)
    requires WellFormed(c) && name !in visited && Find(c.table, name).Some?
    ensures var f := Find(c.table, name).value; var tail := TailCall(f, visited + {name}, |f.lines|);
      Carried(c, name, visited) <==> HasPostStep(f, tail) || SomeHandedOn(c, Plan(f), visited + {name}, tail)
  {
  }

  // The value is written once if its call writes it so, and not at all otherwise.
  lemma {:induction false} CarriedIff(c: Program, name: string, visited: set<string>, v: i64)
    requires WellFormed(c)
    ensures Synthetics(WalkFn(c, name, visited, Some(v)).events) == if Carried(c, name, visited) then 1 else 0
    decreases Names(c) - visited, 0
  {
    if name !in visited && Find(c.table, name).Some? {
      var f := Find(c.table, name).value;
      assert f.bareName in Names(c);
      var visited' := visited + {name};
      var tail := TailCall(f, visited', |f.lines|);
      CarriedUnfolds(c, name, visited);
      PlanQuiet(f, 0, map[], true);
      PlanPositions(f, 0, map[], true);
      TailOnce(Plan(f), tail, 0);
      ItemsCarriedIff(c, Plan(f), visited', tail, v);
      FrameCarried(c, f, visited', v);
    } else {
      assert WalkFn(c, name, visited, Some(v)).events == [];
    }
  }

  lemma {:induction false} FrameCarried(c: Program, f: FunctionEntry, visited: set<string>, v: i64)
    requires WellFormed(c) && WellFormedEntry(f) && QuietItems(Plan(f))
    ensures var tail := TailCall(f, visited, |f.lines|);
      var post := HasPostStep(f, tail);
      var body := WalkItems(c, Plan(f), visited, tail, if post then None else Some(v)).events;
      Synthetics(FrameEvents(c, f, body, if post then Some(v) else None)) == if post then 1 else Synthetics(body)
  {
    var tail := TailCall(f, visited, |f.lines|);
    var post := HasPostStep(f, tail);
    var handed := if post then None else Some(v);
    ItemsSynthetics(c, Plan(f), visited, tail, handed);
    FrameSynthetics(c, f, WalkItems(c, Plan(f), visited, tail, handed).events, if post then Some(v) else None, Some(v));
  }

  lemma {:induction false} ItemsCarriedIff(c: Program, items: seq<Item>, visited: set<string>, tail: Option<(nat, nat)>,
          v: i64)
    requires WellFormed(c) && QuietItems(items) && VisitsAt(items, tail) <= 1
    ensures Synthetics(WalkItems(c, items, visited, tail, Some(v)).events) ==
      if SomeHandedOn(c, items, visited, tail) then 1 else 0
    decreases Names(c) - visited, |items|
  {
    if items == [] {
      assert !SomeHandedOn(c, items, visited, tail);
    } else {
      var n := |items| - 1;
      ItemsCarriedIff(c, items[..n], visited, tail, v);
      SomeHandedOnSplit(c, items, visited, tail);
      if AtTail(items, tail, n) {
        var w := WalkItems(c, items[..n], visited, tail, Some(v));
        assert Names(c) - w.visited == Names(c) - visited || Names(c) - w.visited < Names(c) - visited;
        CarriedIff(c, items[n].callee, w.visited, v);
        TailVisit(c, items, visited, tail, v);
      } else {
        OtherItem(c, items, visited, tail, v);
      }
    }
  }

  // An item that is not the tail call writes no value.
  lemma {:induction false} OtherItem(c: Program, items: seq<Item>, visited: set<string>, tail: Option<(nat, nat)>,
          v: i64)
    requires WellFormed(c) && QuietItems(items) && items != [] && !AtTail(items, tail, |items| - 1)
    ensures Synthetics(WalkItems(c, items, visited, tail, Some(v)).events)
         == Synthetics(WalkItems(c, items[..|items| - 1], visited, tail, Some(v)).events)
  {
    var n := |items| - 1;
    var w := WalkItems(c, items[..n], visited, tail, Some(v));
    match items[n]
    case Emit(e) =>
      SyntheticsConcat(w.events, [e]);
      assert Synthetics([]) == 0;
    case Visit(offset, index, callee) =>
      WalkSynthetics(c, callee, w.visited, None);
      SyntheticsConcat(w.events, WalkFn(c, callee, w.visited, None).events);
  }

  // The tail call comes last: nothing before it was handed the value.
  lemma {:induction false} TailVisit(c: Program, items: seq<Item>, visited: set<string>, tail: Option<(nat, nat)>,
          v: i64)
    requires WellFormed(c) && items != [] && AtTail(items, tail, |items| - 1) && VisitsAt(items, tail) <= 1
    ensures var n := |items| - 1;
      var w := WalkItems(c, items[..n], visited, tail, Some(v));
      var s := WalkFn(c, items[n].callee, w.visited, Some(v));
      && !SomeHandedOn(c, items[..n], visited, tail)
      && (HandedOn(c, items, visited, tail, n) <==> Carried(c, items[n].callee, w.visited))
      && Synthetics(WalkItems(c, items, visited, tail, Some(v)).events) == Synthetics(w.events) + Synthetics(s.events)
  {
    var n := |items| - 1;
    var w := WalkItems(c, items[..n], visited, tail, Some(v));
    NoVisitBefore(items[..n], tail);
    SameVisitedItems(c, items[..n], visited, tail, Some(v), None);
    SyntheticsConcat(w.events, WalkFn(c, items[n].callee, w.visited, Some(v)).events);
  }

  lemma {:induction false} SomeHandedOnSplit(c: Program, items: seq<Item>, visited: set<string>,
          tail: Option<(nat, nat)>)
    requires WellFormed(c) && items != []
    ensures var n := |items| - 1;
      && (SomeHandedOn(c, items, visited, tail) <==>
           SomeHandedOn(c, items[..n], visited, tail) || HandedOn(c, items, visited, tail, n))
      && (HandedOn(c, items, visited, tail, n) ==> AtTail(items, tail, n))
  {
    var n := |items| - 1;
    EarlierHandedOn(c, items, visited, tail);
    forall k: nat ensures HandedOn(c, items[..n], visited, tail, k) ==> k < n {
      assert HandedOn(c, items[..n], visited, tail, k) ==> AtTail(items[..n], tail, k);
    }
  }

  // What is handed on before the last item is handed on by the items before it.
  lemma {:induction false} EarlierHandedOn(c: Program, items: seq<Item>, visited: set<string>, tail: Option<(nat, nat)>)
    requires WellFormed(c) && items != []
    ensures var n := |items| - 1;
      forall k: nat :: k < n ==> (HandedOn(c, items, visited, tail, k) <==> HandedOn(c, items[..n], visited, tail, k))
  {
    var n := |items| - 1;
    forall k: nat | k < n
      ensures HandedOn(c, items, visited, tail, k) <==> HandedOn(c, items[..n], visited, tail, k)
    {
      assert items[..n][..k] == items[..k];
    }
  }

  lemma {:induction false} NoVisitBefore(items: seq<Item>, tail: Option<(nat, nat)>)
    ensures VisitsAt(items, tail) == 0 ==> forall k: nat :: !AtTail(items, tail, k)
  {
    if items != [] {
      var n := |items| - 1;
      NoVisitBefore(items[..n], tail);
      if VisitsAt(items, tail) == 0 {
        forall k: nat ensures !AtTail(items, tail, k) {
          assert k < n ==> !AtTail(items[..n], tail, k);
        }
      }
    }
  }
}
