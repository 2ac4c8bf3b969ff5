// When the synthetic return value of a recording is written (src/tracer.rs), told from the function table
// alone: down a chain of tail calls, none of which an earlier call of the chain's frames already enters.
module SyntheticValue {
  import opened Common
  import opened Expressions
  import opened WhileLoops
  import opened SourceWalk
  import opened WalkProofs
  import opened SyntheticWalk

  // A frame that has made the first `before` items of its plan and now makes a call.
  datatype Open = Open(name: string, before: nat)

  function NamesOf(chain: seq<Open>): set<string> {
    set i | 0 <= i < |chain| :: chain[i].name
  }

  function PlanOf(c: Program, name: string): seq<Item>
    requires WellFormed(c)
  {
    match Find(c.table, name)
    case None => []
    case Some(f) => Plan(f)
  }

  // The calls frame `j` of the chain made before its call of the next one.
  function EarlierCalls(c: Program, chain: seq<Open>, j: nat): set<string>
    requires WellFormed(c) && j < |chain|
  {
    var plan := PlanOf(c, chain[j].name);
    if chain[j].before <= |plan| then CalleesIn(plan[..chain[j].before]) else {}
  }

  // An earlier call of frame `j` reaches `x`, through functions that are not open at that call.
  ghost predicate EnteredFrom(c: Program, chain: seq<Open>, j: nat, x: string)
    requires WellFormed(c)
  {
    j < |chain| && exists m :: m in EarlierCalls(c, chain, j) && ReachesAvoiding(c, m, x, NamesOf(chain[..j + 1]))
  }

  ghost predicate IsEntered(c: Program, chain: seq<Open>, x: string)
    requires WellFormed(c)
  {
    x in NamesOf(chain) || exists j: nat :: EnteredFrom(c, chain, j, x)
  }

  // Every name the program defines or calls.
  function Mentioned(c: Program): set<string>
    requires WellFormed(c)
  {
    Names(c) + set f, m | f in c.table && m in CalleesIn(PlanIn(c, f)) :: m
  }

  function PlanIn(c: Program, f: FunctionEntry): seq<Item>
    requires WellFormed(c) && f in c.table
  {
    Plan(f)
  }

  // The functions entered before the last frame of the chain makes its call.
  ghost function Entered(c: Program, chain: seq<Open>): set<string>
    requires WellFormed(c)
  {
    set x | x in Mentioned(c) + NamesOf(chain) && IsEntered(c, chain, x)
  }

  // The call a function makes last into one not entered when its frame opens, if any.
  ghost function TailOf(c: Program, chain: seq<Open>, f: FunctionEntry): Option<(nat, nat)>
    requires WellFormed(c)
  {
    TailCall(f, Entered(c, chain) + {f.bareName}, |f.lines|)
  }

  // `name` opens after the chain for the first time.
  ghost predicate OpensFirst(c: Program, chain: seq<Open>, name: string)
    requires WellFormed(c)
  {
    name !in Entered(c, chain) && Find(c.table, name).Some?
  }

  // Frame `i` opens for the first time, has no step after its tail call, and that call is of `next`.
  ghost predicate Hands(c: Program, chain: seq<Open>, i: nat, next: string)
    requires WellFormed(c) && i < |chain|
  {
    && OpensFirst(c, chain[..i], chain[i].name)
    && var f := Find(c.table, chain[i].name).value;
       var tail := TailOf(c, chain[..i], f);
       && !HasPostStep(f, tail)
       && AtTail(Plan(f), tail, chain[i].before)
       && Plan(f)[chain[i].before].callee == next
  }

  // `last` opens after the chain for the first time and has a step after its tail call.
  ghost predicate Keeps(c: Program, chain: seq<Open>, last: string)
    requires WellFormed(c)
  {
    OpensFirst(c, chain, last) && var f := Find(c.table, last).value; HasPostStep(f, TailOf(c, chain, f))
  }

  function NameAt(chain: seq<Open>, last: string, i: nat): string
    requires i <= |chain|
  {
    if i < |chain| then chain[i].name else last
  }

  ghost predicate AllHand(c: Program, chain: seq<Open>, last: string)
    requires WellFormed(c)
  {
    forall i: nat {:trigger HandsOn(c, chain, last, i)} :: i < |chain| ==> HandsOn(c, chain, last, i)
  }

  ghost predicate HandsOn(c: Program, chain: seq<Open>, last: string, i: nat)
    requires WellFormed(c)
  {
    i < |chain| && Hands(c, chain, i, NameAt(chain, last, i + 1))
  }

  // A chain of tail calls from `root` ends at a function that keeps the value.
  ghost predicate Delivers(c: Program, root: string, chain: seq<Open>, last: string)
    requires WellFormed(c)
  {
    NameAt(chain, last, 0) == root && AllHand(c, chain, last) && Keeps(c, chain, last)
  }

  ghost predicate Delivered(c: Program, root: string)
    requires WellFormed(c)
  {
    exists chain, last :: Delivers(c, root, chain, last)
  }

  // ---- What is entered, by reachability -------------------------------------------------

  lemma {:induction false} EnteredIsMentioned(c: Program, chain: seq<Open>, x: string)
    requires WellFormed(c) && IsEntered(c, chain, x)
    ensures x in Mentioned(c) + NamesOf(chain)
  {
    if x !in NamesOf(chain) {
      var j: nat :| EnteredFrom(c, chain, j, x);
      var m :| m in EarlierCalls(c, chain, j) && ReachesAvoiding(c, m, x, NamesOf(chain[..j + 1]));
      CalleeIsMentioned(c, chain[j].name, m);
      var path :| PathAvoiding(c, path, m, x, NamesOf(chain[..j + 1]));
      if |path| > 1 {
        assert EdgeAt(c, path, |path| - 2);
        CalleeIsMentioned(c, path[|path| - 2], x);
      }
    }
  }

  lemma {:induction false} CalleeIsMentioned(c: Program, name: string, m: string)
    requires WellFormed(c) && m in CalleesIn(PlanOf(c, name))
    ensures m in Mentioned(c)
  {
    var f := Find(c.table, name).value;
    assert f in c.table && m in CalleesIn(PlanIn(c, f));
  }

  lemma {:induction false} EnteredIff(c: Program, chain: seq<Open>, x: string)
    requires WellFormed(c)
    ensures x in Entered(c, chain) <==> IsEntered(c, chain, x)
  {
    if IsEntered(c, chain, x) {
      EnteredIsMentioned(c, chain, x);
    }
  }

  lemma {:induction false} EnteredFromEarlier(c: Program, chain: seq<Open>, o: Open, j: nat, x: string)
    requires WellFormed(c) && j < |chain|
    ensures EnteredFrom(c, chain + [o], j, x) <==> EnteredFrom(c, chain, j, x)
  {
    assert (chain + [o])[..j + 1] == chain[..j + 1];
    assert EarlierCalls(c, chain + [o], j) == EarlierCalls(c, chain, j);
  }

  lemma {:induction false} NamesOfMore(chain: seq<Open>, o: Open)
    ensures NamesOf(chain + [o]) == NamesOf(chain) + {o.name}
  {
    var longer := chain + [o];
    forall x | x in NamesOf(chain) + {o.name} ensures x in NamesOf(longer) {
      if x in NamesOf(chain) {
        var i :| 0 <= i < |chain| && chain[i].name == x;
        assert longer[i].name == x;
      } else {
        assert longer[|chain|].name == x;
      }
    }
  }

  // Opening one more frame adds its name, and what its own earlier calls reach past the open frames.
  lemma {:induction false} EnteredMore(c: Program, chain: seq<Open>, o: Open, x: string)
    requires WellFormed(c)
    ensures IsEntered(c, chain + [o], x) <==>
      IsEntered(c, chain, x) || x == o.name || EnteredFrom(c, chain + [o], |chain|, x)
  {
    NamesOfMore(chain, o);
    EnteredStays(c, chain, o, x);
    EnteredBefore(c, chain, o, x);
  }

  lemma {:induction false} EnteredStays(c: Program, chain: seq<Open>, o: Open, x: string)
    requires WellFormed(c)
    ensures IsEntered(c, chain, x) ==> IsEntered(c, chain + [o], x)
  {
    NamesOfMore(chain, o);
    if IsEntered(c, chain, x) && x !in NamesOf(chain) {
      var j: nat :| EnteredFrom(c, chain, j, x);
      EnteredFromEarlier(c, chain, o, j, x);
    }
  }

  lemma {:induction false} EnteredBefore(c: Program, chain: seq<Open>, o: Open, x: string)
    requires WellFormed(c)
    ensures IsEntered(c, chain + [o], x) ==>
      IsEntered(c, chain, x) || x == o.name || EnteredFrom(c, chain + [o], |chain|, x)
  {
    var longer := chain + [o];
    NamesOfMore(chain, o);
    if IsEntered(c, longer, x) && x !in NamesOf(longer) {
      var j: nat :| EnteredFrom(c, longer, j, x);
      if j < |chain| {
        EnteredFromEarlier(c, chain, o, j, x);
      }
    }
  }

  // Past an entered function the chain's open frames do not bar, everything is entered.
  lemma {:induction false} EnteredOnward(c: Program, chain: seq<Open>, avoid: set<string>, path: seq<string>, m: string,
          x: string, i: nat)
    requires WellFormed(c) && NamesOf(chain) <= avoid && PathAvoiding(c, path, m, x, avoid)
    requires i < |path| && IsEntered(c, chain, path[i])
    ensures IsEntered(c, chain, x)
  {
    var j: nat :| EnteredFrom(c, chain, j, path[i]);
    var open := NamesOf(chain[..j + 1]);
    var start :| start in EarlierCalls(c, chain, j) && ReachesAvoiding(c, start, path[i], open);
    forall n | n in open ensures n in avoid {
      var k :| 0 <= k < |chain[..j + 1]| && chain[..j + 1][k].name == n;
      assert chain[k].name == n;
    }
    PathFrom(c, path, m, x, avoid, i);
    AvoidsLess(c, path[i], x, avoid, open);
    ReachesThrough(c, start, path[i], x, open);
    assert EnteredFrom(c, chain, j, x);
  }

  lemma {:induction false} PathFrom(c: Program, path: seq<string>, m: string, x: string, avoid: set<string>, i: nat)
    requires WellFormed(c) && PathAvoiding(c, path, m, x, avoid) && i < |path|
    ensures ReachesAvoiding(c, path[i], x, avoid)
  {
    var rest := path[i..];
    forall k: nat | k < |rest| - 1 ensures EdgeAt(c, rest, k) {
      assert EdgeAt(c, path, i + k);
    }
    assert PathAvoiding(c, rest, path[i], x, avoid);
  }

  lemma {:induction false} ReachesThrough(c: Program, a: string, b: string, d: string, avoid: set<string>)
    requires WellFormed(c) && ReachesAvoiding(c, a, b, avoid) && ReachesAvoiding(c, b, d, avoid)
    ensures ReachesAvoiding(c, a, d, avoid)
  {
    var p :| PathAvoiding(c, p, a, b, avoid);
    var q :| PathAvoiding(c, q, b, d, avoid);
    var path := p + q[1..];
    forall i: nat | i < |path| - 1 ensures EdgeAt(c, path, i) {
      if i < |p| - 1 {
        assert EdgeAt(c, p, i);
      } else {
        assert EdgeAt(c, q, i - (|p| - 1));
      }
    }
    assert path[|path| - 1] == d;
    assert PathAvoiding(c, path, a, d, avoid);
  }

  // The walk's visited set at a call is what the chain of open frames says is entered.
  lemma {:induction false} WalkEnters(c: Program, chain: seq<Open>, name: string, k: nat, tail: Option<(nat, nat)>,
          handed: Option<i64>)
    requires WellFormed(c) && k <= |PlanOf(c, name)|
    ensures WalkItems(c, PlanOf(c, name)[..k], Entered(c, chain) + {name}, tail, handed).visited
         == Entered(c, chain + [Open(name, k)])
  {
    var v := WalkItems(c, PlanOf(c, name)[..k], Entered(c, chain) + {name}, tail, handed).visited;
    forall x ensures x in v <==> x in Entered(c, chain + [Open(name, k)]) {
      EnteredHere(c, chain, name, k, tail, handed, x);
    }
  }

  lemma {:induction false} EnteredHere(c: Program, chain: seq<Open>, name: string, k: nat, tail: Option<(nat, nat)>,
          handed: Option<i64>, x: string)
    requires WellFormed(c) && k <= |PlanOf(c, name)|
    ensures x in WalkItems(c, PlanOf(c, name)[..k], Entered(c, chain) + {name}, tail, handed).visited
       <==> x in Entered(c, chain + [Open(name, k)])
  {
    var o := Open(name, k);
    var items, visited, open := PlanOf(c, name)[..k], Entered(c, chain) + {name}, NamesOf(chain) + {name};
    ItemsVisit(c, items, visited, tail, handed, x);
    EnteredIff(c, chain + [o], x);
    EnteredIff(c, chain, x);
    EnteredMore(c, chain, o, x);
    LastEntered(c, chain, o, x);
    OpenAreVisited(c, chain);
    if m :| m in CalleesIn(items) && ReachesAvoiding(c, m, x, visited) {
      AvoidsLess(c, m, x, visited, open);
    }
    if m :| m in CalleesIn(items) && ReachesAvoiding(c, m, x, open) {
      PastVisited(c, chain, open, m, x);
      assert visited == Entered(c, chain) + open;
    }
  }

  lemma {:induction false} LastEntered(c: Program, chain: seq<Open>, o: Open, x: string)
    requires WellFormed(c) && o.before <= |PlanOf(c, o.name)|
    ensures EnteredFrom(c, chain + [o], |chain|, x) <==>
      exists m :: m in CalleesIn(PlanOf(c, o.name)[..o.before]) && ReachesAvoiding(c, m, x, NamesOf(chain) + {o.name})
  {
    NamesOfMore(chain, o);
    assert (chain + [o])[..|chain| + 1] == chain + [o];
    assert EarlierCalls(c, chain + [o], |chain|) == CalleesIn(PlanOf(c, o.name)[..o.before]);
  }

  lemma {:induction false} OpenAreVisited(c: Program, chain: seq<Open>)
    requires WellFormed(c)
    ensures NamesOf(chain) <= Entered(c, chain)
  {
    forall x | x in NamesOf(chain) ensures x in Entered(c, chain) {
      EnteredIff(c, chain, x);
    }
  }

  // A path past the open frames either avoids everything entered, or leads to what is entered already.
  lemma {:induction false} PastVisited(c: Program, chain: seq<Open>, open: set<string>, m: string, x: string)
    requires WellFormed(c) && NamesOf(chain) <= open && ReachesAvoiding(c, m, x, open)
    ensures x in Entered(c, chain) || ReachesAvoiding(c, m, x, Entered(c, chain) + open)
  {
    var path :| PathAvoiding(c, path, m, x, open);
    if i :| 0 <= i < |path| && path[i] in Entered(c, chain) {
      EnteredIff(c, chain, path[i]);
      EnteredOnward(c, chain, open, path, m, x, i);
      EnteredIff(c, chain, x);
    } else {
      assert PathAvoiding(c, path, m, x, Entered(c, chain) + open);
    }
  }

  // ---- The chain and the walk agree -----------------------------------------------------

  lemma {:induction false} CarriedByChain(c: Program, chain: seq<Open>, name: string)
    returns (longer: seq<Open>, last: string)
    requires WellFormed(c) && Carried(c, name, Entered(c, chain)) && AllHand(c, chain, name)
    ensures Delivers(c, NameAt(chain, name, 0), longer, last)
    decreases Names(c) - Entered(c, chain)
  {
    var visited := Entered(c, chain);
    var f := Find(c.table, name).value;
    assert f.bareName in Names(c);
    var tail := TailOf(c, chain, f);
    CarriedUnfolds(c, name, visited);
    if HasPostStep(f, tail) {
      longer, last := chain, name;
    } else {
      var k: nat :| HandedOn(c, Plan(f), visited + {name}, tail, k);
      var next := Plan(f)[k].callee;
      var more := chain + [Open(name, k)];
      WalkEnters(c, chain, name, k, tail, None);
      HandedUnfolds(c, Plan(f), visited + {name}, tail, k);
      assert visited + {name} <= Entered(c, more);
      HandsMore(c, chain, name, k, next);
      longer, last := CarriedByChain(c, more, next);
    }
  }

  lemma {:induction false} HandedUnfolds(c: Program, items: seq<Item>, visited: set<string>, tail: Option<(nat, nat)>,
          k: nat)
    requires WellFormed(c)
    ensures HandedOn(c, items, visited, tail, k) <==>
      AtTail(items, tail, k) && Carried(c, items[k].callee, WalkItems(c, items[..k], visited, tail, None).visited)
  {
  }

  lemma {:induction false} HandsMore(c: Program, chain: seq<Open>, name: string, k: nat, next: string)
    requires WellFormed(c) && AllHand(c, chain, name) && OpensFirst(c, chain, name)
    requires var f := Find(c.table, name).value; var tail := TailOf(c, chain, f);
      !HasPostStep(f, tail) && AtTail(Plan(f), tail, k) && Plan(f)[k].callee == next
    ensures AllHand(c, chain + [Open(name, k)], next)
  {
    var more := chain + [Open(name, k)];
    forall i: nat | i < |more| ensures HandsOn(c, more, next, i) {
      assert more[..i] == chain[..i];
      if i < |chain| {
        assert HandsOn(c, chain, name, i);
        assert NameAt(more, next, i + 1) == NameAt(chain, name, i + 1);
      } else {
        assert chain[..i] == chain;
      }
    }
  }

  lemma {:induction false} ChainCarries(c: Program, chain: seq<Open>, last: string, i: nat)
    requires WellFormed(c) && i <= |chain| && AllHand(c, chain, last) && Keeps(c, chain, last)
    ensures Carried(c, NameAt(chain, last, i), Entered(c, chain[..i]))
    decreases |chain| - i
  {
    var name := NameAt(chain, last, i);
    if i == |chain| {
      assert chain[..i] == chain;
      LastCarries(c, chain, last);
    } else {
      assert HandsOn(c, chain, last, i);
      ChainCarries(c, chain, last, i + 1);
      assert chain[..i + 1] == chain[..i] + [Open(name, chain[i].before)];
      LinkCarries(c, chain[..i], name, chain[i].before, NameAt(chain, last, i + 1));
    }
  }

  // A frame that keeps the value writes it.
  lemma {:induction false} LastCarries(c: Program, chain: seq<Open>, last: string)
    requires WellFormed(c) && Keeps(c, chain, last)
    ensures Carried(c, last, Entered(c, chain))
  {
    CarriedUnfolds(c, last, Entered(c, chain));
  }

  // A frame that hands the value on to a call that writes it.
  lemma {:induction false} LinkCarries(c: Program, before: seq<Open>, name: string, k: nat, next: string)
    requires WellFormed(c) && OpensFirst(c, before, name) && Carried(c, next, Entered(c, before + [Open(name, k)]))
    requires var f := Find(c.table, name).value; var tail := TailOf(c, before, f);
      !HasPostStep(f, tail) && AtTail(Plan(f), tail, k) && Plan(f)[k].callee == next
    ensures Carried(c, name, Entered(c, before))
  {
    var f := Find(c.table, name).value;
    var visited, tail := Entered(c, before), TailOf(c, before, f);
    WalkEnters(c, before, name, k, tail, None);
    HandedUnfolds(c, Plan(f), visited + {name}, tail, k);
    CarriedUnfolds(c, name, visited);
  }

  lemma {:induction false} NothingEntered(c: Program)
    requires WellFormed(c)
    ensures Entered(c, []) == {}
  {
  }

  // The value is written, once, exactly when a chain of tail calls from the root delivers it: each function
  // of the chain is in the table and no earlier call of the frames before it reaches it past the frames
  // open there, each but the last has no step after its tail call, and the last has one.
  lemma {:induction false} WrittenIff(c: Program, root: string, v: i64)
    requires WellFormed(c)
    ensures Synthetics(WalkFn(c, root, {}, Some(v)).events) == if Delivered(c, root) then 1 else 0
  {
    CarriedIff(c, root, {}, v);
    NothingEntered(c);
    if Carried(c, root, {}) {
      var chain, last := CarriedByChain(c, [], root);
      assert Delivers(c, root, chain, last);
    }
    if Delivered(c, root) {
      var chain, last :| Delivers(c, root, chain, last);
      ChainCarries(c, chain, last, 0);
      assert chain[..0] == [];
    }
  }

  // ---- The value can be lost ------------------------------------------------------------

  ghost predicate CalledBefore(items: seq<Item>, k: nat)
    requires k < |items| && items[k].Visit?
  {
    exists j: nat :: j < k && items[j].Visit? && items[j].callee == items[k].callee
  }

  // A frame without a step after its tail call loses the value when an earlier call of its own body
  // already enters the function it hands the value to.
  lemma {:induction false} LostWhenCalledBefore(c: Program, root: string, v: i64)
    requires WellFormed(c) && Find(c.table, root).Some?
    requires var f := Find(c.table, root).value; var tail := TailCall(f, {root}, |f.lines|);
      !HasPostStep(f, tail) && forall k: nat :: AtTail(Plan(f), tail, k) ==> CalledBefore(Plan(f), k)
    ensures Synthetics(WalkFn(c, root, {}, Some(v)).events) == 0
  {
    WrittenIff(c, root, v);
    NothingEntered(c);
    var f := Find(c.table, root).value;
    assert {} + {root} == {root};
    forall chain, last ensures !Delivers(c, root, chain, last) {
      NotDelivered(c, f, root, chain, last);
    }
  }

  lemma {:induction false} NotDelivered(c: Program, f: FunctionEntry, root: string, chain: seq<Open>, last: string)
    requires WellFormed(c) && Find(c.table, root) == Some(f)
    requires var tail := TailOf(c, [], f);
      !HasPostStep(f, tail) && forall k: nat :: AtTail(Plan(f), tail, k) ==> CalledBefore(Plan(f), k)
    ensures !Delivers(c, root, chain, last)
  {
    if chain != [] && Delivers(c, root, chain, last) {
      assert HandsOn(c, chain, last, 0);
      NextOpensFirst(c, chain, last);
      NextIsEntered(c, f, chain, NameAt(chain, last, 1));
    }
  }

  lemma {:induction false} NextOpensFirst(c: Program, chain: seq<Open>, last: string)
    requires WellFormed(c) && chain != [] && AllHand(c, chain, last) && Keeps(c, chain, last)
    ensures NameAt(chain, last, 1) !in Entered(c, chain[..1])
  {
    if |chain| > 1 {
      assert HandsOn(c, chain, last, 1);
    } else {
      assert chain[..1] == chain;
    }
  }

  lemma {:induction false} NextIsEntered(c: Program, f: FunctionEntry, chain: seq<Open>, next: string)
    requires WellFormed(c) && chain != [] && Hands(c, chain, 0, next) && Find(c.table, chain[0].name) == Some(f)
    requires CalledBefore(Plan(f), chain[0].before)
    ensures next in Entered(c, chain[..1])
  {
    var k := chain[0].before;
    var j: nat :| j < k && Plan(f)[j].Visit? && Plan(f)[j].callee == next;
    assert Plan(f)[..k][j] == Plan(f)[j];
    assert next in EarlierCalls(c, chain[..1], 0);
    EnteredByItself(c, chain[..1], next);
  }

  lemma {:induction false} EnteredByItself(c: Program, chain: seq<Open>, x: string)
    requires WellFormed(c) && |chain| == 1 && x in EarlierCalls(c, chain, 0)
    ensures x in Entered(c, chain)
  {
    EnteredIff(c, chain, x);
    assert chain[..1] == chain;
    if x !in NamesOf(chain) {
      ReachesSelf(c, x, NamesOf(chain));
      assert EnteredFrom(c, chain, 0, x);
    }
  }

  // `main` ends in a line that calls `helper` twice.
  const MAIN_LINE := SourceLine(false, [1], None, [], ["main"])
  const CALL_LINE := SourceLine(false, [5], None, [], ["helper", "helper"])
  const END_LINE := SourceLine(true, [], None, [], [])
  const HELPER_LINE := SourceLine(false, [1], None, [], ["helper"])
  const MAIN := FunctionEntry("main", "p::p::main", 1, [MAIN_LINE, CALL_LINE, END_LINE], [], [])
  const HELPER := FunctionEntry("helper", "p::p::helper", 4, [HELPER_LINE], [], [])

  lemma {:induction false} MainTail()
    ensures TailCall(MAIN, {"main"}, |MAIN.lines|) == Some((1, 1)) && !HasPostStep(MAIN, Some((1, 1)))
  {
    var f, visited := MAIN, {"main"};
    assert f.lines[2].callees == [] && f.lines[1].callees == ["helper", "helper"];
    assert LastRecursable(f, visited, f.lines[2].callees) == None;
    assert LastRecursable(f, visited, f.lines[1].callees) == Some(1);
    assert TailCall(f, visited, 2) == Some((1, 1));
  }

  lemma {:induction false} MainPlan()
    ensures WellFormedEntry(MAIN)
    ensures Plan(MAIN) ==
      [Emit(Step(1, Some(1))), Visit(0, 0, "main"),
       Emit(Step(2, Some(5))), Visit(1, 0, "helper"), Visit(1, 1, "helper")]
  {
    var f := MAIN;
    var env: Env := map[];
    assert forall k :: LoopRun(f, k, env) == None;
    assert PlanFrom(f, 3, env, false) == [];
    assert PlanFrom(f, 2, env, false) == PlanFrom(f, 3, env, false);
    assert LineEvents(f, 1, false) == [Step(2, Some(5))] && LineEvents(f, 0, true) == [Step(1, Some(1))];
    assert PlanFrom(f, 1, env, false) == [Emit(Step(2, Some(5))), Visit(1, 0, "helper"), Visit(1, 1, "helper")];
    assert PlanFrom(f, 0, env, true) ==
      Emits(LineEvents(f, 0, true)) + Visits(0, ["main"]) + PlanFrom(f, 1, env, false);
  }

  // So a program whose last expression is `helper() + helper()` writes no synthetic value at all.
  lemma {:induction false} SyntheticCanBeLost()
    ensures var c := SourceWalk.Program([MAIN, HELPER], map["main" := Some(7)]);
      WellFormed(c) && Synthetics(WalkFn(c, "main", {}, Some(7)).events) == 0
  {
    var c := SourceWalk.Program([MAIN, HELPER], map["main" := Some(7)]);
    MainPlan();
    MainTail();
    assert WellFormed(c) && Find(c.table, "main") == Some(MAIN);
    var items := Plan(MAIN);
    forall k: nat | AtTail(items, Some((1, 1)), k) ensures CalledBefore(items, k) {
      assert items[3].callee == items[k].callee && k == 4;
    }
    LostWhenCalledBefore(c, "main", 7);
  }
}
