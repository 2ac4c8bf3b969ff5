// The locals' observed values and their spread over copy bindings (src/value_probe.rs,
// `observe_locals`): a fixpoint over the aliases `let x = y;`.
module CopyBindings {
  import opened Expressions

  datatype Decl = Decl(line: nat, col: nat)
  datatype Local = Local(name: string, value: i64)
  datatype Alias = Alias(target: Decl, targetName: string, source: Decl, sourceName: string)
  datatype Argument = Argument(func: nat, variable: nat, value: i64)

  type Known = map<Decl, Local>

  // ---- Observations ---------------------------------------------------------------------

  // A Sierra variable of a function, and what the debug info says of it: the local's name and place.
  type Variable = (nat, nat)
  datatype Declared = Declared(name: string, at: Decl)

  predicate Observes(names: map<Variable, Declared>, a: Argument, d: Decl) {
    (a.func, a.variable) in names && names[(a.func, a.variable)].at == d
  }

  // The first argument read for a declaration names it and gives its value.
  ghost predicate FirstAt(names: map<Variable, Declared>, args: seq<Argument>, n: nat, d: Decl, l: Local, i: nat)
    requires n <= |args|
  {
    && i < n && Observes(names, args[i], d)
    && l == Local(names[(args[i].func, args[i].variable)].name, args[i].value)
    && forall j :: 0 <= j < i ==> !Observes(names, args[j], d)
  }

  ghost predicate FirstObserved(names: map<Variable, Declared>, args: seq<Argument>, n: nat, byDecl: Known)
    requires n <= |args|
  {
    && (forall i, d :: 0 <= i < n && Observes(names, args[i], d) ==> d in byDecl)
    && (forall d :: d in byDecl ==> HasFirst(names, args, n, d, byDecl[d]))
  }

  ghost predicate HasFirst(names: map<Variable, Declared>, args: seq<Argument>, n: nat, d: Decl, l: Local)
    requires n <= |args|
  {
    exists i: nat :: FirstAt(names, args, n, d, l, i)
  }

  method Observe(names: map<Variable, Declared>, args: seq<Argument>) returns (byDecl: Known)
    ensures FirstObserved(names, args, |args|, byDecl)
  {
    byDecl := map[];
    for n := 0 to |args|
      invariant FirstObserved(names, args, n, byDecl)
    {
      var key := (args[n].func, args[n].variable);
      ghost var before := byDecl;
      if key in names {
        var d := names[key];
        if d.at !in byDecl {
          byDecl := byDecl[d.at := Local(d.name, args[n].value)];
          assert FirstAt(names, args, n + 1, d.at, byDecl[d.at], n);
        }
      }
      forall d | d in byDecl ensures HasFirst(names, args, n + 1, d, byDecl[d]) {
        if d in before {
          var i: nat :| FirstAt(names, args, n, d, before[d], i);
          assert FirstAt(names, args, n + 1, d, byDecl[d], i);
        }
      }
    }
  }

  // ---- Connection through aliases -------------------------------------------------------

  ghost predicate Joins(a: Alias, d: Decl, e: Decl) {
    (a.target == d && a.source == e) || (a.target == e && a.source == d)
  }

  ghost predicate Linked(aliases: seq<Alias>, d: Decl, e: Decl) {
    exists i :: 0 <= i < |aliases| && Joins(aliases[i], d, e)
  }

  ghost predicate Edge(aliases: seq<Alias>, p: seq<Decl>, i: nat) {
    i + 1 < |p| && Linked(aliases, p[i], p[i + 1])
  }

  ghost predicate Path(aliases: seq<Alias>, p: seq<Decl>, d: Decl, e: Decl) {
    && |p| >= 1 && p[0] == d && p[|p| - 1] == e
    && forall i: nat {:trigger Edge(aliases, p, i)} :: i < |p| - 1 ==> Edge(aliases, p, i)
  }

  ghost predicate Connected(aliases: seq<Alias>, d: Decl, e: Decl) {
    exists p :: Path(aliases, p, d, e)
  }

  lemma {:induction false} ConnectedToItself(aliases: seq<Alias>, d: Decl)
    ensures Connected(aliases, d, d)
  {
    assert Path(aliases, [d], d, d);
  }

  lemma {:induction false} ConnectedFurther(aliases: seq<Alias>, d: Decl, e: Decl, f: Decl)
    requires Connected(aliases, d, e) && Linked(aliases, e, f)
    ensures Connected(aliases, d, f)
  {
    var p :| Path(aliases, p, d, e);
    var q := p + [f];
    forall i: nat | i < |q| - 1 ensures Edge(aliases, q, i) {
      assert i < |p| - 1 ==> Edge(aliases, p, i);
    }
    assert Path(aliases, q, d, f);
  }

  // ---- The closure ----------------------------------------------------------------------

  ghost predicate ClosedAt(a: Alias, known: Known) {
    a.target in known <==> a.source in known
  }

  ghost predicate Closed(aliases: seq<Alias>, n: nat, known: Known)
    requires n <= |aliases|
  {
    forall i :: 0 <= i < n ==> ClosedAt(aliases[i], known)
  }

  ghost predicate NamedByAlias(aliases: seq<Alias>, d: Decl, name: string) {
    exists i :: 0 <= i < |aliases|
      && ((aliases[i].target == d && aliases[i].targetName == name)
          || (aliases[i].source == d && aliases[i].sourceName == name))
  }

  ghost predicate SourceOf(aliases: seq<Alias>, observed: Known, o: Decl, d: Decl, value: i64) {
    o in observed && Connected(aliases, o, d) && observed[o].value == value
  }

  // A known local is as observed, or is named by an alias and has the value of an observed local of its
  // component.
  ghost predicate Explained(aliases: seq<Alias>, observed: Known, d: Decl, l: Local) {
    if d in observed then l == observed[d]
    else NamedByAlias(aliases, d, l.name) && exists o :: SourceOf(aliases, observed, o, d, l.value)
  }

  ghost predicate Derived(aliases: seq<Alias>, observed: Known, known: Known) {
    && observed.Keys <= known.Keys
    && forall d :: d in known ==> Explained(aliases, observed, d, known[d])
  }

  lemma {:induction false} SomeSource(aliases: seq<Alias>, observed: Known, d: Decl, l: Local)
    requires Explained(aliases, observed, d, l)
    ensures exists o :: SourceOf(aliases, observed, o, d, l.value)
  {
    if d in observed {
      ConnectedToItself(aliases, d);
      assert SourceOf(aliases, observed, d, d, l.value);
    }
  }

  // One end of an alias takes the value of the other.
  lemma {:induction false} DeriveEnd(aliases: seq<Alias>, observed: Known, known: Known, i: nat, from: Decl, to: Decl,
          name: string)
    requires Derived(aliases, observed, known) && i < |aliases| && Joins(aliases[i], from, to)
    requires from in known && to !in known && NamedByAlias(aliases, to, name)
    ensures Derived(aliases, observed, known[to := Local(name, known[from].value)])
  {
    SomeSource(aliases, observed, from, known[from]);
    var o :| SourceOf(aliases, observed, o, from, known[from].value);
    assert Linked(aliases, from, to);
    ConnectedFurther(aliases, o, from, to);
    assert SourceOf(aliases, observed, o, to, known[from].value);
  }

  function Ends(aliases: seq<Alias>): set<Decl> {
    (set i | 0 <= i < |aliases| :: aliases[i].target) + (set i | 0 <= i < |aliases| :: aliases[i].source)
  }

  lemma {:induction false} EndsAreIn(aliases: seq<Alias>, i: nat)
    requires i < |aliases|
    ensures aliases[i].target in Ends(aliases) && aliases[i].source in Ends(aliases)
  {
  }

  ghost function Unknown(ends: set<Decl>, known: Known): nat {
    |ends - known.Keys|
  }

  lemma {:induction false} OneFewer(ends: set<Decl>, known: Known, d: Decl, l: Local)
    requires d in ends && d !in known
    ensures Unknown(ends, known[d := l]) == Unknown(ends, known) - 1
  {
    assert ends - known[d := l].Keys == (ends - known.Keys) - {d};
  }

  // Learning one end of an alias from the other.
  lemma {:induction false} Learn(aliases: seq<Alias>, observed: Known, known: Known, i: nat)
    requires Derived(aliases, observed, known) && i < |aliases|
    ensures var a := aliases[i];
      && (a.target !in known && a.source in known ==>
            var more := known[a.target := Local(a.targetName, known[a.source].value)];
            Derived(aliases, observed, more) && Unknown(Ends(aliases), more) < Unknown(Ends(aliases), known))
      && (a.target in known && a.source !in known ==>
            var more := known[a.source := Local(a.sourceName, known[a.target].value)];
            Derived(aliases, observed, more) && Unknown(Ends(aliases), more) < Unknown(Ends(aliases), known))
  {
    var a := aliases[i];
    assert Joins(a, a.source, a.target) && Joins(a, a.target, a.source);
    EndsAreIn(aliases, i);
    if a.target !in known && a.source in known {
      DeriveEnd(aliases, observed, known, i, a.source, a.target, a.targetName);
      OneFewer(Ends(aliases), known, a.target, Local(a.targetName, known[a.source].value));
    } else if a.target in known && a.source !in known {
      DeriveEnd(aliases, observed, known, i, a.target, a.source, a.sourceName);
      OneFewer(Ends(aliases), known, a.source, Local(a.sourceName, known[a.target].value));
    }
  }

  // What one alias adds.
  method Step(aliases: seq<Alias>, ghost observed: Known, ghost ends: set<Decl>, i: nat, known0: Known)
    returns (known: Known, changed: bool)
    requires Derived(aliases, observed, known0) && ends == Ends(aliases) && i < |aliases|
    ensures Derived(aliases, observed, known)
    ensures changed ==> Unknown(ends, known) < Unknown(ends, known0)
    ensures !changed ==> known == known0 && ClosedAt(aliases[i], known)
  {
    Learn(aliases, observed, known0, i);
    var a := aliases[i];
    if a.target !in known0 && a.source in known0 {
      return known0[a.target := Local(a.targetName, known0[a.source].value)], true;
    } else if a.target in known0 && a.source !in known0 {
      return known0[a.source := Local(a.sourceName, known0[a.target].value)], true;
    }
    return known0, false;
  }

  // A pass after its first `i` aliases: it has learnt something, or those are closed.
  ghost predicate Passed(aliases: seq<Alias>, ends: set<Decl>, known0: Known, i: nat, known: Known, changed: bool)
    requires i <= |aliases|
  {
    if changed then Unknown(ends, known) < Unknown(ends, known0)
    else known == known0 && Closed(aliases, i, known)
  }

  lemma {:induction false} PassedOneMore(aliases: seq<Alias>, ends: set<Decl>, known0: Known, i: nat, known: Known,
          changed: bool, next: Known, more: bool)
    requires i < |aliases| && Passed(aliases, ends, known0, i, known, changed)
    requires if more then Unknown(ends, next) < Unknown(ends, known) else next == known && ClosedAt(aliases[i], next)
    ensures Passed(aliases, ends, known0, i + 1, next, changed || more)
  {
  }

  // One pass over the aliases.
  method Pass(aliases: seq<Alias>, ghost observed: Known, ghost ends: set<Decl>, known0: Known)
    returns (known: Known, changed: bool)
    requires Derived(aliases, observed, known0) && ends == Ends(aliases)
    ensures Derived(aliases, observed, known)
    ensures Passed(aliases, ends, known0, |aliases|, known, changed)
  {
    known, changed := known0, false;
    for i := 0 to |aliases|
      invariant Derived(aliases, observed, known)
      invariant Passed(aliases, ends, known0, i, known, changed)
    {
      var next, more := Step(aliases, observed, ends, i, known);
      PassedOneMore(aliases, ends, known0, i, known, changed, next, more);
      known, changed := next, changed || more;
    }
  }

  method Spread(aliases: seq<Alias>, observed: Known) returns (known: Known)
    ensures Derived(aliases, observed, known) && Closed(aliases, |aliases|, known)
  {
    ghost var ends := Ends(aliases);
    known := observed;
    var changed := true;
    while changed
      invariant Derived(aliases, observed, known)
      invariant !changed ==> Closed(aliases, |aliases|, known)
      decreases Unknown(ends, known), changed
    {
      known, changed := Pass(aliases, observed, ends, known);
    }
  }

  // ---- What a closed, derived table is --------------------------------------------------

  lemma {:induction false} KnownAlongPath(aliases: seq<Alias>, known: Known, p: seq<Decl>, d: Decl, e: Decl)
    requires Closed(aliases, |aliases|, known) && Path(aliases, p, d, e) && d in known
    ensures e in known
    decreases |p|
  {
    if |p| > 1 {
      PathTail(aliases, p, d, e);
      var i :| 0 <= i < |aliases| && Joins(aliases[i], d, p[1]);
      assert ClosedAt(aliases[i], known);
      KnownAlongPath(aliases, known, p[1..], p[1], e);
    }
  }

  lemma {:induction false} PathTail(aliases: seq<Alias>, p: seq<Decl>, d: Decl, e: Decl)
    requires Path(aliases, p, d, e) && |p| > 1
    ensures Linked(aliases, d, p[1]) && Path(aliases, p[1..], p[1], e)
  {
    assert Edge(aliases, p, 0);
    forall i: nat | i < |p[1..]| - 1 ensures Edge(aliases, p[1..], i) {
      assert Edge(aliases, p, i + 1);
    }
  }

  // The result is the least closure: exactly the declarations connected to an observed one are known.
  lemma {:induction false} SpreadIsLeastClosure(aliases: seq<Alias>, observed: Known, known: Known, d: Decl)
    requires Derived(aliases, observed, known) && Closed(aliases, |aliases|, known)
    ensures d in known <==> exists o :: o in observed && Connected(aliases, o, d)
  {
    if d in known {
      SomeSource(aliases, observed, d, known[d]);
      var o :| SourceOf(aliases, observed, o, d, known[d].value);
      assert o in observed && Connected(aliases, o, d);
    }
    if o :| o in observed && Connected(aliases, o, d) {
      var p :| Path(aliases, p, o, d);
      KnownAlongPath(aliases, known, p, o, d);
    }
  }

  ghost predicate AliasAgrees(a: Alias, known: Known) {
    a.target in known && a.source in known ==> known[a.target].value == known[a.source].value
  }

  ghost predicate AliasesAgree(aliases: seq<Alias>, known: Known) {
    forall i :: 0 <= i < |aliases| ==> AliasAgrees(aliases[i], known)
  }

  ghost predicate ObservationsAgree(aliases: seq<Alias>, observed: Known) {
    forall o, q :: o in observed && q in observed && Connected(aliases, o, q) ==> observed[o].value == observed[q].value
  }

  lemma {:induction false} ValueAlongPath(aliases: seq<Alias>, known: Known, p: seq<Decl>, d: Decl, e: Decl)
    requires Closed(aliases, |aliases|, known) && AliasesAgree(aliases, known)
    requires Path(aliases, p, d, e) && d in known
    ensures e in known && known[e].value == known[d].value
    decreases |p|
  {
    if |p| > 1 {
      PathTail(aliases, p, d, e);
      var i :| 0 <= i < |aliases| && Joins(aliases[i], d, p[1]);
      assert ClosedAt(aliases[i], known) && AliasAgrees(aliases[i], known);
      ValueAlongPath(aliases, known, p[1..], p[1], e);
    }
  }

  lemma {:induction false} LinkedBack(aliases: seq<Alias>, d: Decl, e: Decl)
    requires Linked(aliases, d, e)
    ensures Linked(aliases, e, d)
  {
    var i :| 0 <= i < |aliases| && Joins(aliases[i], d, e);
    assert Joins(aliases[i], e, d);
  }

  lemma {:induction false} ConnectedBackAlong(aliases: seq<Alias>, p: seq<Decl>, d: Decl, e: Decl)
    requires Path(aliases, p, d, e)
    ensures Connected(aliases, e, d)
    decreases |p|
  {
    if |p| > 1 {
      PathTail(aliases, p, d, e);
      ConnectedBackAlong(aliases, p[1..], p[1], e);
      LinkedBack(aliases, d, p[1]);
      ConnectedFurther(aliases, e, p[1], d);
    } else {
      ConnectedToItself(aliases, d);
    }
  }

  lemma {:induction false} ConnectedThrough(aliases: seq<Alias>, o: Decl, p: seq<Decl>, d: Decl, e: Decl)
    requires Connected(aliases, o, d) && Path(aliases, p, d, e)
    ensures Connected(aliases, o, e)
    decreases |p|
  {
    if |p| > 1 {
      PathTail(aliases, p, d, e);
      ConnectedFurther(aliases, o, d, p[1]);
      ConnectedThrough(aliases, o, p[1..], p[1], e);
    }
  }

  lemma {:induction false} SameComponent(aliases: seq<Alias>, o: Decl, q: Decl, d: Decl, e: Decl)
    requires Connected(aliases, o, d) && Linked(aliases, d, e) && Connected(aliases, q, e)
    ensures Connected(aliases, o, q)
  {
    var p :| Path(aliases, p, q, e);
    ConnectedBackAlong(aliases, p, q, e);
    ConnectedFurther(aliases, o, d, e);
    var back :| Path(aliases, back, e, q);
    ConnectedThrough(aliases, o, back, e, q);
  }

  // Every alias ends up with equal values on both sides exactly when the observations agree within
  // every component.
  lemma {:induction false} AliasesAgreeIff(aliases: seq<Alias>, observed: Known, known: Known)
    requires Derived(aliases, observed, known) && Closed(aliases, |aliases|, known)
    ensures AliasesAgree(aliases, known) <==> ObservationsAgree(aliases, observed)
  {
    if AliasesAgree(aliases, known) {
      forall o, q | o in observed && q in observed && Connected(aliases, o, q)
        ensures observed[o].value == observed[q].value
      {
        var p :| Path(aliases, p, o, q);
        ValueAlongPath(aliases, known, p, o, q);
      }
    }
    if ObservationsAgree(aliases, observed) {
      forall i | 0 <= i < |aliases| ensures AliasAgrees(aliases[i], known) {
        AgreesAt(aliases, observed, known, i);
      }
    }
  }

  lemma {:induction false} AgreesAt(aliases: seq<Alias>, observed: Known, known: Known, i: nat)
    requires Derived(aliases, observed, known) && ObservationsAgree(aliases, observed) && i < |aliases|
    ensures AliasAgrees(aliases[i], known)
  {
    var d, e := aliases[i].target, aliases[i].source;
    if d in known && e in known {
      SomeSource(aliases, observed, d, known[d]);
      SomeSource(aliases, observed, e, known[e]);
      var o :| SourceOf(aliases, observed, o, d, known[d].value);
      var q :| SourceOf(aliases, observed, q, e, known[e].value);
      assert Joins(aliases[i], d, e);
      assert Linked(aliases, d, e);
      SameComponent(aliases, o, q, d, e);
    }
  }

  // `observe_locals`: what it knows in the end is the least closure of what it first observed.
  method ObserveLocals(names: map<Variable, Declared>, args: seq<Argument>, aliases: seq<Alias>)
    returns (known: Known, observed: Known)
    ensures FirstObserved(names, args, |args|, observed)
    ensures Derived(aliases, observed, known)
    ensures forall d :: d in known <==> exists o :: o in observed && Connected(aliases, o, d)
    ensures AliasesAgree(aliases, known) <==> ObservationsAgree(aliases, observed)
  {
    observed := Observe(names, args);
    known := Spread(aliases, observed);
    forall d ensures d in known <==> exists o :: o in observed && Connected(aliases, o, d) {
      SpreadIsLeastClosure(aliases, observed, known, d);
    }
    AliasesAgreeIff(aliases, observed, known);
  }
}
