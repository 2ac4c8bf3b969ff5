// The prestate reader: leaves at the parent block, a table of prefetched ones, and the classes it has
// loaded (onchain/src/state.rs).
module ChainState {
  import opened Common
  import opened Rpc

  datatype Tx = Tx(kind: string, version: string, body: nat)

  // The requests this reader makes; two requests are the same when their canonical texts are.
  datatype Request =
    | StorageAt(block: nat, address: Felt, key: Felt)
    | NonceAt(block: nat, address: Felt)
    | ClassHashAt(block: nat, address: Felt)
    | GetClass(block: nat, hash: Felt)
    | Simulate(block: nat, txs: seq<Tx>, flags: seq<string>)

  // An entry of the simulation's initial reads, whose members may fail to read as felts.
  datatype StorageEntry = StorageEntry(address: Option<Felt>, key: Option<Felt>, value: Option<Felt>)
  datatype AccountEntry = AccountEntry(address: Option<Felt>, value: Option<Felt>)
  datatype InitialReads = InitialReads(
    storage: seq<StorageEntry>, nonces: seq<AccountEntry>, classHashes: seq<AccountEntry>)

  datatype Value =
    | FeltText(felt: Felt)
    | Definition(definition: nat)
    | Simulation(initial: Option<InitialReads>)
    | Other

  datatype ReadError = Unanswered | NotAFelt | Refused(code: int) | Undeclared(hash: Felt) | NotAClass

  type Outcome = Option<Body<Value>>

  // ---- Leaves ---------------------------------------------------------------------------

  // A read whose "contract not found" answer is zero.
  function Leaf(o: Outcome): Result<Felt, ReadError> {
    var seen: Option<Answer<Value>> := Seen(o);
    match seen
    case None => Err(Unanswered)
    case Some(Success(FeltText(f))) => Ok(f)
    case Some(Success(_)) => Err(NotAFelt)
    case Some(Error(code, _)) => if code == CONTRACT_NOT_FOUND then Ok(0) else Err(Refused(code))
  }

  // What a leaf's query gives: the felt it brings, zero for a contract that is not found (code 20), or an error.
  ghost predicate IsLeaf(o: Outcome, res: Result<Felt, ReadError>) {
    match o
    case Some(Returned(FeltText(f))) => res == Ok(f)
    case Some(Failed(Some(code), _)) => if code == 20 then res == Ok(0) else res == Err(Refused(code))
    case _ => res.Err?
  }

  datatype Read = Storage(address: Felt, key: Felt) | Nonce(address: Felt) | ClassHash(address: Felt)

  function RequestFor(block: nat, r: Read): Request {
    match r
    case Storage(a, k) => StorageAt(block, a, k)
    case Nonce(a) => NonceAt(block, a)
    case ClassHash(a) => ClassHashAt(block, a)
  }

  // The prefetched table.
  datatype Table = Table(storage: map<(Felt, Felt), Felt>, nonces: map<Felt, Felt>, classHashes: map<Felt, Felt>)

  function Held(t: Table, r: Read): Option<Felt> {
    match r
    case Storage(a, k) => if (a, k) in t.storage then Some(t.storage[(a, k)]) else None
    case Nonce(a) => if a in t.nonces then Some(t.nonces[a]) else None
    case ClassHash(a) => if a in t.classHashes then Some(t.classHashes[a]) else None
  }

  // ---- Prefetching ----------------------------------------------------------------------

  const FLAGS := ["RETURN_INITIAL_READS", "SKIP_FEE_CHARGE", "SKIP_VALIDATE"]

  predicate Simulated(t: Tx) {
    (t.kind == "INVOKE" || t.kind == "DEPLOY_ACCOUNT") && t.version == "0x3"
  }

  function Submitted(bodies: seq<Tx>, n: nat): seq<Tx>
    requires n <= |bodies|
  {
    if n == 0 then []
    else if Simulated(bodies[n - 1]) then Submitted(bodies, n - 1) + [bodies[n - 1]]
    else Submitted(bodies, n - 1)
  }

  function ReadsIn(o: Outcome): Option<InitialReads> {
    var seen: Option<Answer<Value>> := Seen(o);
    match seen
    case Some(Success(Simulation(rs))) => rs
    case _ => None
  }

  type Bring = (nat, Request) -> Outcome

  // The whole batch under ever more relaxed flags, then one transaction at a time.
  function WholeBatch(bring: Bring, block: nat, flags: seq<string>, txs: seq<Tx>, call: nat,
          relaxed: nat): seq<InitialReads>
    requires relaxed <= |flags|
    decreases |flags| - relaxed
  {
    if relaxed == |flags| then Singles(bring, block, flags, txs, call, |txs|)
    else
      match ReadsIn(bring(call, Simulate(block, txs, flags[..relaxed + 1])))
      case Some(r) => [r]
      case None => WholeBatch(bring, block, flags, txs, call + 1, relaxed + 1)
  }

  function Singles(bring: Bring, block: nat, flags: seq<string>, txs: seq<Tx>, call: nat, n: nat): seq<InitialReads>
    requires n <= |txs|
  {
    if n == 0 then []
    else
      match ReadsIn(bring(call + n - 1, Simulate(block, [txs[n - 1]], flags)))
      case Some(r) => Singles(bring, block, flags, txs, call, n - 1) + [r]
      case None => Singles(bring, block, flags, txs, call, n - 1)
  }

  function WithStorage(m: map<(Felt, Felt), Felt>, es: seq<StorageEntry>, n: nat): map<(Felt, Felt), Felt>
    requires n <= |es|
  {
    if n == 0 then m
    else
      var e, before := es[n - 1], WithStorage(m, es, n - 1);
      if e.address.Some? && e.key.Some? && e.value.Some? then before[(e.address.value, e.key.value) := e.value.value]
      else before
  }

  function WithAccounts(m: map<Felt, Felt>, es: seq<AccountEntry>, n: nat): map<Felt, Felt>
    requires n <= |es|
  {
    if n == 0 then m
    else
      var e, before := es[n - 1], WithAccounts(m, es, n - 1);
      if e.address.Some? && e.value.Some? then before[e.address.value := e.value.value] else before
  }

  function WithReads(t: Table, r: InitialReads): Table {
    Table(WithStorage(t.storage, r.storage, |r.storage|),
          WithAccounts(t.nonces, r.nonces, |r.nonces|),
          WithAccounts(t.classHashes, r.classHashes, |r.classHashes|))
  }

  function Filled(t: Table, rs: seq<InitialReads>, n: nat): Table
    requires n <= |rs|
  {
    if n == 0 then t else WithReads(Filled(t, rs, n - 1), rs[n - 1])
  }

  // ---- A node that answers by the request alone -----------------------------------------

  ghost predicate Steady(bring: Bring, oracle: Request -> Outcome) {
    forall call: nat, key: Request :: bring(call, key) == oracle(key)
  }

  // A value for a leaf is right when the leaf's own query would bring it.
  ghost predicate Right(oracle: Request -> Outcome, block: nat, r: Read, value: Felt) {
    Leaf(oracle(RequestFor(block, r))) == Ok(value)
  }

  ghost predicate Agrees(oracle: Request -> Outcome, block: nat, t: Table) {
    forall r: Read :: Held(t, r).Some? ==> Right(oracle, block, r, Held(t, r).value)
  }

  ghost predicate RightReads(oracle: Request -> Outcome, block: nat, rs: InitialReads) {
    && (forall i :: 0 <= i < |rs.storage| ==>
          var e := rs.storage[i];
          e.address.Some? && e.key.Some? && e.value.Some? ==>
            Right(oracle, block, Storage(e.address.value, e.key.value), e.value.value))
    && (forall i :: 0 <= i < |rs.nonces| ==>
          var e := rs.nonces[i];
          e.address.Some? && e.value.Some? ==> Right(oracle, block, Nonce(e.address.value), e.value.value))
    && (forall i :: 0 <= i < |rs.classHashes| ==>
          var e := rs.classHashes[i];
          e.address.Some? && e.value.Some? ==> Right(oracle, block, ClassHash(e.address.value), e.value.value))
  }

  // Whatever it simulates and however relaxed, the node's initial reads are the leaves' values.
  ghost predicate Honest(oracle: Request -> Outcome, block: nat) {
    forall txs, flags :: ReadsIn(oracle(Simulate(block, txs, flags))).Some? ==>
      RightReads(oracle, block, ReadsIn(oracle(Simulate(block, txs, flags))).value)
  }

  ghost predicate AllRight(oracle: Request -> Outcome, block: nat, rs: seq<InitialReads>) {
    forall i :: 0 <= i < |rs| ==> RightReads(oracle, block, rs[i])
  }

  lemma {:induction false} StorageStaysRight(oracle: Request -> Outcome, block: nat, m: map<(Felt, Felt), Felt>,
          es: seq<StorageEntry>, n: nat)
    requires n <= |es|
    requires forall a, k :: (a, k) in m ==> Right(oracle, block, Storage(a, k), m[(a, k)])
    requires forall i :: 0 <= i < |es| ==>
      var e := es[i];
      e.address.Some? && e.key.Some? && e.value.Some? ==>
        Right(oracle, block, Storage(e.address.value, e.key.value), e.value.value)
    ensures forall a, k :: (a, k) in WithStorage(m, es, n) ==>
      Right(oracle, block, Storage(a, k), WithStorage(m, es, n)[(a, k)])
  {
    if n > 0 {
      StorageStaysRight(oracle, block, m, es, n - 1);
    }
  }

  lemma {:induction false} AccountsStayRight(oracle: Request -> Outcome, block: nat, kind: Felt -> Read,
          m: map<Felt, Felt>, es: seq<AccountEntry>, n: nat)
    requires n <= |es|
    requires forall a :: a in m ==> Right(oracle, block, kind(a), m[a])
    requires forall i :: 0 <= i < |es| ==>
      es[i].address.Some? && es[i].value.Some? ==> Right(oracle, block, kind(es[i].address.value), es[i].value.value)
    ensures forall a :: a in WithAccounts(m, es, n) ==> Right(oracle, block, kind(a), WithAccounts(m, es, n)[a])
  {
    if n > 0 {
      AccountsStayRight(oracle, block, kind, m, es, n - 1);
    }
  }

  lemma {:induction false} AgreesWithReads(oracle: Request -> Outcome, block: nat, t: Table, r: InitialReads)
    requires Agrees(oracle, block, t) && RightReads(oracle, block, r)
    ensures Agrees(oracle, block, WithReads(t, r))
  {
    forall a, k | (a, k) in t.storage ensures Right(oracle, block, Storage(a, k), t.storage[(a, k)]) {
      assert Held(t, Storage(a, k)) == Some(t.storage[(a, k)]);
    }
    forall a | a in t.nonces ensures Right(oracle, block, Nonce(a), t.nonces[a]) {
      assert Held(t, Nonce(a)) == Some(t.nonces[a]);
    }
    forall a | a in t.classHashes ensures Right(oracle, block, ClassHash(a), t.classHashes[a]) {
      assert Held(t, ClassHash(a)) == Some(t.classHashes[a]);
    }
    StorageStaysRight(oracle, block, t.storage, r.storage, |r.storage|);
    AccountsStayRight(oracle, block, (a: Felt) => Nonce(a), t.nonces, r.nonces, |r.nonces|);
    AccountsStayRight(oracle, block, (a: Felt) => ClassHash(a), t.classHashes, r.classHashes, |r.classHashes|);
  }

  lemma {:induction false} AgreesFilled(oracle: Request -> Outcome, block: nat, t: Table, rs: seq<InitialReads>, n: nat)
    requires n <= |rs| && Agrees(oracle, block, t) && AllRight(oracle, block, rs)
    ensures Agrees(oracle, block, Filled(t, rs, n))
  {
    if n > 0 {
      AgreesFilled(oracle, block, t, rs, n - 1);
      AgreesWithReads(oracle, block, Filled(t, rs, n - 1), rs[n - 1]);
    }
  }

  lemma {:induction false} SinglesRight(bring: Bring, oracle: Request -> Outcome, block: nat, flags: seq<string>,
          txs: seq<Tx>, call: nat, n: nat)
    requires n <= |txs| && Steady(bring, oracle) && Honest(oracle, block)
    ensures AllRight(oracle, block, Singles(bring, block, flags, txs, call, n))
  {
    if n > 0 {
      SinglesRight(bring, oracle, block, flags, txs, call, n - 1);
    }
  }

  lemma {:induction false} BatchRight(bring: Bring, oracle: Request -> Outcome, block: nat, flags: seq<string>,
          txs: seq<Tx>, call: nat, relaxed: nat)
    requires relaxed <= |flags| && Steady(bring, oracle) && Honest(oracle, block)
    ensures AllRight(oracle, block, WholeBatch(bring, block, flags, txs, call, relaxed))
    decreases |flags| - relaxed
  {
    if relaxed == |flags| {
      SinglesRight(bring, oracle, block, flags, txs, call, |txs|);
    } else {
      BatchRight(bring, oracle, block, flags, txs, call + 1, relaxed + 1);
    }
  }

  // What a prefetch leaves in the table.
  function Prefetched(bring: Bring, block: nat, t: Table, txs: seq<Tx>, call: nat): Table {
    if txs == [] then t
    else
      var rs := WholeBatch(bring, block, FLAGS, txs, call, 0);
      Filled(t, rs, |rs|)
  }

  // The transactions simulated are the invocations and account deployments of version 3.
  lemma {:induction false} SubmittedAre(bodies: seq<Tx>, n: nat, t: Tx)
    requires n <= |bodies|
    ensures multiset(Submitted(bodies, n))[t] ==
      if t.kind in {"INVOKE", "DEPLOY_ACCOUNT"} && t.version == "0x3" then multiset(bodies[..n])[t] else 0
  {
    if n > 0 {
      SubmittedAre(bodies, n - 1, t);
      assert bodies[..n] == bodies[..n - 1] + [bodies[n - 1]];
    }
  }

  // A prefetch asks for the whole batch, then without fees, then without validation, and then, without
  // either, for each transaction alone; it takes the first batch's reads, or those of every transaction.
  lemma {:induction false} BatchesTried(bring: Bring, block: nat, txs: seq<Tx>, call: nat)
    ensures var first := ReadsIn(bring(call, Simulate(block, txs, ["RETURN_INITIAL_READS"])));
      var second := ReadsIn(bring(call + 1, Simulate(block, txs, ["RETURN_INITIAL_READS", "SKIP_FEE_CHARGE"])));
      var all := ["RETURN_INITIAL_READS", "SKIP_FEE_CHARGE", "SKIP_VALIDATE"];
      var third := ReadsIn(bring(call + 2, Simulate(block, txs, all)));
      WholeBatch(bring, block, FLAGS, txs, call, 0) ==
        if first.Some? then [first.value] else if second.Some? then [second.value]
        else if third.Some? then [third.value] else Singles(bring, block, all, txs, call + 3, |txs|)
  {
    assert FLAGS[..1] == ["RETURN_INITIAL_READS"] && FLAGS[..2] == ["RETURN_INITIAL_READS", "SKIP_FEE_CHARGE"];
    assert FLAGS[..3] == FLAGS;
    assert WholeBatch(bring, block, FLAGS, txs, call + 3, 3) == Singles(bring, block, FLAGS, txs, call + 3, |txs|);
  }

  // Whatever fallback filled it, a table prefetched from an honest node agrees with the leaves.
  lemma {:induction false} PrefetchAgrees(bring: Bring, oracle: Request -> Outcome, block: nat, t: Table, txs: seq<Tx>,
          call: nat)
    requires Steady(bring, oracle) && Honest(oracle, block) && Agrees(oracle, block, t)
    ensures Agrees(oracle, block, Prefetched(bring, block, t, txs, call))
  {
    BatchRight(bring, oracle, block, FLAGS, txs, call, 0);
    var rs := WholeBatch(bring, block, FLAGS, txs, call, 0);
    AgreesFilled(oracle, block, t, rs, |rs|);
  }

  // ---- Serving reads --------------------------------------------------------------------

  function ServeOne(bring: Bring, block: nat, t: Table, r: Read, call: nat): Result<Felt, ReadError> {
    match Held(t, r)
    case Some(v) => Ok(v)
    case None => Leaf(bring(call, RequestFor(block, r)))
  }

  // The calls made by the first `n` reads: one for each the table does not hold.
  function CallsFor(t: Table, rs: seq<Read>, n: nat): nat
    requires n <= |rs|
  {
    if n == 0 then 0 else CallsFor(t, rs, n - 1) + if Held(t, rs[n - 1]).Some? then 0 else 1
  }

  // What the first `n` reads are served, from a given call of the run on.
  function Serve(bring: Bring, block: nat, t: Table, rs: seq<Read>, call: nat,
          n: nat): (r: seq<Result<Felt, ReadError>>)
    requires n <= |rs|
    ensures |r| == n
  {
    if n == 0 then []
    else
      var last := ServeOne(bring, block, t, rs[n - 1], call + CallsFor(t, rs, n - 1));
      Serve(bring, block, t, rs, call, n - 1) + [last]
  }

  const EMPTY := Table(map[], map[], map[])

  ghost predicate ServesAlike(bring: Bring, block: nat, t: Table, call: nat, rs: seq<Read>) {
    Serve(bring, block, t, rs, call, |rs|) == Serve(bring, block, EMPTY, rs, call, |rs|)
  }

  // Every sequence of reads is served as without the table exactly when the table agrees with the leaves.
  lemma {:induction false} PrefetchIsTransparentIff(bring: Bring, oracle: Request -> Outcome, block: nat, t: Table,
          call: nat)
    requires Steady(bring, oracle)
    ensures Agrees(oracle, block, t) <==> forall rs :: ServesAlike(bring, block, t, call, rs)
  {
    if Agrees(oracle, block, t) {
      forall rs ensures ServesAlike(bring, block, t, call, rs) {
        ServedAlike(bring, oracle, block, t, rs, call, |rs|);
      }
    }
    if forall rs :: ServesAlike(bring, block, t, call, rs) {
      forall r: Read | Held(t, r).Some? ensures Right(oracle, block, r, Held(t, r).value) {
        assert ServesAlike(bring, block, t, call, [r]);
        ServedSingly(bring, block, t, r, call);
        ServedSingly(bring, block, EMPTY, r, call);
        assert bring(call, RequestFor(block, r)) == oracle(RequestFor(block, r));
      }
    }
  }

  lemma {:induction false} ServedSingly(bring: Bring, block: nat, t: Table, r: Read, call: nat)
    ensures Serve(bring, block, t, [r], call, 1) == [ServeOne(bring, block, t, r, call)]
  {
    assert Serve(bring, block, t, [r], call, 0) == [];
    assert CallsFor(t, [r], 0) == 0;
  }

  lemma {:induction false} OneAlike(bring: Bring, oracle: Request -> Outcome, block: nat, t: Table, r: Read, call: nat,
          other: nat)
    requires Steady(bring, oracle) && Agrees(oracle, block, t)
    ensures ServeOne(bring, block, t, r, call) == ServeOne(bring, block, EMPTY, r, other) ==
      Leaf(oracle(RequestFor(block, r)))
  {
    assert Held(EMPTY, r) == None;
    assert bring(call, RequestFor(block, r)) == bring(other, RequestFor(block, r)) == oracle(RequestFor(block, r));
    if Held(t, r).Some? {
      assert Right(oracle, block, r, Held(t, r).value);
    }
  }

  lemma {:induction false} ServedAlike(bring: Bring, oracle: Request -> Outcome, block: nat, t: Table, rs: seq<Read>,
          call: nat, n: nat)
    requires n <= |rs| && Steady(bring, oracle) && Agrees(oracle, block, t)
    ensures Serve(bring, block, t, rs, call, n) == Serve(bring, block, EMPTY, rs, call, n)
  {
    if n > 0 {
      ServedAlike(bring, oracle, block, t, rs, call, n - 1);
      OneAlike(bring, oracle, block, t, rs[n - 1], call + CallsFor(t, rs, n - 1), call + CallsFor(EMPTY, rs, n - 1));
    }
  }

  // Whatever fallback filled it, prefetching changes no answer of any sequence of reads.
  lemma {:induction false} PrefetchChangesNoAnswer(bring: Bring, oracle: Request -> Outcome, block: nat, t: Table,
          txs: seq<Tx>, call: nat, later: nat, rs: seq<Read>)
    requires Steady(bring, oracle) && Honest(oracle, block) && Agrees(oracle, block, t)
    ensures ServesAlike(bring, block, Prefetched(bring, block, t, txs, call), later, rs)
  {
    PrefetchAgrees(bring, oracle, block, t, txs, call);
    PrefetchIsTransparentIff(bring, oracle, block, Prefetched(bring, block, t, txs, call), later);
  }

  // Each answer is then the leaf's own.
  lemma {:induction false} ServedLeaves(bring: Bring, oracle: Request -> Outcome, block: nat, t: Table, rs: seq<Read>,
          call: nat, n: nat)
    requires n <= |rs| && Steady(bring, oracle) && Agrees(oracle, block, t)
    ensures forall i :: 0 <= i < n ==> Serve(bring, block, t, rs, call, n)[i] == Leaf(oracle(RequestFor(block, rs[i])))
  {
    if n > 0 {
      ServedLeaves(bring, oracle, block, t, rs, call, n - 1);
      OneAlike(bring, oracle, block, t, rs[n - 1], call + CallsFor(t, rs, n - 1), call);
    }
  }

  // ---- Classes --------------------------------------------------------------------------

  datatype Class = Class(hash: Felt, definition: nat)

  // A class's definition as the chain's answer gives it, if `compile` can read it.
  function ClassOf(compile: nat -> bool, hash: Felt, o: Outcome): Result<Class, ReadError> {
    var seen: Option<Answer<Value>> := Seen(o);
    match seen
    case None => Err(Unanswered)
    case Some(Success(Definition(d))) => if compile(d) then Ok(Class(hash, d)) else Err(NotAClass)
    case Some(Success(_)) => Err(NotAClass)
    case Some(Error(code, _)) => if code == CLASS_HASH_NOT_FOUND then Err(Undeclared(hash)) else Err(Refused(code))
  }

  // What a run of class requests brings, the classes it then holds, and the calls it has made.
  datatype ClassRun = ClassRun(answers: seq<Result<Class, ReadError>>, classes: map<Felt, Class>, calls: nat)

  function ServeClasses(bring: Bring, compile: nat -> bool, block: nat, classes: map<Felt, Class>, hashes: seq<Felt>,
          call: nat, n: nat): (r: ClassRun)
    requires n <= |hashes|
    ensures |r.answers| == n
  {
    if n == 0 then ClassRun([], classes, 0)
    else ServeClass(bring, compile, block, ServeClasses(bring, compile, block, classes, hashes, call, n - 1),
      hashes[n - 1], call)
  }

  function ServeClass(bring: Bring, compile: nat -> bool, block: nat, before: ClassRun, hash: Felt,
          call: nat): (r: ClassRun)
    ensures |r.answers| == |before.answers| + 1
  {
    if hash in before.classes then before.(answers := before.answers + [Ok(before.classes[hash])])
    else
      var res := ClassOf(compile, hash, bring(call + before.calls, GetClass(block, hash)));
      ClassRun(before.answers + [res],
               if res.Ok? then before.classes[hash := res.value] else before.classes,
               before.calls + 1)
  }

  // One request's answer, cache and calls make the run's next state.
  lemma {:induction false} ServedNext(bring: Bring, compile: nat -> bool, block: nat, before: ClassRun, hash: Felt,
          start: nat, one: Result<Class, ReadError>, classes: map<Felt, Class>, calls: nat)
    returns (run: ClassRun)
    requires hash in before.classes ==>
      one == Ok(before.classes[hash]) && classes == before.classes && calls == start + before.calls
    requires hash !in before.classes ==>
      && one == ClassOf(compile, hash, bring(start + before.calls, GetClass(block, hash)))
      && classes == (if one.Ok? then before.classes[hash := one.value] else before.classes)
      && calls == start + before.calls + 1
    ensures run == ServeClass(bring, compile, block, before, hash, start)
    ensures run.answers == before.answers + [one] && run.classes == classes && calls == start + run.calls
  {
    run := ServeClass(bring, compile, block, before, hash, start);
  }

  // What the class's own query gives.
  function OwnAnswer(oracle: Request -> Outcome, compile: nat -> bool, block: nat,
          hash: Felt): Result<Class, ReadError> {
    ClassOf(compile, hash, oracle(GetClass(block, hash)))
  }

  // A request costs a call unless an earlier request read the same class.
  predicate Costs(oracle: Request -> Outcome, compile: nat -> bool, block: nat, hashes: seq<Felt>, i: nat)
    requires i < |hashes|
  {
    hashes[i] !in hashes[..i] || OwnAnswer(oracle, compile, block, hashes[i]).Err?
  }

  function CostOf(oracle: Request -> Outcome, compile: nat -> bool, block: nat, hashes: seq<Felt>, n: nat): nat
    requires n <= |hashes|
  {
    if n == 0 then 0
    else CostOf(oracle, compile, block, hashes, n - 1) + if Costs(oracle, compile, block, hashes, n - 1) then 1 else 0
  }

  // The classes held are exactly those asked for that their own queries give.
  ghost predicate HoldsRead(oracle: Request -> Outcome, compile: nat -> bool, block: nat, asked: seq<Felt>,
          classes: map<Felt, Class>) {
    && (forall h :: h in classes ==> h in asked && OwnAnswer(oracle, compile, block, h) == Ok(classes[h]))
    && (forall h :: h in asked && OwnAnswer(oracle, compile, block, h).Ok? ==> h in classes)
  }

  lemma {:induction false} AskedOneMore(hashes: seq<Felt>, n: nat)
    requires n < |hashes|
    ensures forall h :: h in hashes[..n + 1] <==> h in hashes[..n] || h == hashes[n]
  {
    assert hashes[..n + 1] == hashes[..n] + [hashes[n]];
  }

  // From an empty cache, every request of a run is answered as its own query would be, a class read once
  // costs no second call, and every other request costs one.
  lemma {:induction false} ClassesServedAsAsked(bring: Bring, oracle: Request -> Outcome, compile: nat -> bool,
          block: nat, hashes: seq<Felt>, call: nat, n: nat)
    requires n <= |hashes| && Steady(bring, oracle)
    ensures var r := ServeClasses(bring, compile, block, map[], hashes, call, n);
      && (forall i :: 0 <= i < n ==> r.answers[i] == OwnAnswer(oracle, compile, block, hashes[i]))
      && r.calls == CostOf(oracle, compile, block, hashes, n)
      && HoldsRead(oracle, compile, block, hashes[..n], r.classes)
  {
    if n > 0 {
      ClassesServedAsAsked(bring, oracle, compile, block, hashes, call, n - 1);
      var before := ServeClasses(bring, compile, block, map[], hashes, call, n - 1);
      assert bring(call + before.calls, GetClass(block, hashes[n - 1])) == oracle(GetClass(block, hashes[n - 1]));
      AskedOneMore(hashes, n - 1);
    }
  }

  // ---- The reader -----------------------------------------------------------------------

  function BringOf(client: Client<Request, Value>): Bring {
    (call: nat, key: Request) => client.Outcome(call, key)
  }

  ghost predicate ServedSo(bring: Bring, block: nat, t: Table, rs: seq<Read>, start: nat, hits: nat, n: nat,
          res: seq<Result<Felt, ReadError>>, calls: nat, hitsNow: nat)
    requires n <= |rs|
  {
    && calls == start + CallsFor(t, rs, n) && hitsNow + CallsFor(t, rs, n) == hits + n
    && res == Serve(bring, block, t, rs, start, n)
  }

  lemma {:induction false} ServedMore(bring: Bring, block: nat, t: Table, rs: seq<Read>, start: nat, hits: nat, n: nat,
          res: seq<Result<Felt, ReadError>>, calls: nat, one: Result<Felt, ReadError>)
    requires n < |rs| && one == ServeOne(bring, block, t, rs[n], calls)
    requires calls == start + CallsFor(t, rs, n) && res == Serve(bring, block, t, rs, start, n)
    ensures res + [one] == Serve(bring, block, t, rs, start, n + 1)
    ensures CallsFor(t, rs, n + 1) == CallsFor(t, rs, n) + if Held(t, rs[n]).Some? then 0 else 1
  {
  }

  method FillTable(t0: Table, all: seq<InitialReads>) returns (t: Table)
    ensures t == Filled(t0, all, |all|)
  {
    t := t0;
    for n := 0 to |all|
      invariant t == Filled(t0, all, n)
    {
      var storage := InsertStorage(t.storage, all[n].storage);
      var nonces := InsertAccounts(t.nonces, all[n].nonces);
      var classHashes := InsertAccounts(t.classHashes, all[n].classHashes);
      t := Table(storage, nonces, classHashes);
    }
  }

  method InsertStorage(m0: map<(Felt, Felt), Felt>, es: seq<StorageEntry>) returns (m: map<(Felt, Felt), Felt>)
    ensures m == WithStorage(m0, es, |es|)
  {
    m := m0;
    for n := 0 to |es|
      invariant m == WithStorage(m0, es, n)
    {
      var e := es[n];
      if e.address.Some? && e.key.Some? && e.value.Some? {
        m := m[(e.address.value, e.key.value) := e.value.value];
      }
    }
  }

  method InsertAccounts(m0: map<Felt, Felt>, es: seq<AccountEntry>) returns (m: map<Felt, Felt>)
    ensures m == WithAccounts(m0, es, |es|)
  {
    m := m0;
    for n := 0 to |es|
      invariant m == WithAccounts(m0, es, n)
    {
      var e := es[n];
      if e.address.Some? && e.value.Some? {
        m := m[e.address.value := e.value.value];
      }
    }
  }

  class RpcState {
    const client: Client<Request, Value>
    const block: nat
    const compile: nat -> bool
    var classes: map<Felt, Class>
    var storage: map<(Felt, Felt), Felt>
    var nonces: map<Felt, Felt>
    var classHashes: map<Felt, Felt>
    var prefetchHits: nat

    constructor (client: Client<Request, Value>, block: nat, compile: nat -> bool)
      ensures this.client == client && this.block == block && this.compile == compile
      ensures Prefetches() == EMPTY && classes == map[] && prefetchHits == 0
    {
      this.client := client;
      this.block := block;
      this.compile := compile;
      classes := map[];
      storage := map[];
      nonces := map[];
      classHashes := map[];
      prefetchHits := 0;
    }

    ghost predicate Valid()
      reads this, client
    {
      client.Valid()
    }

    function Prefetches(): Table
      reads this
    {
      Table(storage, nonces, classHashes)
    }

    method AskLeaf(r: Read) returns (res: Result<Felt, ReadError>)
      requires Valid()
      modifies client
      ensures Valid() && client.calls == old(client.calls) + 1
      ensures res == Leaf(BringOf(client)(old(client.calls), RequestFor(block, r)))
    {
      var answer := client.Answer(RequestFor(block, r));
      match answer
      case None => res := Err(Unanswered);
      case Some(Success(FeltText(f))) => res := Ok(f);
      case Some(Success(_)) => res := Err(NotAFelt);
      case Some(Error(code, _)) => res := if code == CONTRACT_NOT_FOUND then Ok(0) else Err(Refused(code));
    }

    // A leaf comes from the table, or from one query.
    method GetStorageAt(a: Felt, k: Felt) returns (res: Result<Felt, ReadError>)
      requires Valid()
      modifies this`prefetchHits, client
      ensures Valid()
      ensures res == ServeOne(BringOf(client), block, Prefetches(), Storage(a, k), old(client.calls))
      ensures if (a, k) in storage then res == Ok(storage[(a, k)])
              else IsLeaf(client.Outcome(old(client.calls), StorageAt(block, a, k)), res)
      ensures if (a, k) in storage
              then client.calls == old(client.calls) && prefetchHits == old(prefetchHits) + 1
              else client.calls == old(client.calls) + 1 && prefetchHits == old(prefetchHits)
    {
      if (a, k) in storage {
        prefetchHits := prefetchHits + 1;
        return Ok(storage[(a, k)]);
      }
      res := AskLeaf(Storage(a, k));
    }

    method GetNonceAt(a: Felt) returns (res: Result<Felt, ReadError>)
      requires Valid()
      modifies this`prefetchHits, client
      ensures Valid()
      ensures res == ServeOne(BringOf(client), block, Prefetches(), Nonce(a), old(client.calls))
      ensures if a in nonces then res == Ok(nonces[a])
              else IsLeaf(client.Outcome(old(client.calls), NonceAt(block, a)), res)
      ensures if a in nonces
              then client.calls == old(client.calls) && prefetchHits == old(prefetchHits) + 1
              else client.calls == old(client.calls) + 1 && prefetchHits == old(prefetchHits)
    {
      if a in nonces {
        prefetchHits := prefetchHits + 1;
        return Ok(nonces[a]);
      }
      res := AskLeaf(Nonce(a));
    }

    method GetClassHashAt(a: Felt) returns (res: Result<Felt, ReadError>)
      requires Valid()
      modifies this`prefetchHits, client
      ensures Valid()
      ensures res == ServeOne(BringOf(client), block, Prefetches(), ClassHash(a), old(client.calls))
      ensures if a in classHashes then res == Ok(classHashes[a])
              else IsLeaf(client.Outcome(old(client.calls), ClassHashAt(block, a)), res)
      ensures if a in classHashes
              then client.calls == old(client.calls) && prefetchHits == old(prefetchHits) + 1
              else client.calls == old(client.calls) + 1 && prefetchHits == old(prefetchHits)
    {
      if a in classHashes {
        prefetchHits := prefetchHits + 1;
        return Ok(classHashes[a]);
      }
      res := AskLeaf(ClassHash(a));
    }

    method Get(r: Read) returns (res: Result<Felt, ReadError>)
      requires Valid()
      modifies this`prefetchHits, client
      ensures Valid()
      ensures res == ServeOne(BringOf(client), block, Prefetches(), r, old(client.calls))
      ensures if Held(Prefetches(), r).Some?
              then client.calls == old(client.calls) && prefetchHits == old(prefetchHits) + 1
              else client.calls == old(client.calls) + 1 && prefetchHits == old(prefetchHits)
    {
      match r
      case Storage(a, k) => res := GetStorageAt(a, k);
      case Nonce(a) => res := GetNonceAt(a);
      case ClassHash(a) => res := GetClassHashAt(a);
    }

    // Any sequence of reads.
    method GetAll(rs: seq<Read>) returns (res: seq<Result<Felt, ReadError>>)
      requires Valid()
      modifies this`prefetchHits, client
      ensures Valid() && res == Serve(BringOf(client), block, Prefetches(), rs, old(client.calls), |rs|)
      ensures prefetchHits - old(prefetchHits) + client.calls - old(client.calls) == |rs|
    {
      res := [];
      ghost var bring, t, start, hits := BringOf(client), Prefetches(), client.calls, prefetchHits;
      for n := 0 to |rs|
        invariant Valid() && Prefetches() == t
        invariant ServedSo(bring, block, t, rs, start, hits, n, res, client.calls, prefetchHits)
      {
        ghost var calls := client.calls;
        var one := Get(rs[n]);
        ServedMore(bring, block, t, rs, start, hits, n, res, calls, one);
        res := res + [one];
      }
    }

    // `prefetch`: the table is filled from the first simulation the node does not refuse.
    method Prefetch(bodies: seq<Tx>) returns (simulated: nat, skipped: nat)
      requires Valid()
      modifies this`storage, this`nonces, this`classHashes, client
      ensures Valid()
      ensures simulated == |Submitted(bodies, |bodies|)| && simulated + skipped == |bodies|
      ensures Prefetches() ==
        Prefetched(BringOf(client), block, old(Prefetches()), Submitted(bodies, |bodies|), old(client.calls))
    {
      var txs: seq<Tx> := [];
      skipped := 0;
      for n := 0 to |bodies|
        invariant txs == Submitted(bodies, n) && |txs| + skipped == n
      {
        if Simulated(bodies[n]) {
          txs := txs + [bodies[n]];
        } else {
          skipped := skipped + 1;
        }
      }
      simulated := |txs|;
      if txs == [] {
        return;
      }
      var all := AttemptBatches(FLAGS, txs);
      var t := Prefetches();
      t := FillTable(t, all);
      storage, nonces, classHashes := t.storage, t.nonces, t.classHashes;
    }

    method Attempt(txs: seq<Tx>, flags: seq<string>) returns (r: Option<InitialReads>)
      requires Valid()
      modifies client
      ensures Valid() && client.calls == old(client.calls) + 1
      ensures r == ReadsIn(BringOf(client)(old(client.calls), Simulate(block, txs, flags)))
    {
      var answer := client.Answer(Simulate(block, txs, flags));
      match answer
      case Some(Success(Simulation(initial))) => r := initial;
      case _ => r := None;
    }

    method AttemptBatches(flags: seq<string>, txs: seq<Tx>) returns (all: seq<InitialReads>)
      requires Valid()
      modifies client
      ensures Valid() && all == WholeBatch(BringOf(client), block, flags, txs, old(client.calls), 0)
    {
      ghost var bring, start := BringOf(client), client.calls;
      var relaxed := 0;
      while relaxed < |flags|
        invariant 0 <= relaxed <= |flags| && Valid() && client.calls == start + relaxed
        invariant WholeBatch(bring, block, flags, txs, start, 0) ==
          WholeBatch(bring, block, flags, txs, client.calls, relaxed)
      {
        var r := Attempt(txs, flags[..relaxed + 1]);
        if r.Some? {
          return [r.value];
        }
        relaxed := relaxed + 1;
      }
      all := AttemptSingles(flags, txs);
    }

    method AttemptSingles(flags: seq<string>, txs: seq<Tx>) returns (all: seq<InitialReads>)
      requires Valid()
      modifies client
      ensures Valid() && all == Singles(BringOf(client), block, flags, txs, old(client.calls), |txs|)
    {
      all := [];
      for n := 0 to |txs|
        invariant Valid() && client.calls == old(client.calls) + n
        invariant all == Singles(BringOf(client), block, flags, txs, old(client.calls), n)
      {
        var r := Attempt([txs[n]], flags);
        if r.Some? {
          all := all + [r.value];
        }
      }
    }

    method ClassRecord(hash: Felt) returns (res: Result<Class, ReadError>)
      requires Valid()
      modifies this`classes, client
      ensures Valid()
      ensures hash in old(classes) ==>
        res == Ok(old(classes)[hash]) && classes == old(classes) && client.calls == old(client.calls)
      ensures hash !in old(classes) ==>
        && res == ClassOf(compile, hash, BringOf(client)(old(client.calls), GetClass(block, hash)))
        && client.calls == old(client.calls) + 1
        && classes == if res.Ok? then old(classes)[hash := res.value] else old(classes)
    {
      if hash in classes {
        return Ok(classes[hash]);
      }
      var answer := client.Answer(GetClass(block, hash));
      match answer
      case None => res := Err(Unanswered);
      case Some(Error(code, _)) =>
        res := if code == CLASS_HASH_NOT_FOUND then Err(Undeclared(hash)) else Err(Refused(code));
      case Some(Success(v)) =>
        if v.Definition? && compile(v.definition) {
          var class_ := Class(hash, v.definition);
          classes := classes[hash := class_];
          res := Ok(class_);
        } else {
          res := Err(NotAClass);
        }
    }

    // Any sequence of class requests.
    method ClassRecords(hashes: seq<Felt>) returns (res: seq<Result<Class, ReadError>>)
      requires Valid()
      modifies this`classes, client
      ensures Valid()
      ensures var run := ServeClasses(BringOf(client), compile, block, old(classes), hashes, old(client.calls),
        |hashes|);
        res == run.answers && classes == run.classes && client.calls == old(client.calls) + run.calls
    {
      res := [];
      ghost var bring, held, start := BringOf(client), classes, client.calls;
      ghost var run := ClassRun([], held, 0);
      for n := 0 to |hashes|
        invariant Valid() && run == ServeClasses(bring, compile, block, held, hashes, start, n)
        invariant res == run.answers && classes == run.classes && client.calls == start + run.calls
      {
        var one := ClassRecord(hashes[n]);
        res := res + [one];
        run := ServedNext(bring, compile, block, run, hashes[n], start, one, classes, client.calls);
      }
    }

    // The class a block's own DECLARE declares: read at that block, and never cached.
    method DeclaredClassRecord(hash: Felt) returns (res: Result<Class, ReadError>)
      requires Valid()
      modifies client
      ensures Valid() && client.calls == old(client.calls) + 1
      ensures var o := BringOf(client)(old(client.calls), GetClass(block + 1, hash));
        if ClassOf(compile, hash, o) == Err(Undeclared(hash)) then res == Err(Refused(CLASS_HASH_NOT_FOUND))
        else res == ClassOf(compile, hash, o)
    {
      var answer := client.Answer(GetClass(block + 1, hash));
      match answer
      case None => res := Err(Unanswered);
      case Some(Error(code, _)) => res := Err(Refused(code));
      case Some(Success(v)) =>
        res := if v.Definition? && compile(v.definition) then Ok(Class(hash, v.definition)) else Err(NotAClass);
    }
  }

  // The answer is what the read's own query of the block gives.
  ghost predicate OwnLeaf(oracle: Request -> Outcome, block: nat, r: Read, res: Result<Felt, ReadError>) {
    match r
    case Storage(a, k) => IsLeaf(oracle(StorageAt(block, a, k)), res)
    case Nonce(a) => IsLeaf(oracle(NonceAt(block, a)), res)
    case ClassHash(a) => IsLeaf(oracle(ClassHashAt(block, a)), res)
  }

  lemma {:induction false} ServedOwn(bring: Bring, oracle: Request -> Outcome, block: nat, t: Table, rs: seq<Read>,
          call: nat)
    requires Steady(bring, oracle) && Agrees(oracle, block, t)
    ensures forall i :: 0 <= i < |rs| ==> OwnLeaf(oracle, block, rs[i], Serve(bring, block, t, rs, call, |rs|)[i])
  {
    ServedLeaves(bring, oracle, block, t, rs, call, |rs|);
    forall i | 0 <= i < |rs| ensures OwnLeaf(oracle, block, rs[i], Serve(bring, block, t, rs, call, |rs|)[i]) {
      LeafIsOwn(oracle, block, rs[i]);
    }
  }

  lemma {:induction false} LeafIsOwn(oracle: Request -> Outcome, block: nat, r: Read)
    ensures OwnLeaf(oracle, block, r, Leaf(oracle(RequestFor(block, r))))
  {
  }

  // A reader that prefetches a block's transactions and then serves reads, against a node that answers
  // honestly and by the request alone: whatever was simulated, each read gets its leaf's own answer.
  method PrefetchThenRead(state: RpcState, bodies: seq<Tx>, rs: seq<Read>, ghost oracle: Request -> Outcome)
    returns (res: seq<Result<Felt, ReadError>>)
    requires state.Valid() && Steady(BringOf(state.client), oracle) && Honest(oracle, state.block)
    requires Agrees(oracle, state.block, state.Prefetches())
    modifies state`storage, state`nonces, state`classHashes, state`prefetchHits, state.client
    ensures state.Valid() && |res| == |rs|
    ensures forall i :: 0 <= i < |rs| ==> OwnLeaf(oracle, state.block, rs[i], res[i])
  {
    ghost var bring, held, call := BringOf(state.client), state.Prefetches(), state.client.calls;
    var simulated, skipped := state.Prefetch(bodies);
    PrefetchAgrees(bring, oracle, state.block, held, Submitted(bodies, |bodies|), call);
    ServedOwn(bring, oracle, state.block, state.Prefetches(), rs, state.client.calls);
    res := state.GetAll(rs);
  }
}
