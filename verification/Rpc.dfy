// The JSON-RPC client: one answer per request, a transcript of the answers, and its replay
// (onchain/src/rpc.rs).
module Rpc {
  import opened Common

  const CONTRACT_NOT_FOUND := 20
  const CLASS_HASH_NOT_FOUND := 28

  // An answered body, as it is kept: the result member, or the error member.
  datatype Body<V> = Returned(value: V) | Failed(code: Option<int>, message: Option<string>)

  datatype Answer<V> = Success(value: V) | Error(code: int, message: string)

  function Classified<V>(b: Body<V>): Answer<V> {
    match b
    case Returned(v) => Success(v)
    case Failed(code, message) =>
      Error(if code.Some? then code.value else 0, if message.Some? then message.value else "")
  }

  // What one HTTP attempt brings: an envelope, a reply that is no JSON, a refusal with a status and
  // possibly an envelope, or nothing.
  datatype Envelope<V> = Envelope(result: Option<V>, error: Option<(Option<int>, Option<string>)>)
  datatype Attempt<V> =
    | Reply(envelope: Envelope<V>)
    | NotJson
    | Status(status: nat, refusal: Option<Envelope<V>>)
    | Unreachable

  function Kept<V>(e: Envelope<V>): Option<Body<V>> {
    if e.result.Some? then Some(Returned(e.result.value))
    else if e.error.Some? then Some(Failed(e.error.value.0, e.error.value.1))
    else None
  }

  // Whether an attempt ends the retries, and with which envelope.
  predicate Final<V>(a: Attempt<V>) {
    match a
    case Reply(_) => true
    case NotJson => true
    case Status(status, refusal) => refusal.Some? && refusal.value.error.Some? && status != 429
    case Unreachable => false
  }

  function FinalBody<V>(a: Attempt<V>): Option<Body<V>>
    requires Final(a)
  {
    match a
    case Reply(e) => Kept(e)
    case NotJson => None
    case Status(_, refusal) => Kept(refusal.value)
  }

  const RETRIES := 12

  // A node: what it brings for a request at a given call of the run and a given attempt.
  type Node<!K, V> = (nat, K, nat) -> Attempt<V>

  // The first final attempt decides; without one there is no answer.
  function Asked<K, V>(node: Node<K, V>, call: nat, key: K, attempt: nat): Option<Body<V>>
    decreases RETRIES - attempt
  {
    if attempt > RETRIES then None
    else if Final(node(call, key, attempt)) then FinalBody(node(call, key, attempt))
    else Asked(node, call, key, attempt + 1)
  }

  // ---- What an answer is ----------------------------------------------------------------

  // An attempt that another follows: nothing came, or a refusal for too many requests or without an error of
  // the node's own.
  predicate Retried<V>(a: Attempt<V>) {
    match a
    case Unreachable => true
    case Status(status, refusal) => status == 429 || refusal == None || refusal.value.error == None
    case _ => false
  }

  // What an envelope says: its result, or else its error, whose code is 0 and whose message is empty when
  // they are missing, or else nothing.
  predicate Says<V(==)>(e: Envelope<V>, answer: Option<Answer<V>>) {
    if e.result.Some? then answer == Some(Success(e.result.value))
    else if e.error.Some? then
      && answer.Some? && answer.value.Error?
      && answer.value.code == (if e.error.value.0 == None then 0 else e.error.value.0.value)
      && answer.value.message == (if e.error.value.1 == None then "" else e.error.value.1.value)
    else answer == None
  }

  // A live request is answered by the first attempt of thirteen that no other follows.
  lemma {:induction false} FirstAttemptAnswers<K, V>(node: Node<K, V>, call: nat, key: K, n: nat)
    requires n <= 12 && !Retried(node(call, key, n)) && forall j: nat :: j < n ==> Retried(node(call, key, j))
    ensures var answer: Option<Answer<V>> := Seen(Asked(node, call, key, 0));
      match node(call, key, n)
      case Reply(e) => Says(e, answer)
      case Status(_, refusal) => refusal.Some? && Says(refusal.value, answer)
      case _ => answer == None
  {
    AskedFrom(node, call, key, 0, n);
  }

  lemma {:induction false} AskedFrom<K, V>(node: Node<K, V>, call: nat, key: K, from: nat, n: nat)
    requires from <= n <= RETRIES + 1 && forall j: nat :: from <= j < n ==> Retried(node(call, key, j))
    ensures Asked(node, call, key, from) == Asked(node, call, key, n)
    decreases n - from
  {
    if from < n {
      assert Retried(node(call, key, from));
      AskedFrom(node, call, key, from + 1, n);
    }
  }

  // Without one there is no answer.
  lemma {:induction false} NoAttemptAnswers<K, V>(node: Node<K, V>, call: nat, key: K)
    requires forall j: nat :: j <= 12 ==> Retried(node(call, key, j))
    ensures Asked(node, call, key, 0) == None
  {
    AskedFrom(node, call, key, 0, RETRIES + 1);
  }

  // ---- Sessions -------------------------------------------------------------------------

  // The requests made and what each brought.
  datatype Session<K, V> = Session(keys: seq<K>, outcomes: seq<Option<Body<V>>>) {
    ghost predicate Valid() {
      |keys| == |outcomes|
    }

    function With(key: K, outcome: Option<Body<V>>): Session<K, V> {
      Session(keys + [key], outcomes + [outcome])
    }
  }

  function Seen<V>(outcome: Option<Body<V>>): Option<Answer<V>> {
    match outcome
    case None => None
    case Some(b) => Some(Classified(b))
  }

  function Answers<V>(outcomes: seq<Option<Body<V>>>): (r: seq<Option<Answer<V>>>)
    ensures |r| == |outcomes| && forall i :: 0 <= i < |r| ==> r[i] == Seen(outcomes[i])
  {
    seq(|outcomes|, i requires 0 <= i < |outcomes| => Seen(outcomes[i]))
  }

  // Every answer of the session by its request, the last one winning.
  function Transcript<K, V>(s: Session<K, V>, n: nat): map<K, Body<V>>
    requires s.Valid() && n <= |s.keys|
  {
    if n == 0 then map[]
    else if s.outcomes[n - 1].Some? then Transcript(s, n - 1)[s.keys[n - 1] := s.outcomes[n - 1].value]
    else Transcript(s, n - 1)
  }

  function Lookup<K, V>(t: map<K, Body<V>>, key: K): Option<Body<V>> {
    if key in t then Some(t[key]) else None
  }

  // The client object: `answer` counts every call, and keeps every answer unless it replays.
  class Client<K(==), V> {
    const node: Node<K, V>
    const replay: Option<map<K, Body<V>>>
    var transcript: map<K, Body<V>>
    var calls: nat
    ghost var session: Session<K, V>

    ghost predicate Valid()
      reads this
    {
      && session.Valid() && calls == |session.keys|
      && transcript == if replay.None? then Transcript(session, |session.keys|) else map[]
    }

    // What the client brings for a request made as its next call.
    function Outcome(call: nat, key: K): Option<Body<V>> {
      if replay.Some? then Lookup(replay.value, key) else Asked(node, call, key, 0)
    }

    constructor Live(node: Node<K, V>)
      ensures Valid() && this.node == node && replay == None && session == Session([], [])
    {
      this.node := node;
      replay := None;
      transcript := map[];
      calls := 0;
      session := Session([], []);
    }

    constructor Replaying(node: Node<K, V>, answers: map<K, Body<V>>)
      ensures Valid() && replay == Some(answers) && session == Session([], [])
    {
      this.node := node;
      replay := Some(answers);
      transcript := map[];
      calls := 0;
      session := Session([], []);
    }

    // None stands for the error the original returns: unanswered, or not in the transcript.
    method Answer(key: K) returns (r: Option<Answer<V>>)
      requires Valid()
      modifies this
      ensures Valid() && calls == old(calls) + 1
      ensures session == old(session).With(key, Outcome(old(calls), key))
      ensures r == Seen(Outcome(old(calls), key))
    {
      ghost var call := calls;
      ghost var before := session;
      calls := calls + 1;
      var body: Option<Body<V>> := None;
      if replay.Some? {
        body := Lookup(replay.value, key);
      } else {
        var attempt := 0;
        var got: Option<Attempt<V>> := None;
        while attempt <= RETRIES && got == None
          invariant got == None ==> Asked(node, call, key, 0) == Asked(node, call, key, attempt)
          invariant got.Some? ==> Final(got.value) && Asked(node, call, key, 0) == FinalBody(got.value)
          decreases RETRIES - attempt, got == None
        {
          var a := node(calls - 1, key, attempt);
          if Final(a) {
            got := Some(a);
          }
          attempt := attempt + 1;
        }
        if got.Some? {
          body := FinalBody(got.value);
        }
        if body.Some? {
          transcript := transcript[key := body.value];
        }
      }
      session := session.With(key, body);
      TranscriptOf(before, session, key, body);
      r := Seen(body);
    }
  }

  lemma {:induction false} TranscriptAgrees<K, V>(s: Session<K, V>, t: Session<K, V>, n: nat)
    requires s.Valid() && t.Valid() && n <= |s.keys| && n <= |t.keys|
    requires forall i :: 0 <= i < n ==> s.keys[i] == t.keys[i] && s.outcomes[i] == t.outcomes[i]
    ensures Transcript(s, n) == Transcript(t, n)
  {
    if n > 0 {
      TranscriptAgrees(s, t, n - 1);
    }
  }

  lemma {:induction false} TranscriptOf<K, V>(s: Session<K, V>, t: Session<K, V>, key: K, outcome: Option<Body<V>>)
    requires s.Valid() && t == s.With(key, outcome)
    ensures t.Valid() && Transcript(t, |t.keys|) ==
      if outcome.Some? then Transcript(s, |s.keys|)[key := outcome.value] else Transcript(s, |s.keys|)
  {
    TranscriptAgrees(s, t, |s.keys|);
  }

  // ---- A run and its replay -------------------------------------------------------------

  // A client program: from the answers it has seen, its next request, or none.
  type Program<K, !V> = seq<Option<Answer<V>>> -> Option<K>

  // The session of a program's first `n` requests, each answered by `bring`.
  function Run<K, V>(bring: (nat, K) -> Option<Body<V>>, next: Program<K, V>, n: nat): (s: Session<K, V>)
    ensures s.Valid() && |s.keys| <= n
  {
    if n == 0 then Session([], [])
    else
      var s := Run(bring, next, n - 1);
      match next(Answers(s.outcomes))
      case None => s
      case Some(key) => s.With(key, bring(|s.keys|, key))
  }

  // What a replay of a transcript brings, whatever the call.
  function Replay<K, V>(t: map<K, Body<V>>): (nat, K) -> Option<Body<V>> {
    (call: nat, key: K) => Lookup(t, key)
  }

  // The node answers the session's requests consistently: the same request, the same answer.
  ghost predicate Consistent<K, V>(s: Session<K, V>)
    requires s.Valid()
  {
    forall i, j :: 0 <= i < j < |s.keys| && s.keys[i] == s.keys[j] ==> Seen(s.outcomes[i]) == Seen(s.outcomes[j])
  }

  // The transcript's answer to a request is that of the last time it was answered.
  lemma {:induction false} TranscriptLast<K, V>(s: Session<K, V>, n: nat, key: K)
    requires s.Valid() && n <= |s.keys|
    ensures key in Transcript(s, n) <==> exists i :: 0 <= i < n && s.keys[i] == key && s.outcomes[i].Some?
    ensures key in Transcript(s, n) ==>
      exists i :: 0 <= i < n && s.keys[i] == key && s.outcomes[i] == Some(Transcript(s, n)[key])
  {
    if n > 0 {
      TranscriptLast(s, n - 1, key);
    }
  }

  // On a consistent session the transcript answers each request as it was answered.
  lemma {:induction false} ConsistentTranscript<K, V>(s: Session<K, V>, i: nat)
    requires s.Valid() && Consistent(s) && i < |s.keys|
    ensures Seen(Lookup(Transcript(s, |s.keys|), s.keys[i])) == Seen(s.outcomes[i])
  {
    var t := Transcript(s, |s.keys|);
    TranscriptLast(s, |s.keys|, s.keys[i]);
    if s.keys[i] in t {
      var j :| 0 <= j < |s.keys| && s.keys[j] == s.keys[i] && s.outcomes[j] == Some(t[s.keys[i]]);
      assert i < j || i == j || j < i;
    }
  }

  ghost predicate Prefix<K, V>(s: Session<K, V>, t: Session<K, V>) {
    s.keys <= t.keys && s.outcomes <= t.outcomes
  }

  lemma {:induction false} RunGrows<K, V>(bring: (nat, K) -> Option<Body<V>>, next: Program<K, V>, m: nat, n: nat)
    requires m <= n
    ensures Prefix(Run(bring, next, m), Run(bring, next, n))
    decreases n
  {
    if m < n {
      RunGrows(bring, next, m, n - 1);
    }
  }

  ghost predicate SameAnswers<K, V>(s: Session<K, V>, t: Session<K, V>) {
    s.keys == t.keys && Answers(s.outcomes) == Answers(t.outcomes)
  }

  lemma {:induction false} ReplayFollows<K, V>(bring: (nat, K) -> Option<Body<V>>, next: Program<K, V>, m: nat, n: nat)
    requires m <= n && Consistent(Run(bring, next, n))
    ensures var whole := Run(bring, next, n);
      SameAnswers(Run(Replay(Transcript(whole, |whole.keys|)), next, m), Run(bring, next, m))
    decreases m
  {
    if m > 0 {
      ReplayFollows(bring, next, m - 1, n);
      var whole, was, now := Run(bring, next, n), Run(bring, next, m - 1), Run(bring, next, m);
      RunGrows(bring, next, m, n);
      var t := Transcript(whole, |whole.keys|);
      var again := Run(Replay(t), next, m - 1);
      match next(Answers(was.outcomes))
      case None =>
      case Some(key) =>
        var k := |was.keys|;
        assert whole.keys[k] == now.keys[k] == key && whole.outcomes[k] == now.outcomes[k];
        ConsistentTranscript(whole, k);
        assert Seen(Lookup(t, key)) == Seen(now.outcomes[k]);
        AnswersWith(again, was, key, Lookup(t, key), now.outcomes[k]);
    }
  }

  lemma {:induction false} AnswersWith<K, V>(s: Session<K, V>, t: Session<K, V>, key: K, a: Option<Body<V>>,
          b: Option<Body<V>>)
    requires SameAnswers(s, t) && Seen(a) == Seen(b)
    ensures SameAnswers(s.With(key, a), t.With(key, b))
  {
    forall i | 0 <= i < |s.outcomes| + 1
      ensures Answers(s.With(key, a).outcomes)[i] == Answers(t.With(key, b).outcomes)[i]
    {
      if i < |s.outcomes| {
        assert Answers(s.outcomes)[i] == Answers(t.outcomes)[i];
      }
    }
  }

  // Everything a replay brings is what its transcript holds.
  lemma {:induction false} ReplayedFrom<K, V>(t: map<K, Body<V>>, next: Program<K, V>, n: nat)
    ensures forall i :: 0 <= i < |Run(Replay(t), next, n).keys| ==>
      Run(Replay(t), next, n).outcomes[i] == Lookup(t, Run(Replay(t), next, n).keys[i])
  {
    if n > 0 {
      ReplayedFrom(t, next, n - 1);
    }
  }

  // Replaying a run's transcript under the same program gives the same requests and the same answers
  // exactly when the node had answered the run's requests consistently.
  lemma {:induction false} ReplayIff<K, V>(bring: (nat, K) -> Option<Body<V>>, next: Program<K, V>, n: nat)
    ensures var whole := Run(bring, next, n);
      SameAnswers(Run(Replay(Transcript(whole, |whole.keys|)), next, n), whole) <==> Consistent(whole)
  {
    var whole := Run(bring, next, n);
    var t := Transcript(whole, |whole.keys|);
    var again := Run(Replay(t), next, n);
    if Consistent(whole) {
      ReplayFollows(bring, next, n, n);
    }
    if SameAnswers(again, whole) {
      ReplayedFrom(t, next, n);
      forall i, j | 0 <= i < j < |whole.keys| && whole.keys[i] == whole.keys[j]
        ensures Seen(whole.outcomes[i]) == Seen(whole.outcomes[j])
      {
        assert Answers(again.outcomes)[i] == Answers(whole.outcomes)[i];
        assert Answers(again.outcomes)[j] == Answers(whole.outcomes)[j];
      }
    }
  }

  // A replay of a consistent run refuses exactly the requests the run got no answer to.
  lemma {:induction false} NoneRefused<K, V>(bring: (nat, K) -> Option<Body<V>>, next: Program<K, V>, n: nat, i: nat)
    requires Consistent(Run(bring, next, n)) && i < |Run(bring, next, n).keys|
    ensures var whole := Run(bring, next, n);
      var again := Run(Replay(Transcript(whole, |whole.keys|)), next, n);
      && |again.keys| == |whole.keys|
      && (again.outcomes[i].Some? <==> whole.outcomes[i].Some?)
  {
    var whole := Run(bring, next, n);
    var again := Run(Replay(Transcript(whole, |whole.keys|)), next, n);
    ReplayFollows(bring, next, n, n);
    assert Answers(again.outcomes)[i] == Answers(whole.outcomes)[i];
  }

  lemma {:induction false} SameBring<K, V>(a: (nat, K) -> Option<Body<V>>, b: (nat, K) -> Option<Body<V>>,
          next: Program<K, V>, n: nat)
    requires forall call: nat, key: K :: a(call, key) == b(call, key)
    ensures Run(a, next, n) == Run(b, next, n)
  {
    if n > 0 {
      SameBring(a, b, next, n - 1);
      var s := Run(a, next, n - 1);
      match next(Answers(s.outcomes))
      case None =>
      case Some(key) =>
        assert a(|s.keys|, key) == b(|s.keys|, key);
    }
  }

  // What a client brings, as a function of the call and the request.
  function Brings<K, V>(client: Client<K, V>): (nat, K) -> Option<Body<V>> {
    (call: nat, key: K) => client.Outcome(call, key)
  }

  // A program's first `n` requests, made through a new client.
  method Drive<K(==), V>(client: Client<K, V>, next: Program<K, V>, n: nat) returns (seen: seq<Option<Answer<V>>>)
    requires client.Valid() && client.session == Session([], [])
    modifies client
    ensures client.Valid() && client.session == Run(Brings(client), next, n)
    ensures seen == Answers(client.session.outcomes)
  {
    seen := [];
    for i := 0 to n
      invariant client.Valid() && client.session == Run(Brings(client), next, i)
      invariant seen == Answers(client.session.outcomes)
    {
      match next(seen)
      case None =>
      case Some(key) =>
        ghost var before := client.session;
        var r := client.Answer(key);
        seen := seen + [r];
        assert client.session.outcomes == before.outcomes + [Brings(client)(|before.keys|, key)];
    }
  }

  // Recording a run and replaying its transcript.
  method RecordThenReplay<K(==), V>(node: Node<K, V>, next: Program<K, V>, n: nat)
    returns (live: Client<K, V>, again: Client<K, V>)
    ensures live.session == Run(Brings(live), next, n) && live.replay == None && live.node == node
    ensures again.replay == Some(live.transcript)
    ensures live.session.Valid() && again.session.Valid()
    ensures SameAnswers(again.session, live.session) <==> Consistent(live.session)
  {
    live := new Client.Live(node);
    var seen := Drive(live, next, n);
    again := new Client.Replaying(node, live.transcript);
    var same := Drive(again, next, n);
    var t := Transcript(live.session, |live.session.keys|);
    SameBring(Brings(again), Replay(t), next, n);
    ReplayIff(Brings(live), next, n);
  }
}
