/** What clients and operators of the server can rely on after any run. */
module RpcTheorems {
  import opened Strings
  import opened RpcPool
  import opened RpcCodec
  import opened RpcProtocol
  import opened RpcSteps

  /** The ids of the headers a connection read, in order. */
  function HeaderIds(events: seq<Event>, c: nat): seq<Id> {
    if events == [] then []
    else
      var before, e := HeaderIds(events[..|events| - 1], c), events[|events| - 1];
      if e.ReadHeader? && e.c == c then before + [e.id] else before
  }

  ghost predicate SameIds(log: seq<Ticket>, ids: seq<Id>) {
    |log| == |ids| && forall k :: 0 <= k < |log| ==> log[k].id == ids[k]
  }

  lemma StepLogs(s: State, s': State, e: Event, c: nat, ids: seq<Id>)
    requires Step(s, e) == Some(s') && c in s'.conns
    requires if c in s.conns then SameIds(s.conns[c].log, ids) else ids == []
    ensures SameIds(s'.conns[c].log, if e.ReadHeader? && e.c == c then ids + [e.id] else ids)
  {
  }

  lemma NotBorn(s: State, s': State, e: Event, c: nat)
    requires Step(s, e) == Some(s') && c !in s'.conns
    ensures c !in s.conns && !(e.ReadHeader? && e.c == c)
  {
  }

  /** The history of a connection is what its events say. */
  lemma {:induction false} LogIsHeaders(events: seq<Event>, s: State, c: nat)
    requires Run(events) == Some(s)
    ensures if c in s.conns then SameIds(s.conns[c].log, HeaderIds(events, c)) else HeaderIds(events, c) == []
    decreases |events|
  {
    hide Step, SameIds;
    if events == [] {
    } else {
      var e := events[|events| - 1];
      var before := Run(events[..|events| - 1]).value;
      LogIsHeaders(events[..|events| - 1], before, c);
      if c in s.conns {
        StepLogs(before, s, e, c, HeaderIds(events[..|events| - 1], c));
      } else {
        NotBorn(before, s, e, c);
      }
    }
  }

  predicate Decides(s: State, e: Event, c: nat, k: nat) {
    match e
    case Call(t, _) => t in s.tasks && s.tasks[t].conn == c && s.tasks[t].ticket == k
    case Reject(c', _, _) => c' == c && c in s.conns && s.conns[c].reader.HasHeader? && s.conns[c].reader.ticket == k
    case _ => false
  }

  function Decision(e: Event): Outcome
    requires e.Call? || e.Reject?
  {
    match e
    case Call(_, outcome) => outcome
    case Reject(_, _, text) => Outcome(INVALID_REQUEST, Some(text))
  }

  /** What the events say the request under number `k` of a connection came to: what its handler
      returned, or the error it was rejected with. */
  function OutcomeGiven(events: seq<Event>, c: nat, k: nat): Option<Outcome> {
    if events == [] then None
    else
      var front, e := events[..|events| - 1], events[|events| - 1];
      match Run(front)
      case None => None
      case Some(s) => if Decides(s, e, c, k) then Some(Decision(e)) else OutcomeGiven(front, c, k)
  }

  lemma DispatchDecides(s: State, s': State, d: nat, t: nat, reader: Reader, stage: Stage, outcome: Option<Outcome>, c: nat, k: nat)
    requires Inv(s) && DoDispatch(s, d, t, reader, stage, outcome) == Some(s') && c in s.conns && InLog(s.conns[c].log, k)
    ensures d in s.conns && c in s'.conns && s.conns[d].reader.HasHeader?
    ensures TicketAt(s'.conns[c].log, k).outcome ==
            if d == c && s.conns[c].reader.ticket == k then outcome else TicketAt(s.conns[c].log, k).outcome
    ensures d == c && s.conns[c].reader.ticket == k ==> TicketAt(s.conns[c].log, k).outcome.None?
  {
    hide PoolsOk, TaskOk, ConnOk, Mark, TicketAt, LedgerOk, OutputOk, TicketOk;
    InvParts(s);
    ConnParts(s, d);
    var log, j := s.conns[d].log, s.conns[d].reader.ticket;
    MarkAt(log, j, TicketAt(log, j).(outcome := outcome, phase := AtTask(t)), k);
  }

  lemma CallDecides(s: State, s': State, t: nat, outcome: Outcome, c: nat, k: nat)
    requires DoCall(s, t, outcome) == Some(s') && c in s.conns && InLog(s.conns[c].log, k)
    ensures t in s.tasks && c in s'.conns
    ensures TicketAt(s'.conns[c].log, k).outcome ==
            if s.tasks[t].conn == c && s.tasks[t].ticket == k then Some(outcome) else TicketAt(s.conns[c].log, k).outcome
  {
    hide Mark, TicketAt;
    var log, j := s.conns[s.tasks[t].conn].log, s.tasks[t].ticket;
    MarkAt(log, j, TicketAt(log, j).(outcome := Some(outcome)), k);
  }

  lemma OthersDecideNothing(s: State, s': State, e: Event, c: nat, k: nat)
    requires Step(s, e) == Some(s') && c in s.conns && InLog(s.conns[c].log, k)
    requires !e.Spawn? && !e.Reject? && !e.Call?
    ensures c in s'.conns && TicketAt(s'.conns[c].log, k).outcome == TicketAt(s.conns[c].log, k).outcome
  {
  }

  lemma StepDecides(s: State, s': State, e: Event, c: nat, k: nat)
    requires Inv(s) && Step(s, e) == Some(s') && c in s.conns && c in s'.conns && InLog(s.conns[c].log, k)
    ensures TicketAt(s'.conns[c].log, k).outcome ==
            if Decides(s, e, c, k) then Some(Decision(e)) else TicketAt(s.conns[c].log, k).outcome
  {
    hide Inv, DoDispatch, DoCall, TicketAt;
    match e {
      case Spawn(d, t) =>
        DispatchDecides(s, s', d, t, Idle, Calling, None, c, k);
      case Reject(d, t, text) =>
        DispatchDecides(s, s', d, t, Waiting(t), Replied(Decision(e)), Some(Decision(e)), c, k);
      case Call(t, outcome) =>
        CallDecides(s, s', t, outcome, c, k);
      case _ =>
        OthersDecideNothing(s, s', e, c, k);
    }
  }

  lemma NewTicketIsOpen(s: State, s': State, e: Event, c: nat, k: nat)
    requires Step(s, e) == Some(s') && c in s'.conns && InLog(s'.conns[c].log, k)
    requires c in s.conns ==> !InLog(s.conns[c].log, k)
    ensures TicketAt(s'.conns[c].log, k).outcome.None? && !e.Call? && !e.Reject?
  {
  }

  lemma NotDecided(s: State, e: Event, c: nat, k: nat)
    requires Inv(s) && (c in s.conns ==> !InLog(s.conns[c].log, k))
    ensures !Decides(s, e, c, k)
  {
  }

  /** A rejected request came to an error with the text it was rejected with, a handled one to what
      its handler returned. */
  lemma DecisionMeaning(e: Event)
    ensures match e
            case Call(_, outcome) => Decision(e) == outcome
            case Reject(_, _, text) => Decision(e).error == Some(text)
            case _ => true
  {
  }

  lemma {:induction false} NothingGivenYet(events: seq<Event>, s: State, c: nat, k: nat)
    requires Run(events) == Some(s) && Bounded(s)
    requires c in s.conns ==> !InLog(s.conns[c].log, k)
    ensures OutcomeGiven(events, c, k) == None
    decreases |events|
  {
    if events != [] {
      var front, e := events[..|events| - 1], events[|events| - 1];
      var before := Run(front).value;
      hide Step, Inv, Bounded;
      BoundedBefore(before, s, e);
      RunKeeps(front, before);
      if c in before.conns {
        StepGrows(before, s, e, c);
      }
      NothingGivenYet(front, before, c, k);
      NotDecided(before, e, c, k);
    }
  }

  /** The outcome a connection remembers is the one the events gave. */
  lemma {:induction false} OutcomesAreEvents(events: seq<Event>, s: State, c: nat, k: nat)
    requires Run(events) == Some(s) && Bounded(s) && c in s.conns && InLog(s.conns[c].log, k)
    ensures TicketAt(s.conns[c].log, k).outcome == OutcomeGiven(events, c, k)
    decreases |events|
  {
    if events != [] {
      var front, e := events[..|events| - 1], events[|events| - 1];
      var before := Run(front).value;
      hide Step, Inv, Bounded;
      BoundedBefore(before, s, e);
      RunKeeps(front, before);
      if c in before.conns && InLog(before.conns[c].log, k) {
        OutcomesAreEvents(front, before, c, k);
        StepDecides(before, s, e, c, k);
      } else {
        NewTicketIsOpen(before, s, e, c, k);
        NothingGivenYet(front, before, c, k);
      }
    }
  }

  lemma OutputSays(log: seq<Ticket>, out: seq<Sent>, ids: seq<Id>, i: nat)
    requires OutputOk(log, out) && SameIds(log, ids) && i < |out|
    ensures InLog(log, out[i].answers) && 1 <= out[i].answers <= |ids|
    ensures match ids[out[i].answers - 1]
            case Some(raw) => out[i].response.id == raw
            case None => out[i].response.id == "null"
    ensures var outcome := TicketAt(log, out[i].answers).outcome;
            && outcome.Some?
            && out[i].response.body == match outcome.value.error
                                       case None => Result(outcome.value.reply)
                                       case Some("") => Result(INVALID_REQUEST)
                                       case Some(text) => Error(text)
  {
    assert Matches(TicketAt(log, out[i].answers), i, out[i]);
  }

  /** Every response written carries the id of the request it answers, and what the handler or
      the rejection of that very request came to: an error member exactly for a non-empty error
      text; an error with an empty text goes out as a result. */
  lemma AnswersCarryTheirIds(events: seq<Event>, s: State, c: nat, i: nat)
    requires Run(events) == Some(s) && Bounded(s) && c in s.conns && i < |s.conns[c].out|
    ensures var sent, ids := s.conns[c].out[i], HeaderIds(events, c);
            && 1 <= sent.answers <= |ids|
            && (match ids[sent.answers - 1]
                case Some(raw) => sent.response.id == raw
                case None => sent.response.id == "null")
            && var outcome := OutcomeGiven(events, c, sent.answers);
               && outcome.Some?
               && sent.response.body == match outcome.value.error
                                        case None => Result(outcome.value.reply)
                                        case Some("") => Result(INVALID_REQUEST)
                                        case Some(text) => Error(text)
  {
    hide *;
    RunKeeps(events, s);
    LogIsHeaders(events, s, c);
    InvParts(s);
    ConnParts(s, c);
    OutputSays(s.conns[c].log, s.conns[c].out, HeaderIds(events, c), i);
    OutcomesAreEvents(events, s, c, s.conns[c].out[i].answers);
  }

  lemma AnsweredOnce(log: seq<Ticket>, out: seq<Sent>, i: nat, j: nat)
    requires OutputOk(log, out) && i < |out| && j < |out|
    ensures out[i].answers == out[j].answers ==> i == j
  {
    assert Matches(TicketAt(log, out[i].answers), i, out[i]);
    assert Matches(TicketAt(log, out[j].answers), j, out[j]);
  }

  /** No request is answered twice. */
  lemma NoDoubleAnswer(events: seq<Event>, s: State, c: nat, i: nat, j: nat)
    requires Run(events) == Some(s) && Bounded(s) && c in s.conns && i < |s.conns[c].out| && j < |s.conns[c].out|
    requires s.conns[c].out[i].answers == s.conns[c].out[j].answers
    ensures i == j
  {
    hide *;
    RunKeeps(events, s);
    InvParts(s);
    ConnParts(s, c);
    AnsweredOnce(s.conns[c].log, s.conns[c].out, i, j);
  }

  lemma SameLength(log: seq<Ticket>, ids: seq<Id>)
    requires SameIds(log, ids)
    ensures |log| == |ids|
  {
  }

  lemma LedgerCounts(codec: Codec, log: seq<Ticket>, attempts: nat)
    requires LedgerOk(codec, log, attempts)
    ensures |log| == |codec.pending| + attempts
  {
  }

  lemma AnsweredIsClosed(codec: Codec, log: seq<Ticket>, out: seq<Sent>, attempts: nat, i: nat)
    requires LedgerOk(codec, log, attempts) && OutputOk(log, out) && i < |out|
    ensures InLog(log, out[i].answers) && out[i].answers !in codec.pending
  {
    assert Matches(TicketAt(log, out[i].answers), i, out[i]);
  }

  function UpTo(n: nat): (all: set<nat>)
    ensures |all| == n && forall k :: k in all ==> k <= n
  {
    if n == 0 then {} else UpTo(n - 1) + {n}
  }

  lemma {:induction false} InUpTo(n: nat, k: nat)
    ensures k in UpTo(n) <==> 1 <= k <= n
    decreases n
  {
    if n > 0 {
      InUpTo(n - 1, k);
    }
  }

  lemma {:induction false} CountSubset(a: set<nat>, b: set<nat>)
    requires a <= b
    ensures |a| <= |b|
    decreases |a|
  {
    if a != {} {
      var x :| x in a;
      CountSubset(a - {x}, b - {x});
    }
  }

  lemma {:induction false} CountDistinct(out: seq<Sent>, n: nat)
    requires n <= |out| && forall i, j :: 0 <= i < j < |out| ==> out[i].answers != out[j].answers
    ensures |set i | 0 <= i < n :: out[i].answers| == n
    decreases n
  {
    var all := set i | 0 <= i < n :: out[i].answers;
    if n == 0 {
      assert all == {};
    } else {
      var fewer := set i | 0 <= i < n - 1 :: out[i].answers;
      CountDistinct(out, n - 1);
      assert all == fewer + {out[n - 1].answers};
      assert out[n - 1].answers !in fewer;
    }
  }

  lemma PendingInLog(codec: Codec, log: seq<Ticket>, attempts: nat)
    requires LedgerOk(codec, log, attempts)
    ensures codec.pending.Keys <= UpTo(|log|)
  {
    forall k | k in codec.pending.Keys
      ensures k in UpTo(|log|)
    {
      assert Open(TicketAt(log, k).phase);
      InUpTo(|log|, k);
    }
  }

  lemma OutputBounded(codec: Codec, log: seq<Ticket>, out: seq<Sent>, attempts: nat)
    requires LedgerOk(codec, log, attempts) && OutputOk(log, out)
    ensures |out| <= attempts
  {
    var answered := set i | 0 <= i < |out| :: out[i].answers;
    forall i | 0 <= i < |out|
      ensures out[i].answers in UpTo(|log|) && out[i].answers !in codec.pending
    {
      AnsweredIsClosed(codec, log, out, attempts, i);
      InUpTo(|log|, out[i].answers);
    }
    forall i, j | 0 <= i < j < |out|
      ensures out[i].answers != out[j].answers
    {
      AnsweredOnce(log, out, i, j);
    }
    CountDistinct(out, |out|);
    PendingInLog(codec, log, attempts);
    LedgerCounts(codec, log, attempts);
    hide LedgerOk, OutputOk, UpTo;
    assert answered !! codec.pending.Keys;
    CountSubset(answered + codec.pending.Keys, UpTo(|log|));
  }

  predicate Serves(s: State, t: nat, c: nat) { t in s.tasks && s.tasks[t].conn == c }

  /** The responses a connection attempted in a run: how often an answer took its id out of
      `pending` and went to the encoder. */
  function Attempted(events: seq<Event>, c: nat): nat {
    if events == [] then 0
    else
      var front, e := events[..|events| - 1], events[|events| - 1];
      var before := Attempted(front, c);
      if Run(front).Some? && e.Take? && Serves(Run(front).value, e.t, c) then before + 1 else before
  }

  /** The responses written: the attempts whose encoding went well. */
  function Wrote(events: seq<Event>, c: nat): nat {
    if events == [] then 0
    else
      var front, e := events[..|events| - 1], events[|events| - 1];
      var before := Wrote(front, c);
      if Run(front).Some? && e.Emit? && e.ok && Serves(Run(front).value, e.t, c) then before + 1 else before
  }

  lemma StepCounts(s: State, s': State, e: Event, c: nat)
    requires Inv(s) && Step(s, e) == Some(s') && c in s'.conns
    ensures c in s.conns ==>
              && s'.conns[c].attempts == s.conns[c].attempts + (if e.Take? && Serves(s, e.t, c) then 1 else 0)
              && |s'.conns[c].out| == |s.conns[c].out| + (if e.Emit? && e.ok && Serves(s, e.t, c) then 1 else 0)
    ensures c !in s.conns ==> s'.conns[c].attempts == 0 == |s'.conns[c].out|
  {
    hide Inv, TicketAt, Mark;
    if e.Take? {
      hide DoTake;
      TakeEffect(s, s', e.t);
    }
  }

  /** Nobody serves a connection that is not there. */
  lemma NobodyServes(s: State, t: nat, c: nat)
    requires Inv(s) && Serves(s, t, c)
    ensures c in s.conns
  {
    hide Inv, ConnOk, PoolsOk, TaskOk;
    AliveParts(s, t);
  }

  /** Both counts of a connection are those of the run. */
  lemma {:induction false} CountsAreEvents(events: seq<Event>, s: State, c: nat)
    requires Run(events) == Some(s) && Bounded(s)
    ensures if c in s.conns then s.conns[c].attempts == Attempted(events, c) && |s.conns[c].out| == Wrote(events, c)
            else Attempted(events, c) == 0 == Wrote(events, c)
    decreases |events|
  {
    if events != [] {
      var front, e := events[..|events| - 1], events[|events| - 1];
      var before := Run(front).value;
      hide Step, Inv, Bounded, Serves;
      BoundedBefore(before, s, e);
      RunKeeps(front, before);
      CountsAreEvents(front, before, c);
      if (e.Take? || e.Emit?) && Serves(before, e.t, c) {
        NobodyServes(before, e.t, c);
      }
      if c in s.conns {
        StepCounts(before, s, e, c);
      } else {
        NotBorn(before, s, e, c);
      }
    }
  }

  /** Headers read are answered, or wait: each is exactly one of an attempted response and an
      entry in `pending`; and no more responses were written than attempted. */
  lemma Conservation(events: seq<Event>, s: State, c: nat)
    requires Run(events) == Some(s) && Bounded(s) && c in s.conns
    ensures |HeaderIds(events, c)| == |s.conns[c].codec.pending| + Attempted(events, c)
    ensures |s.conns[c].out| == Wrote(events, c) <= Attempted(events, c)
  {
    hide *;
    RunKeeps(events, s);
    LogIsHeaders(events, s, c);
    CountsAreEvents(events, s, c);
    InvParts(s);
    ConnParts(s, c);
    var conn := s.conns[c];
    SameLength(conn.log, HeaderIds(events, c));
    LedgerCounts(conn.codec, conn.log, conn.attempts);
    OutputBounded(conn.codec, conn.log, conn.out, conn.attempts);
  }

  /** When nobody works for a connection any more, every header it read has been answered. */
  lemma QuietMeansAnswered(events: seq<Event>, s: State, c: nat)
    requires Run(events) == Some(s) && Bounded(s) && c in s.conns
    requires !s.conns[c].reader.HasHeader? && (forall t :: t in s.tasks ==> s.tasks[t].conn != c)
    ensures s.conns[c].codec.pending == map[] && Attempted(events, c) == |HeaderIds(events, c)|
  {
    RunKeeps(events, s);
    Conservation(events, s, c);
    hide Run, Bounded, PoolsOk, TaskOk, OutputOk, ReaderOk, TicketAt;
    assert ConnOk(s, c);
    forall k: nat
      ensures k !in s.conns[c].codec.pending
    {
      assert TicketOk(s, c, k);
    }
  }

  lemma HeldRequest(s: State, t: nat)
    requires PoolsOk(s) && t in s.tasks && TaskOk(s, t)
    ensures s.reqs.IsList(s.freeReqs)
    ensures s.tasks[t].req in s.reqs.heap && s.tasks[t].req !in s.freeReqs
    ensures s.reqs.heap[s.tasks[t].req].body.seqNo == s.tasks[t].ticket
    ensures s.tasks[t].req in s.reqOwner && s.reqOwner[s.tasks[t].req] == ByTask(t)
  {
    hide Pool.IsList, StageOk;
  }

  /** The free lists stay acyclic, no request object is free and held or held twice, and a held
      one keeps the number of its own header. */
  lemma RequestsAreSafe(events: seq<Event>, s: State, t: nat, u: nat)
    requires Run(events) == Some(s) && Bounded(s) && t in s.tasks && u in s.tasks
    ensures s.reqs.IsList(s.freeReqs)
    ensures s.tasks[t].req in s.reqs.heap && s.tasks[t].req !in s.freeReqs
    ensures s.reqs.heap[s.tasks[t].req].body.seqNo == s.tasks[t].ticket
    ensures t != u ==> s.tasks[t].req != s.tasks[u].req
  {
    hide *;
    RunKeeps(events, s);
    InvParts(s);
    HeldRequest(s, t);
    HeldRequest(s, u);
  }

  function InHand(reader: Reader): Option<nat> {
    match reader
    case HasRequest(r) => Some(r)
    case HasHeader(r, _) => Some(r)
    case _ => None
  }

  lemma ReadersRequest(s: State, c: nat)
    requires Inv(s) && c in s.conns && InHand(s.conns[c].reader).Some?
    ensures var r := InHand(s.conns[c].reader).value;
            && r in s.reqs.heap && r !in s.freeReqs && r in s.reqOwner && s.reqOwner[r] == ByReader(c)
            && (s.conns[c].reader.HasHeader? ==> s.reqs.heap[r].body.seqNo == s.conns[c].reader.ticket)
  {
    hide Inv, Pool.IsList;
    ReaderOwns(s, c);
  }

  /** The reader loops hold request objects too: one in a reader's hands is not free, is in no
      other hands, and after the header was read carries that header's number. */
  lemma ReadersRequestsAreSafe(events: seq<Event>, s: State, c: nat, d: nat, t: nat)
    requires Run(events) == Some(s) && Bounded(s) && c in s.conns && InHand(s.conns[c].reader).Some?
    ensures var r := InHand(s.conns[c].reader).value;
            && r in s.reqs.heap && r !in s.freeReqs
            && (s.conns[c].reader.HasHeader? ==> s.reqs.heap[r].body.seqNo == s.conns[c].reader.ticket)
            && (d in s.conns && d != c ==> InHand(s.conns[d].reader) != Some(r))
            && (t in s.tasks ==> s.tasks[t].req != r)
  {
    hide *;
    RunKeeps(events, s);
    InvParts(s);
    ReadersRequest(s, c);
    if d in s.conns && InHand(s.conns[d].reader).Some? {
      ReadersRequest(s, d);
    }
    if t in s.tasks {
      HeldRequest(s, t);
    }
  }

  function HeldResponse(stage: Stage): Option<nat> {
    match stage
    case HasResponse(_, p) => Some(p)
    case Filled(_, p) => Some(p)
    case Taken(_, p, _) => Some(p)
    case Answered(p) => Some(p)
    case _ => None
  }

  lemma HeldOne(s: State, t: nat)
    requires PoolsOk(s) && t in s.tasks && TaskOk(s, t)
    ensures s.resps.IsList(s.freeResps)
    ensures var p := HeldResponse(s.tasks[t].stage);
            p.Some? ==> p.value !in s.freeResps && p.value in s.respOwner && s.respOwner[p.value] == ByTask(t)
  {
    hide Pool.IsList, HoldsRequest;
  }

  /** The same for response objects. */
  lemma ResponsesAreSafe(events: seq<Event>, s: State, t: nat, u: nat)
    requires Run(events) == Some(s) && Bounded(s) && t in s.tasks && u in s.tasks
    ensures s.resps.IsList(s.freeResps)
    ensures HeldResponse(s.tasks[t].stage).Some? ==> HeldResponse(s.tasks[t].stage).value !in s.freeResps
    ensures t != u && HeldResponse(s.tasks[t].stage).Some? ==>
              HeldResponse(s.tasks[t].stage) != HeldResponse(s.tasks[u].stage)
  {
    hide *;
    RunKeeps(events, s);
    InvParts(s);
    HeldOne(s, t);
    HeldOne(s, u);
  }

  lemma FilledSays(s: State, t: nat)
    requires t in s.tasks && TaskOk(s, t) && s.tasks[t].stage.Filled?
    ensures s.tasks[t].conn in s.conns && s.tasks[t].stage.resp in s.resps.heap
    ensures InLog(s.conns[s.tasks[t].conn].log, s.tasks[t].ticket)
    ensures var resp := s.resps.heap[s.tasks[t].stage.resp].body;
            var outcome := TicketAt(s.conns[s.tasks[t].conn].log, s.tasks[t].ticket).outcome;
            && resp.seqNo == s.tasks[t].ticket
            && outcome.Some? && resp.error == outcome.value.ErrorText() && s.tasks[t].stage.reply == outcome.value.Reply()
  {
    hide TicketAt;
  }

  /** A recycled response never shows an earlier error: what it says when it is sent is what its
      own request came to, and its number is still pending. */
  lemma NoStaleError(events: seq<Event>, s: State, t: nat)
    requires Run(events) == Some(s) && Bounded(s) && t in s.tasks && s.tasks[t].stage.Filled?
    ensures s.tasks[t].conn in s.conns && s.tasks[t].stage.resp in s.resps.heap
    ensures var resp := s.resps.heap[s.tasks[t].stage.resp].body;
            var outcome := OutcomeGiven(events, s.tasks[t].conn, s.tasks[t].ticket);
            && resp.seqNo == s.tasks[t].ticket
            && outcome.Some? && resp.error == outcome.value.ErrorText() && s.tasks[t].stage.reply == outcome.value.Reply()
            && s.tasks[t].ticket in s.conns[s.tasks[t].conn].codec.pending
  {
    hide *;
    RunKeeps(events, s);
    AliveParts(s, t);
    TakeFinds(s, t);
    FilledSays(s, t);
    OutcomesAreEvents(events, s, s.tasks[t].conn, s.tasks[t].ticket);
  }

  /** The next event of a goroutine; one that waits for the sending lock waits for its holder. */
  function NextEvent(s: State, t: nat, spare: nat): Event
    requires t in s.tasks
  {
    match s.tasks[t].stage
    case Calling => Call(t, Outcome("", None))
    case Replied(_) => GetResponse(t, spare)
    case HasResponse(_, _) => Fill(t)
    case Filled(_, _) =>
      if s.tasks[t].conn in s.conns && s.conns[s.tasks[t].conn].sending.Some?
      then Emit(s.conns[s.tasks[t].conn].sending.value, true) else Take(t)
    case Taken(_, _, _) => Emit(t, true)
    case Answered(_) => FreeResponse(t)
    case Returned => FreeRequest(t)
  }

  lemma CanMove(s: State, t: nat, spare: nat)
    requires Inv(s) && t in s.tasks && spare !in s.resps.heap
    ensures Step(s, NextEvent(s, t, spare)).Some?
  {
    hide PoolsOk, Inv, Mark, TicketAt, HoldsRequest, Carries, LedgerOk, OutputOk, TicketOk, ReaderOk;
    AliveParts(s, t);
    ConnParts(s, s.tasks[t].conn);
    var lock := s.conns[s.tasks[t].conn].sending;
    if s.tasks[t].stage.Filled? && lock.Some? {
      AliveParts(s, lock.value);
      OwnsItsResponse(s, lock.value, s.tasks[lock.value].stage.resp);
    }
  }

  /** Nothing gets stuck: every goroutine can move, or the holder of the lock it needs can. */
  lemma NoDeadlock(events: seq<Event>, s: State, t: nat, spare: nat)
    requires Run(events) == Some(s) && Bounded(s) && t in s.tasks && spare !in s.resps.heap
    ensures Step(s, NextEvent(s, t, spare)).Some?
  {
    hide *;
    RunKeeps(events, s);
    CanMove(s, t, spare);
  }

  /** The next event of a reader loop: it reads when it can and hands on what it read; while it
      sends an error itself, it moves as that sender does. */
  function NextOfReader(s: State, c: nat, message: Message, spareReq: nat, spareResp: nat, freshTask: nat): Event
    requires c in s.conns && (s.conns[c].reader.Waiting? ==> s.conns[c].reader.task in s.tasks)
  {
    match s.conns[c].reader
    case Idle => GetRequest(c, spareReq)
    case HasRequest(_) => ReadHeader(c, message.name, message.id)
    case HasHeader(_, _) => Spawn(c, freshTask)
    case Waiting(t) => NextEvent(s, t, spareResp)
    case Closed => ReadFails(c)
  }

  lemma WaitingFor(s: State, c: nat)
    requires c in s.conns && ReaderOk(s, c)
    ensures s.conns[c].reader.Waiting? ==> s.conns[c].reader.task in s.tasks
  {
    hide HoldsRequest, TicketAt;
  }

  lemma ReaderSteps(s: State, c: nat, message: Message, spareReq: nat, spareResp: nat, freshTask: nat)
    requires c in s.conns && spareReq !in s.reqs.heap && freshTask !in s.tasks
    requires s.conns[c].reader.Waiting? ==>
               s.conns[c].reader.task in s.tasks && Step(s, NextEvent(s, s.conns[c].reader.task, spareResp)).Some?
    requires InHand(s.conns[c].reader).Some? ==> InHand(s.conns[c].reader).value in s.reqs.heap
    ensures Step(s, NextOfReader(s, c, message, spareReq, spareResp, freshTask)).Some? <==> !s.conns[c].reader.Closed?
  {
    hide Mark, TicketAt, Codec.Admit, Pool.Acquire, Pool.Acquired, Pool.Store, Tail, NextEvent;
  }

  /** No reader loop gets stuck either: until it is closed, it or the goroutine it needs moves. */
  lemma ReadersMove(events: seq<Event>, s: State, c: nat, message: Message, spareReq: nat, spareResp: nat, freshTask: nat)
    requires Run(events) == Some(s) && Bounded(s) && c in s.conns
    requires spareReq !in s.reqs.heap && spareResp !in s.resps.heap && freshTask !in s.tasks
    ensures s.conns[c].reader.Waiting? ==> s.conns[c].reader.task in s.tasks
    ensures Step(s, NextOfReader(s, c, message, spareReq, spareResp, freshTask)).Some? <==> !s.conns[c].reader.Closed?
  {
    hide *;
    RunKeeps(events, s);
    InvParts(s);
    ConnParts(s, c);
    WaitingFor(s, c);
    if s.conns[c].reader.Waiting? {
      CanMove(s, s.conns[c].reader.task, spareResp);
    }
    if InHand(s.conns[c].reader).Some? {
      ReadersRequest(s, c);
    }
    ReaderSteps(s, c, message, spareReq, spareResp, freshTask);
  }

  // ---------- A run ----------

  /** One request, whose handler fails with an empty text. */
  const EMPTY_ERROR := [
    Connect(0), GetRequest(0, 0), ReadHeader(0, "m", Some("7")), Spawn(0, 0),
    Call(0, Outcome("r", Some(""))), GetResponse(0, 0), Fill(0), Take(0), Emit(0, true)]

  lemma RunStep(events: seq<Event>, k: nat)
    requires k < |events|
    ensures Run(events[..0]) == Some(START) && events[..|events|] == events
    ensures Run(events[..k + 1]) == if Run(events[..k]).Some? then Step(Run(events[..k]).value, events[k]) else None
  {
    hide Step;
    assert events[..k + 1][..k] == events[..k];
  }

  /** The goroutine of the request has its number, and nothing was answered yet. */
  ghost predicate Handed(s: State) {
    && 0 in s.conns && 0 in s.tasks && 0 in s.reqs.heap && s.resps == Pool(map[], None)
    && s.conns[0] == Conn(Idle, Codec(1, map[1 := Some("7")]), None, [], [Ticket(Some("7"), None, AtTask(0))], 0)
    && s.tasks[0] == Task(0, 0, false, Calling, 1) && s.reqs.heap[0].body == ReqBody("m", 1)
  }

  lemma FirstHalf()
    ensures Run(EMPTY_ERROR[..4]).Some? && Handed(Run(EMPTY_ERROR[..4]).value)
  {
    hide Run;
    RunStep(EMPTY_ERROR, 0);
    RunStep(EMPTY_ERROR, 1);
    RunStep(EMPTY_ERROR, 2);
    RunStep(EMPTY_ERROR, 3);
  }

  /** The response is filled with an error text that says there is no error. */
  ghost predicate Mute(s: State) {
    && 0 in s.conns && 0 in s.tasks && 0 in s.reqs.heap && 0 in s.resps.heap
    && s.conns[0].codec == Codec(1, map[1 := Some("7")]) && s.conns[0].sending.None? && s.conns[0].out == []
    && s.tasks[0] == Task(0, 0, false, Filled(INVALID_REQUEST, 0), 1) && s.resps.heap[0].body == RespBody("m", "", 1)
  }

  lemma SecondHalf(s: State)
    requires Handed(s)
    ensures Step(s, Call(0, Outcome("r", Some("")))).Some?
    ensures var a := Step(s, Call(0, Outcome("r", Some("")))).value;
            && Step(a, GetResponse(0, 0)).Some?
            && var b := Step(a, GetResponse(0, 0)).value;
               && Step(b, Fill(0)).Some?
               && Mute(Step(b, Fill(0)).value)
  {
  }

  lemma LastSteps(s: State)
    requires Mute(s)
    ensures Step(s, Take(0)).Some?
    ensures var a := Step(s, Take(0)).value;
            && Step(a, Emit(0, true)).Some?
            && 0 in Step(a, Emit(0, true)).value.conns
            && Step(a, Emit(0, true)).value.conns[0].out == [Sent(1, WireResponse("7", Result(INVALID_REQUEST)))]
  {
    hide Mark, TicketAt;
  }

  /** Its failure is sent as a result. */
  lemma EmptyErrorIsResult()
    ensures Run(EMPTY_ERROR).Some? && 0 in Run(EMPTY_ERROR).value.conns
    ensures Run(EMPTY_ERROR).value.conns[0].out == [Sent(1, WireResponse("7", Result(INVALID_REQUEST)))]
  {
    hide Run, Step, Handed, Mute;
    FirstHalf();
    SecondHalf(Run(EMPTY_ERROR[..4]).value);
    RunStep(EMPTY_ERROR, 4);
    RunStep(EMPTY_ERROR, 5);
    RunStep(EMPTY_ERROR, 6);
    LastSteps(Run(EMPTY_ERROR[..7]).value);
    RunStep(EMPTY_ERROR, 7);
    RunStep(EMPTY_ERROR, 8);
  }
}
