/** Every step of the server keeps the invariant. */
module RpcSteps {
  import opened Strings
  import opened RpcPool
  import opened RpcCodec
  import opened RpcProtocol

  // ---------- What a step leaves alone ----------

  ghost predicate SameRequests(s: State, s': State, except: set<nat>) {
    forall r :: r in s.reqOwner && r in s.reqs.heap && r !in except ==>
      r in s'.reqOwner && s'.reqOwner[r] == s.reqOwner[r] && r in s'.reqs.heap && s'.reqs.heap[r].body == s.reqs.heap[r].body
  }

  ghost predicate SameResponses(s: State, s': State, except: set<nat>) {
    forall p :: p in s.respOwner && p in s.resps.heap && p !in except ==>
      p in s'.respOwner && s'.respOwner[p] == s.respOwner[p] && p in s'.resps.heap && s'.resps.heap[p].body == s.resps.heap[p].body
  }

  ghost predicate SameConns(s: State, s': State, except: set<nat>) {
    && (forall c :: c in s.conns && c !in except ==> c in s'.conns && s'.conns[c] == s.conns[c])
    && (forall c :: c in s'.conns && c !in except ==> c in s.conns)
  }

  ghost predicate SameTasks(s: State, s': State, except: set<nat>) {
    && (forall t :: t in s.tasks && t !in except ==> t in s'.tasks && s'.tasks[t] == s.tasks[t])
    && (forall t :: t in s'.tasks && t !in except ==> t in s.tasks)
  }

  /** The objects a step touches belong to the free list, its connection or its goroutine. */
  ghost predicate Own(owner: map<nat, Owner>, objects: set<nat>, conns: set<nat>, tasks: set<nat>) {
    forall x :: x in objects && x in owner ==>
      match owner[x]
      case ByReader(c) => c in conns
      case ByTask(t) => t in tasks
      case _ => true
  }

  /** What a goroutine sees of its connection did not change. */
  ghost predicate SameView(s: State, s': State, t: nat)
    requires t in s.tasks
  {
    var task, c := s.tasks[t], s.tasks[t].conn;
    && c in s.conns && c in s'.conns
    && InLog(s'.conns[c].log, task.ticket)
    && TicketAt(s'.conns[c].log, task.ticket) == TicketAt(s.conns[c].log, task.ticket)
    && (task.inline ==> s'.conns[c].reader == s.conns[c].reader)
    && (task.stage.Taken? ==> s'.conns[c].sending == s.conns[c].sending)
  }

  lemma TaskFrame(s: State, s': State, t: nat, conns: set<nat>, tasks: set<nat>, reqs: set<nat>, resps: set<nat>)
    requires t in s.tasks && TaskOk(s, t) && t !in tasks
    requires SameRequests(s, s', reqs) && SameResponses(s, s', resps) && SameTasks(s, s', tasks)
    requires Own(s.reqOwner, reqs, conns, tasks) && Own(s.respOwner, resps, conns, tasks)
    requires SameView(s, s', t)
    ensures t in s'.tasks && TaskOk(s', t)
  {
    assert s.tasks[t].req !in reqs;
  }

  lemma TicketFrame(s: State, s': State, c: nat, k: nat, tasks: set<nat>)
    requires c in s.conns && c in s'.conns && s'.conns[c] == s.conns[c] && TicketOk(s, c, k)
    requires SameTasks(s, s', tasks) && forall t :: t in tasks && t in s.tasks ==> s.tasks[t].conn != c
    ensures TicketOk(s', c, k)
  {
  }

  lemma ConnFrame(s: State, s': State, c: nat, conns: set<nat>, tasks: set<nat>, reqs: set<nat>)
    requires c in s.conns && ConnOk(s, c) && c !in conns
    requires SameRequests(s, s', reqs) && SameTasks(s, s', tasks) && SameConns(s, s', conns)
    requires Own(s.reqOwner, reqs, conns, tasks)
    requires forall t :: t in tasks && t in s.tasks ==> s.tasks[t].conn in conns
    ensures c in s'.conns && ConnOk(s', c)
  {
    hide LedgerOk, OutputOk, TicketOk;
    assert ReaderOk(s', c) && LockOk(s', c);
    forall k: nat
      ensures TicketOk(s', c, k)
    {
      TicketFrame(s, s', c, k, tasks);
    }
  }

  ghost predicate TasksFine(s: State, tasks: set<nat>) {
    forall t :: t in tasks && t in s.tasks ==> TaskOk(s, t)
  }

  ghost predicate ConnsFine(s: State, conns: set<nat>) {
    forall c :: c in conns && c in s.conns ==> ConnOk(s, c)
  }

  ghost predicate OthersSeeNothing(s: State, s': State, conns: set<nat>, tasks: set<nat>) {
    && (forall t :: t in s.tasks && t !in tasks && s.tasks[t].conn in conns ==> SameView(s, s', t))
    && (forall t :: t in tasks && t in s.tasks ==> s.tasks[t].conn in conns)
  }

  /** A step that touches these connections, goroutines and objects, and nothing else. */
  ghost predicate Local(s: State, s': State, conns: set<nat>, tasks: set<nat>, reqs: set<nat>, resps: set<nat>) {
    && SameRequests(s, s', reqs) && SameResponses(s, s', resps)
    && SameConns(s, s', conns) && SameTasks(s, s', tasks)
    && Own(s.reqOwner, reqs, conns, tasks) && Own(s.respOwner, resps, conns, tasks)
  }

  lemma OtherView(s: State, s': State, t: nat, conns: set<nat>)
    requires t in s.tasks && TaskOk(s, t) && SameConns(s, s', conns)
    ensures s.tasks[t].conn !in conns ==> SameView(s, s', t)
  {
  }

  /** Enough that the touched parts are fine and the others do not notice. */
  lemma Assemble(s: State, s': State, conns: set<nat>, tasks: set<nat>, reqs: set<nat>, resps: set<nat>)
    requires Inv(s) && PoolsOk(s') && Local(s, s', conns, tasks, reqs, resps)
    requires TasksFine(s', tasks) && ConnsFine(s', conns) && OthersSeeNothing(s, s', conns, tasks)
    ensures Inv(s')
  {
    hide PoolsOk, ConnOk, TaskOk, SameRequests, SameResponses, Own, SameView;
    forall t | t in s'.tasks
      ensures TaskOk(s', t)
    {
      if t !in tasks {
        OtherView(s, s', t, conns);
        TaskFrame(s, s', t, conns, tasks, reqs, resps);
      }
    }
    forall c | c in s'.conns
      ensures ConnOk(s', c)
    {
      if c !in conns {
        ConnFrame(s, s', c, conns, tasks, reqs);
      }
    }
  }

  lemma InvParts(s: State)
    requires Inv(s)
    ensures PoolsOk(s)
    ensures forall c :: c in s.conns ==> ConnOk(s, c)
    ensures forall t :: t in s.tasks ==> TaskOk(s, t)
  {
    hide PoolsOk, ConnOk, TaskOk;
  }

  lemma TaskConn(s: State, t: nat)
    requires t in s.tasks && TaskOk(s, t)
    ensures s.tasks[t].conn in s.conns && InLog(s.conns[s.tasks[t].conn].log, s.tasks[t].ticket)
    ensures s.tasks[t].inline ==> s.conns[s.tasks[t].conn].reader == Waiting(t)
  {
    hide StageOk, HoldsRequest;
  }

  /** Tickets whose goroutines were left alone. */
  lemma SameTickets(s: State, s': State, c: nat)
    requires c in s.conns && c in s'.conns && ConnOk(s, c)
    requires s'.conns[c].log == s.conns[c].log && s'.tasks == s.tasks
    requires !s.conns[c].reader.HasHeader?
    ensures forall k :: TicketOk(s', c, k)
  {
    hide LedgerOk, OutputOk, ReaderOk;
    forall k: nat
      ensures TicketOk(s', c, k)
    {
      assert TicketOk(s, c, k);
    }
  }

  lemma ConnFrom(s: State, c: nat)
    requires c in s.conns
    requires LedgerOk(s.conns[c].codec, s.conns[c].log, s.conns[c].attempts) && OutputOk(s.conns[c].log, s.conns[c].out)
    requires ReaderOk(s, c) && LockOk(s, c) && forall k :: TicketOk(s, c, k)
    ensures ConnOk(s, c)
  {
  }

  lemma ConnParts(s: State, c: nat)
    requires c in s.conns && ConnOk(s, c)
    ensures LedgerOk(s.conns[c].codec, s.conns[c].log, s.conns[c].attempts) && OutputOk(s.conns[c].log, s.conns[c].out)
    ensures ReaderOk(s, c) && LockOk(s, c) && forall k :: TicketOk(s, c, k)
  {
  }

  // ---------- Connect ----------

  lemma NotThere(s: State, s': State, c: nat)
    requires DoConnect(s, c) == Some(s')
    ensures c !in s.conns
  {
  }

  lemma FreshConn(s: State, c: nat)
    requires c in s.conns && s.conns[c] == Conn(Idle, Codec(0, map[]), None, [], [], 0)
    ensures ConnOk(s, c)
  {
  }

  lemma ConnectLocal(s: State, s': State, c: nat)
    requires PoolsOk(s) && DoConnect(s, c) == Some(s')
    ensures PoolsOk(s') && Local(s, s', {c}, {}, {}, {}) && ConnsFine(s', {c}) && TasksFine(s', {})
  {
    hide TaskOk, ConnOk, PoolFine;
    assert Local(s, s', {c}, {}, {}, {});
    FreshConn(s', c);
  }

  lemma NobodyThere(s: State, s': State, c: nat)
    requires Inv(s) && c !in s.conns
    ensures OthersSeeNothing(s, s', {c}, {})
  {
    hide ConnOk, PoolsOk, SameView;
    InvParts(s);
    forall t | t in s.tasks
      ensures s.tasks[t].conn != c
    {
      TaskConn(s, t);
    }
  }

  lemma KeepsConnect(s: State, s': State, c: nat)
    requires Inv(s) && DoConnect(s, c) == Some(s')
    ensures Inv(s')
  {
    hide *;
    InvParts(s);
    ConnectLocal(s, s', c);
    NotThere(s, s', c);
    NobodyThere(s, s', c);
    Assemble(s, s', {c}, {}, {}, {});
  }

  // ---------- GetRequest ----------

  lemma GetRequestTouches(s: State, s': State, c: nat, spare: nat)
    requires DoGetRequest(s, c, spare) == Some(s')
    requires s.reqs.Acquired(spare) in s.reqOwner ==> s.reqOwner[s.reqs.Acquired(spare)] == OnList
    ensures Local(s, s', {c}, {}, {s.reqs.Acquired(spare)}, {}) && TasksFine(s', {})
  {
  }

  lemma GetRequestLocal(s: State, s': State, c: nat, spare: nat)
    requires PoolsOk(s) && DoGetRequest(s, c, spare) == Some(s')
    ensures PoolsOk(s') && Local(s, s', {c}, {}, {s.reqs.Acquired(spare)}, {}) && TasksFine(s', {})
    ensures s.reqs.Acquired(spare) in s'.reqs.heap
  {
    hide PoolFine, Pool.Acquire, Pool.Acquired, Tail;
    FineAcquire(s.reqs, s.freeReqs, s.reqOwner, spare, ZERO_REQUEST, ByReader(c));
    assert PoolsOk(s');
    hide PoolsOk;
    GetRequestTouches(s, s', c, spare);
  }

  lemma GetRequestConn(s: State, s': State, c: nat, spare: nat)
    requires Inv(s) && DoGetRequest(s, c, spare) == Some(s')
    ensures ConnsFine(s', {c})
  {
    hide PoolsOk, TaskOk, LedgerOk, OutputOk, TicketOk, ConnOk;
    InvParts(s);
    ConnParts(s, c);
    SameTickets(s, s', c);
    ConnFrom(s', c);
  }

  lemma GetRequestView(s: State, s': State, c: nat, spare: nat)
    requires Inv(s) && DoGetRequest(s, c, spare) == Some(s')
    ensures OthersSeeNothing(s, s', {c}, {})
  {
    hide PoolsOk, TaskOk, ConnOk;
    InvParts(s);
    forall t | t in s.tasks && s.tasks[t].conn == c
      ensures SameView(s, s', t)
    {
      TaskConn(s, t);
    }
  }

  lemma KeepsGetRequest(s: State, s': State, c: nat, spare: nat)
    requires Inv(s) && DoGetRequest(s, c, spare) == Some(s')
    ensures Inv(s')
  {
    hide *;
    InvParts(s);
    GetRequestLocal(s, s', c, spare);
    GetRequestConn(s, s', c, spare);
    GetRequestView(s, s', c, spare);
    Assemble(s, s', {c}, {}, {s.reqs.Acquired(spare)}, {});
  }

  // ---------- ReadHeader ----------

  /** The request object in a reader's hands belongs to it. */
  lemma ReaderOwns(s: State, c: nat)
    requires Inv(s) && c in s.conns && (s.conns[c].reader.HasRequest? || s.conns[c].reader.HasHeader?)
    ensures PoolsOk(s) && s.conns[c].reader.req in s.reqs.heap
    ensures s.conns[c].reader.req in s.reqOwner && s.reqOwner[s.conns[c].reader.req] == ByReader(c)
    ensures s.conns[c].reader.HasHeader? ==>
              s.reqs.heap[s.conns[c].reader.req].body.seqNo == s.conns[c].reader.ticket
  {
    hide PoolsOk, ConnOk, TaskOk;
    InvParts(s);
    ConnParts(s, c);
  }

  lemma ReadHeaderTouches(s: State, s': State, c: nat, name: string, id: Id)
    requires DoReadHeader(s, c, name, id) == Some(s')
    requires s.conns[c].reader.req in s.reqOwner && s.reqOwner[s.conns[c].reader.req] == ByReader(c)
    ensures Local(s, s', {c}, {}, {s.conns[c].reader.req}, {}) && TasksFine(s', {})
  {
    hide Codec.Admit;
  }

  lemma ReadHeaderLocal(s: State, s': State, c: nat, name: string, id: Id)
    requires Inv(s) && DoReadHeader(s, c, name, id) == Some(s')
    ensures c in s.conns && s.conns[c].reader.HasRequest?
    ensures PoolsOk(s') && Local(s, s', {c}, {}, {s.conns[c].reader.req}, {}) && TasksFine(s', {})
  {
    hide ConnOk, PoolFine, Pool.Store, Codec.Admit;
    ReaderOwns(s, c);
    var r := s.conns[c].reader.req;
    FineStore(s.reqs, s.freeReqs, s.reqOwner, r, ReqBody(name, s.conns[c].codec.Admit(id).seqNo));
    assert PoolsOk(s');
    hide PoolsOk;
    ReadHeaderTouches(s, s', c, name, id);
  }

  lemma ReadHeaderConn(s: State, s': State, c: nat, name: string, id: Id)
    requires Inv(s) && DoReadHeader(s, c, name, id) == Some(s') && Bounded(s')
    ensures ConnsFine(s', {c})
  {
    hide PoolsOk, TaskOk, ConnOk, OutputOk;
    InvParts(s);
    ConnParts(s, c);
    var conn := s.conns[c];
    assert |s'.conns[c].log| < SEQ_LIMIT;
    LedgerAdmit(conn.codec, conn.log, conn.out, conn.attempts, id);
    assert conn.codec.Admit(id).seqNo == |conn.log| + 1;
    hide LedgerOk;
    forall k: nat
      ensures TicketOk(s', c, k)
    {
      assert TicketOk(s, c, k);
    }
    ConnFrom(s', c);
  }

  lemma ReadHeaderView(s: State, s': State, c: nat, name: string, id: Id)
    requires Inv(s) && DoReadHeader(s, c, name, id) == Some(s')
    ensures OthersSeeNothing(s, s', {c}, {})
  {
    hide PoolsOk, TaskOk, ConnOk;
    InvParts(s);
    forall t | t in s.tasks && s.tasks[t].conn == c
      ensures SameView(s, s', t)
    {
      TaskConn(s, t);
    }
  }

  lemma KeepsReadHeader(s: State, s': State, c: nat, name: string, id: Id)
    requires Inv(s) && DoReadHeader(s, c, name, id) == Some(s') && Bounded(s')
    ensures Inv(s')
  {
    hide *;
    InvParts(s);
    ReadHeaderLocal(s, s', c, name, id);
    ReadHeaderConn(s, s', c, name, id);
    ReadHeaderView(s, s', c, name, id);
    Assemble(s, s', {c}, {}, {s.conns[c].reader.req}, {});
  }

  // ---------- ReadFails ----------

  lemma ReadFailsTouches(s: State, s': State, c: nat)
    requires DoReadFails(s, c) == Some(s')
    requires s.conns[c].reader.req in s.reqOwner && s.reqOwner[s.conns[c].reader.req] == ByReader(c)
    ensures Local(s, s', {c}, {}, {s.conns[c].reader.req}, {}) && TasksFine(s', {})
  {
  }

  lemma ReadFailsConn(s: State, s': State, c: nat)
    requires Inv(s) && DoReadFails(s, c) == Some(s')
    ensures ConnsFine(s', {c})
  {
    hide PoolsOk, TaskOk, ConnOk, LedgerOk, OutputOk, TicketOk;
    InvParts(s);
    ConnParts(s, c);
    SameTickets(s, s', c);
    ConnFrom(s', c);
  }

  lemma ReadFailsLocal(s: State, s': State, c: nat)
    requires Inv(s) && DoReadFails(s, c) == Some(s')
    ensures c in s.conns && s.conns[c].reader.HasRequest?
    ensures PoolsOk(s') && Local(s, s', {c}, {}, {s.conns[c].reader.req}, {}) && TasksFine(s', {})
    ensures ConnsFine(s', {c})
  {
    hide ConnOk, PoolFine, TicketOk, LedgerOk, OutputOk, TaskOk;
    ReaderOwns(s, c);
    FineReown(s.reqs, s.freeReqs, s.reqOwner, s.conns[c].reader.req, Leaked);
    assert PoolsOk(s');
    hide PoolsOk;
    ReadFailsConn(s, s', c);
    hide ConnsFine, Inv;
    ReadFailsTouches(s, s', c);
  }

  lemma ReadFailsView(s: State, s': State, c: nat)
    requires Inv(s) && DoReadFails(s, c) == Some(s')
    ensures OthersSeeNothing(s, s', {c}, {})
  {
    hide PoolsOk, TaskOk, ConnOk;
    InvParts(s);
    forall t | t in s.tasks && s.tasks[t].conn == c
      ensures SameView(s, s', t)
    {
      TaskConn(s, t);
    }
  }

  lemma KeepsReadFails(s: State, s': State, c: nat)
    requires Inv(s) && DoReadFails(s, c) == Some(s')
    ensures Inv(s')
  {
    hide *;
    InvParts(s);
    ReadFailsLocal(s, s', c);
    ReadFailsView(s, s', c);
    Assemble(s, s', {c}, {}, {s.conns[c].reader.req}, {});
  }

  // ---------- Spawn and Reject ----------

  lemma DispatchTouches(s: State, s': State, c: nat, t: nat, reader: Reader, stage: Stage, outcome: Option<Outcome>)
    requires DoDispatch(s, c, t, reader, stage, outcome) == Some(s')
    requires s.conns[c].reader.req in s.reqOwner && s.reqOwner[s.conns[c].reader.req] == ByReader(c)
    ensures Local(s, s', {c}, {t}, {s.conns[c].reader.req}, {})
  {
    hide Mark, TicketAt;
  }

  lemma DispatchLocal(s: State, s': State, c: nat, t: nat, reader: Reader, stage: Stage, outcome: Option<Outcome>)
    requires Inv(s) && DoDispatch(s, c, t, reader, stage, outcome) == Some(s')
    ensures c in s.conns && s.conns[c].reader.HasHeader?
    ensures PoolsOk(s') && Local(s, s', {c}, {t}, {s.conns[c].reader.req}, {})
  {
    hide ConnOk, PoolFine, Mark, TicketAt;
    ReaderOwns(s, c);
    FineReown(s.reqs, s.freeReqs, s.reqOwner, s.conns[c].reader.req, ByTask(t));
    assert PoolsOk(s');
    hide PoolsOk, Inv;
    DispatchTouches(s, s', c, t, reader, stage, outcome);
  }

  lemma DispatchTask(s: State, s': State, c: nat, t: nat, reader: Reader, stage: Stage, outcome: Option<Outcome>)
    requires Inv(s) && DoDispatch(s, c, t, reader, stage, outcome) == Some(s')
    requires || (reader == Idle && stage == Calling && outcome == None)
             || (reader == Waiting(t) && outcome.Some? && stage == Replied(outcome.value))
    ensures TasksFine(s', {t})
  {
    hide PoolsOk, ConnOk, LedgerOk, OutputOk, TicketOk;
    InvParts(s);
    ConnParts(s, c);
    var conn, k := s.conns[c], s.conns[c].reader.ticket;
    MarkAt(conn.log, k, TicketAt(conn.log, k).(outcome := outcome, phase := AtTask(t)), k);
    hide Mark, TicketAt;
    assert TaskOk(s', t);
  }

  lemma DispatchConn(s: State, s': State, c: nat, t: nat, reader: Reader, stage: Stage, outcome: Option<Outcome>)
    requires Inv(s) && DoDispatch(s, c, t, reader, stage, outcome) == Some(s')
    requires || (reader == Idle && stage == Calling && outcome == None)
             || (reader == Waiting(t) && outcome.Some? && stage == Replied(outcome.value))
    ensures ConnsFine(s', {c})
  {
    hide PoolsOk, TaskOk, ConnOk, OutputOk, LedgerOk;
    InvParts(s);
    ConnParts(s, c);
    var conn, k := s.conns[c], s.conns[c].reader.ticket;
    var ticket := TicketAt(conn.log, k).(outcome := outcome, phase := AtTask(t));
    LedgerMark(conn.codec, conn.log, conn.out, conn.attempts, k, ticket);
    hide Mark, TicketAt;
    forall j: nat
      ensures TicketOk(s', c, j)
    {
      assert TicketOk(s, c, j);
      MarkAt(conn.log, k, ticket, j);
    }
    ConnFrom(s', c);
  }

  lemma NotAtReader(s: State, t: nat)
    requires t in s.tasks && TaskOk(s, t)
    ensures TicketAt(s.conns[s.tasks[t].conn].log, s.tasks[t].ticket).phase in {AtTask(t), InFlight(t)}
            || TicketAt(s.conns[s.tasks[t].conn].log, s.tasks[t].ticket).phase.Done?
  {
    hide HoldsRequest, HoldsResponse, Carries;
  }

  lemma DispatchView(s: State, s': State, c: nat, t: nat, reader: Reader, stage: Stage, outcome: Option<Outcome>)
    requires Inv(s) && DoDispatch(s, c, t, reader, stage, outcome) == Some(s')
    ensures OthersSeeNothing(s, s', {c}, {t})
  {
    hide PoolsOk, ConnOk, LedgerOk, OutputOk, TicketOk, HoldsResponse;
    InvParts(s);
    ConnParts(s, c);
    var conn, k := s.conns[c], s.conns[c].reader.ticket;
    hide Mark, TicketAt;
    forall x | x in s.tasks && x != t && s.tasks[x].conn == c
      ensures SameView(s, s', x)
    {
      TaskConn(s, x);
      NotAtReader(s, x);
      MarkAt(conn.log, k, TicketAt(conn.log, k).(outcome := outcome, phase := AtTask(t)), s.tasks[x].ticket);
    }
  }

  lemma KeepsDispatch(s: State, s': State, c: nat, t: nat, reader: Reader, stage: Stage, outcome: Option<Outcome>)
    requires Inv(s) && DoDispatch(s, c, t, reader, stage, outcome) == Some(s')
    requires || (reader == Idle && stage == Calling && outcome == None)
             || (reader == Waiting(t) && outcome.Some? && stage == Replied(outcome.value))
    ensures Inv(s')
  {
    hide *;
    InvParts(s);
    DispatchLocal(s, s', c, t, reader, stage, outcome);
    DispatchTask(s, s', c, t, reader, stage, outcome);
    DispatchConn(s, s', c, t, reader, stage, outcome);
    DispatchView(s, s', c, t, reader, stage, outcome);
    Assemble(s, s', {c}, {t}, {s.conns[c].reader.req}, {});
  }

  // ---------- Steps of one goroutine ----------

  /** A connection after one of its goroutines moved: only that goroutine's ticket changed. */
  lemma ConnAfter(s: State, s': State, c: nat, t: nat, reqs: set<nat>)
    requires Inv(s) && t in s.tasks && s.tasks[t].conn == c && c in s.conns && c in s'.conns
    requires SameRequests(s, s', reqs) && Own(s.reqOwner, reqs, {}, {t})
    requires SameTasks(s, s', {t}) && t in s'.tasks
    requires s'.tasks[t].conn == c && s'.tasks[t].inline == s.tasks[t].inline
    requires s'.conns[c].reader == s.conns[c].reader && |s'.conns[c].log| == |s.conns[c].log|
    requires forall j :: j != s.tasks[t].ticket ==> TicketAt(s'.conns[c].log, j) == TicketAt(s.conns[c].log, j)
    requires !TicketAt(s.conns[c].log, s.tasks[t].ticket).phase.AtReader?
    requires TicketOk(s', c, s.tasks[t].ticket) && LockOk(s', c)
    requires LedgerOk(s'.conns[c].codec, s'.conns[c].log, s'.conns[c].attempts) && OutputOk(s'.conns[c].log, s'.conns[c].out)
    ensures ConnsFine(s', {c})
  {
    hide PoolsOk, TaskOk, ConnOk, LedgerOk, OutputOk, TicketAt;
    InvParts(s);
    ConnParts(s, c);
    forall j: nat
      ensures TicketOk(s', c, j)
    {
      assert TicketOk(s, c, j);
    }
    ConnFrom(s', c);
  }

  /** The other goroutines of the connection work on other tickets. */
  lemma ViewsAfter(s: State, s': State, c: nat, t: nat)
    requires Inv(s) && t in s.tasks && s.tasks[t].conn == c && c in s.conns && c in s'.conns
    requires s'.conns[c].reader == s.conns[c].reader && |s'.conns[c].log| == |s.conns[c].log|
    requires forall j :: j != s.tasks[t].ticket ==> TicketAt(s'.conns[c].log, j) == TicketAt(s.conns[c].log, j)
    requires TicketAt(s.conns[c].log, s.tasks[t].ticket).phase in {AtTask(t), InFlight(t)} || s'.conns[c].log == s.conns[c].log
    requires s'.conns[c].sending == s.conns[c].sending || s.conns[c].sending in {None, Some(t)}
    ensures OthersSeeNothing(s, s', {c}, {t})
  {
    hide PoolsOk, ConnOk, HoldsResponse, HoldsRequest, TicketAt;
    InvParts(s);
    forall x | x in s.tasks && x != t && s.tasks[x].conn == c
      ensures SameView(s, s', x)
    {
      TaskConn(s, x);
      NotAtReader(s, x);
    }
  }

  lemma AliveParts(s: State, t: nat)
    requires Inv(s) && t in s.tasks
    ensures TaskOk(s, t) && Alive(s, t)
    ensures s.tasks[t].req in s.reqOwner && s.reqOwner[s.tasks[t].req] == ByTask(t)
    ensures ConnOk(s, s.tasks[t].conn) && PoolsOk(s)
  {
    hide ConnOk, PoolsOk, StageOk;
    InvParts(s);
  }

  // ---------- Call ----------

  lemma CallLocal(s: State, s': State, t: nat, outcome: Outcome)
    requires Inv(s) && DoCall(s, t, outcome) == Some(s')
    ensures t in s.tasks && PoolsOk(s') && Local(s, s', {s.tasks[t].conn}, {t}, {}, {})
    ensures TasksFine(s', {t})
  {
    hide ConnOk, PoolFine;
    AliveParts(s, t);
    var task, conn := s.tasks[t], s.conns[s.tasks[t].conn];
    MarkAt(conn.log, task.ticket, TicketAt(conn.log, task.ticket).(outcome := Some(outcome)), task.ticket);
    hide Mark, TicketAt;
    assert TaskOk(s', t);
  }

  lemma CallConn(s: State, s': State, t: nat, outcome: Outcome)
    requires Inv(s) && DoCall(s, t, outcome) == Some(s')
    ensures t in s.tasks && ConnsFine(s', {s.tasks[t].conn}) && OthersSeeNothing(s, s', {s.tasks[t].conn}, {t})
  {
    hide ConnOk, PoolsOk, LedgerOk, OutputOk, HoldsRequest;
    AliveParts(s, t);
    var task, c, conn := s.tasks[t], s.tasks[t].conn, s.conns[s.tasks[t].conn];
    var ticket := TicketAt(conn.log, task.ticket).(outcome := Some(outcome));
    ConnParts(s, c);
    LedgerMark(conn.codec, conn.log, conn.out, conn.attempts, task.ticket, ticket);
    hide Mark, TicketAt;
    forall j: nat
      ensures TicketAt(s'.conns[c].log, j) == if j == task.ticket then ticket else TicketAt(conn.log, j)
    {
      MarkAt(conn.log, task.ticket, ticket, j);
    }
    MarkAt(conn.log, task.ticket, ticket, 0);
    assert TicketOk(s', c, task.ticket);
    ConnAfter(s, s', c, t, {});
    ViewsAfter(s, s', c, t);
  }

  lemma KeepsCall(s: State, s': State, t: nat, outcome: Outcome)
    requires Inv(s) && DoCall(s, t, outcome) == Some(s')
    ensures Inv(s')
  {
    hide *;
    CallLocal(s, s', t, outcome);
    CallConn(s, s', t, outcome);
    Assemble(s, s', {s.tasks[t].conn}, {t}, {}, {});
  }

  // ---------- GetResponse, Fill, FreeResponse: only the goroutine's own stage moves ----------

  lemma SameConnView(s: State, s': State, c: nat, t: nat)
    requires Inv(s) && t in s.tasks && s.tasks[t].conn == c && s'.conns == s.conns
    ensures OthersSeeNothing(s, s', {c}, {t})
  {
    hide PoolsOk, ConnOk, TaskOk;
    InvParts(s);
    forall x | x in s.tasks && x != t && s.tasks[x].conn == c
      ensures SameView(s, s', x)
    {
      TaskConn(s, x);
    }
  }

  /** The stage moved without taking or answering; the connection did not change. */
  lemma StageMoved(s: State, s': State, t: nat)
    requires Inv(s) && t in s.tasks && t in s'.tasks && s'.conns == s.conns
    requires s'.tasks[t] == s.tasks[t].(stage := s'.tasks[t].stage) && SameTasks(s, s', {t}) && SameRequests(s, s', {})
    requires BeforeTake(s.tasks[t].stage) == BeforeTake(s'.tasks[t].stage)
    requires s.tasks[t].stage.Taken? == s'.tasks[t].stage.Taken?
    ensures ConnsFine(s', {s.tasks[t].conn}) && OthersSeeNothing(s, s', {s.tasks[t].conn}, {t})
  {
    hide ConnOk, PoolsOk, LedgerOk, OutputOk, StageOk, TicketAt;
    AliveParts(s, t);
    var c := s.tasks[t].conn;
    ConnParts(s, c);
    assert ReaderOk(s', c);
    hide HoldsRequest;
    forall j: nat
      ensures TicketOk(s', c, j)
    {
      assert TicketOk(s, c, j);
    }
    ConnFrom(s', c);
    SameConnView(s, s', c, t);
  }

  lemma GetResponseTouches(s: State, s': State, t: nat, spare: nat)
    requires DoGetResponse(s, t, spare) == Some(s')
    requires s.resps.Acquired(spare) in s.respOwner ==> s.respOwner[s.resps.Acquired(spare)] == OnList
    ensures t in s.tasks && t in s'.tasks && s'.conns == s.conns && SameTasks(s, s', {t}) && SameRequests(s, s', {})
    ensures s'.tasks[t] == s.tasks[t].(stage := s'.tasks[t].stage)
    ensures BeforeTake(s.tasks[t].stage) && BeforeTake(s'.tasks[t].stage)
    ensures s.tasks[t].stage.Taken? == s'.tasks[t].stage.Taken?
    ensures Local(s, s', {s.tasks[t].conn}, {t}, {}, {s.resps.Acquired(spare)})
  {
  }

  lemma GetResponseTask(s: State, s': State, t: nat, spare: nat)
    requires t in s.tasks && TaskOk(s, t) && DoGetResponse(s, t, spare) == Some(s')
    requires HoldsResponse(s', t, s.resps.Acquired(spare)) && s'.resps.heap[s.resps.Acquired(spare)].body == ZERO_RESPONSE
    ensures TasksFine(s', {t})
  {
    hide TicketAt;
    assert TaskOk(s', t);
  }

  lemma GetResponseLocal(s: State, s': State, t: nat, spare: nat)
    requires Inv(s) && DoGetResponse(s, t, spare) == Some(s')
    ensures t in s.tasks && t in s'.tasks && s'.conns == s.conns && SameTasks(s, s', {t}) && SameRequests(s, s', {})
    ensures s'.tasks[t] == s.tasks[t].(stage := s'.tasks[t].stage)
    ensures BeforeTake(s.tasks[t].stage) && BeforeTake(s'.tasks[t].stage)
    ensures s.tasks[t].stage.Taken? == s'.tasks[t].stage.Taken?
    ensures PoolsOk(s') && Local(s, s', {s.tasks[t].conn}, {t}, {}, {s.resps.Acquired(spare)}) && TasksFine(s', {t})
  {
    hide ConnOk, TaskOk, PoolFine, Inv, Pool.Acquire, Pool.Acquired, Tail, BeforeTake;
    AliveParts(s, t);
    var p := s.resps.Acquired(spare);
    FineAcquire(s.resps, s.freeResps, s.respOwner, spare, ZERO_RESPONSE, ByTask(t));
    assert PoolsOk(s');
    hide PoolsOk;
    assert HoldsResponse(s', t, p) && s'.resps.heap[p].body == ZERO_RESPONSE;
    GetResponseTask(s, s', t, spare);
    hide TasksFine, HoldsResponse;
    GetResponseTouches(s, s', t, spare);
  }

  lemma KeepsGetResponse(s: State, s': State, t: nat, spare: nat)
    requires Inv(s) && DoGetResponse(s, t, spare) == Some(s')
    ensures Inv(s')
  {
    hide *;
    GetResponseLocal(s, s', t, spare);
    StageMoved(s, s', t);
    Assemble(s, s', {s.tasks[t].conn}, {t}, {}, {s.resps.Acquired(spare)});
  }

  lemma FillTouches(s: State, s': State, t: nat)
    requires DoFill(s, t) == Some(s') && HoldsResponse(s, t, s.tasks[t].stage.resp)
    ensures t in s.tasks && t in s'.tasks && s'.conns == s.conns && SameTasks(s, s', {t}) && SameRequests(s, s', {})
    ensures s'.tasks[t] == s.tasks[t].(stage := s'.tasks[t].stage)
    ensures s.tasks[t].stage.HasResponse? && s'.tasks[t].stage.Filled?
    ensures BeforeTake(s.tasks[t].stage) && BeforeTake(s'.tasks[t].stage)
    ensures Local(s, s', {s.tasks[t].conn}, {t}, {}, {s.tasks[t].stage.resp})
    ensures s.tasks[t].stage.resp in s'.resps.heap
    ensures s'.resps == s.resps.Store(s.tasks[t].stage.resp, s'.resps.heap[s.tasks[t].stage.resp].body)
    ensures s'.reqs == s.reqs && s'.freeReqs == s.freeReqs && s'.reqOwner == s.reqOwner
    ensures s'.freeResps == s.freeResps && s'.respOwner == s.respOwner
  {
  }

  lemma OwnsItsResponse(s: State, t: nat, p: nat)
    requires t in s.tasks && TaskOk(s, t)
    requires var stage := s.tasks[t].stage;
             (stage.HasResponse? || stage.Filled? || stage.Taken? || stage.Answered?) && stage.resp == p
    ensures HoldsResponse(s, t, p)
  {
  }

  lemma FillTask(s: State, s': State, t: nat)
    requires t in s.tasks && TaskOk(s, t) && DoFill(s, t) == Some(s')
    ensures TasksFine(s', {t})
  {
    hide TicketAt;
    assert TaskOk(s', t);
  }

  lemma FillLocal(s: State, s': State, t: nat)
    requires Inv(s) && DoFill(s, t) == Some(s')
    ensures t in s.tasks && t in s'.tasks && s'.conns == s.conns && SameTasks(s, s', {t}) && SameRequests(s, s', {})
    ensures s'.tasks[t] == s.tasks[t].(stage := s'.tasks[t].stage)
    ensures s.tasks[t].stage.HasResponse?
    ensures BeforeTake(s.tasks[t].stage) && BeforeTake(s'.tasks[t].stage)
    ensures s.tasks[t].stage.Taken? == s'.tasks[t].stage.Taken?
    ensures PoolsOk(s') && Local(s, s', {s.tasks[t].conn}, {t}, {}, {s.tasks[t].stage.resp}) && TasksFine(s', {t})
  {
    hide ConnOk, TaskOk, PoolFine, Pool.Store, Inv, BeforeTake;
    AliveParts(s, t);
    var p := s.tasks[t].stage.resp;
    OwnsItsResponse(s, t, p);
    FillTouches(s, s', t);
    FineStore(s.resps, s.freeResps, s.respOwner, p, s'.resps.heap[p].body);
    FillTask(s, s', t);
  }

  lemma KeepsFill(s: State, s': State, t: nat)
    requires Inv(s) && DoFill(s, t) == Some(s')
    ensures Inv(s')
  {
    hide *;
    FillLocal(s, s', t);
    StageMoved(s, s', t);
    Assemble(s, s', {s.tasks[t].conn}, {t}, {}, {s.tasks[t].stage.resp});
  }

  lemma FreeResponseTouches(s: State, s': State, t: nat)
    requires DoFreeResponse(s, t) == Some(s') && HoldsResponse(s, t, s.tasks[t].stage.resp)
    ensures t in s.tasks && t in s'.tasks && s'.conns == s.conns && SameTasks(s, s', {t}) && SameRequests(s, s', {})
    ensures s'.tasks[t] == s.tasks[t].(stage := s'.tasks[t].stage)
    ensures s.tasks[t].stage.Answered? && s'.tasks[t].stage.Returned?
    ensures !BeforeTake(s.tasks[t].stage) && !BeforeTake(s'.tasks[t].stage)
    ensures Local(s, s', {s.tasks[t].conn}, {t}, {}, {s.tasks[t].stage.resp})
  {
  }

  lemma FreeResponseTask(s: State, s': State, t: nat)
    requires t in s.tasks && TaskOk(s, t) && DoFreeResponse(s, t) == Some(s')
    ensures TasksFine(s', {t})
  {
    hide TicketAt;
    assert TaskOk(s', t);
  }

  lemma FreeResponseLocal(s: State, s': State, t: nat)
    requires Inv(s) && DoFreeResponse(s, t) == Some(s')
    ensures t in s.tasks && t in s'.tasks && s'.conns == s.conns && SameTasks(s, s', {t}) && SameRequests(s, s', {})
    ensures s'.tasks[t] == s.tasks[t].(stage := s'.tasks[t].stage)
    ensures s.tasks[t].stage.Answered?
    ensures !BeforeTake(s.tasks[t].stage) && !BeforeTake(s'.tasks[t].stage)
    ensures s.tasks[t].stage.Taken? == s'.tasks[t].stage.Taken?
    ensures PoolsOk(s') && Local(s, s', {s.tasks[t].conn}, {t}, {}, {s.tasks[t].stage.resp}) && TasksFine(s', {t})
  {
    hide ConnOk, TaskOk, PoolFine, Pool.Release, Inv, BeforeTake;
    AliveParts(s, t);
    var p := s.tasks[t].stage.resp;
    OwnsItsResponse(s, t, p);
    FineRelease(s.resps, s.freeResps, s.respOwner, p);
    assert PoolsOk(s');
    FreeResponseTask(s, s', t);
    hide PoolsOk, TasksFine;
    FreeResponseTouches(s, s', t);
  }

  lemma KeepsFreeResponse(s: State, s': State, t: nat)
    requires Inv(s) && DoFreeResponse(s, t) == Some(s')
    ensures Inv(s')
  {
    hide *;
    FreeResponseLocal(s, s', t);
    StageMoved(s, s', t);
    Assemble(s, s', {s.tasks[t].conn}, {t}, {}, {s.tasks[t].stage.resp});
  }

  // ---------- Take ----------

  /** The number in a filled response is always found: its request is still pending. */
  lemma TakeFinds(s: State, t: nat)
    requires Inv(s) && t in s.tasks && s.tasks[t].stage.Filled?
    ensures s.tasks[t].conn in s.conns && s.tasks[t].stage.resp in s.resps.heap
    ensures s.resps.heap[s.tasks[t].stage.resp].body.seqNo == s.tasks[t].ticket
    ensures var conn := s.conns[s.tasks[t].conn];
            s.tasks[t].ticket in conn.codec.pending
            && conn.codec.pending[s.tasks[t].ticket] == TicketAt(conn.log, s.tasks[t].ticket).id
  {
    hide ConnOk, PoolsOk, OutputOk, TicketOk, ReaderOk, HoldsRequest, TicketAt;
    AliveParts(s, t);
    ConnParts(s, s.tasks[t].conn);
  }

  /** So the step always takes the first branch. */
  lemma TakeEffect(s: State, s': State, t: nat)
    requires Inv(s) && DoTake(s, t) == Some(s')
    ensures Alive(s, t) && s.tasks[t].stage.Filled? && s.tasks[t].stage.resp in s.resps.heap
    ensures var task, c, conn := s.tasks[t], s.tasks[t].conn, s.conns[s.tasks[t].conn];
            var ticket := TicketAt(conn.log, task.ticket).(phase := InFlight(t));
            && conn.sending.None?
            && s' == s.(tasks := s.tasks[t := task.(stage := Taken(task.stage.reply, task.stage.resp, ticket.id))],
                        conns := s.conns[c := conn.(codec := conn.codec.Settle(task.ticket), sending := Some(t),
                                                    log := Mark(conn.log, task.ticket, ticket), attempts := conn.attempts + 1)])
  {
    hide ConnOk, PoolsOk, TaskOk, Mark, TicketAt;
    TakeFinds(s, t);
  }

  lemma SamePools(s: State, s': State)
    requires PoolsOk(s) && s' == s.(tasks := s'.tasks, conns := s'.conns)
    ensures PoolsOk(s')
  {
    hide PoolFine;
  }

  lemma TakeTask(s: State, s': State, t: nat)
    requires t in s.tasks && TaskOk(s, t) && s.tasks[t].stage.Filled?
    requires var task, c, conn := s.tasks[t], s.tasks[t].conn, s.conns[s.tasks[t].conn];
             var ticket := TicketAt(conn.log, task.ticket).(phase := InFlight(t));
             s' == s.(tasks := s.tasks[t := task.(stage := Taken(task.stage.reply, task.stage.resp, ticket.id))],
                      conns := s.conns[c := conn.(codec := conn.codec.Settle(task.ticket), sending := Some(t),
                                                  log := Mark(conn.log, task.ticket, ticket), attempts := conn.attempts + 1)])
    ensures TasksFine(s', {t})
  {
    var task, conn := s.tasks[t], s.conns[s.tasks[t].conn];
    MarkAt(conn.log, task.ticket, TicketAt(conn.log, task.ticket).(phase := InFlight(t)), task.ticket);
    hide Mark, TicketAt;
    assert TaskOk(s', t);
  }

  lemma TakeLocal(s: State, s': State, t: nat)
    requires Inv(s) && DoTake(s, t) == Some(s')
    ensures t in s.tasks && PoolsOk(s') && Local(s, s', {s.tasks[t].conn}, {t}, {}, {})
    ensures TasksFine(s', {t})
  {
    hide ConnOk, PoolsOk, TaskOk, Inv, Mark, TicketAt;
    AliveParts(s, t);
    TakeEffect(s, s', t);
    hide DoTake;
    SamePools(s, s');
    TakeTask(s, s', t);
  }

  lemma OpenTicket(s: State, t: nat)
    requires t in s.tasks && TaskOk(s, t) && s.tasks[t].stage.Filled?
    ensures var log := s.conns[s.tasks[t].conn].log;
            TicketAt(log, s.tasks[t].ticket).phase == AtTask(t) && InLog(log, s.tasks[t].ticket)
  {
    hide HoldsRequest, HoldsResponse, Carries, TicketAt;
  }

  lemma InFlightTicket(s: State, c: nat, t: nat, k: nat)
    requires c in s.conns && t in s.tasks && TicketAt(s.conns[c].log, k).phase == InFlight(t)
    requires s.tasks[t].conn == c && s.tasks[t].ticket == k && s.tasks[t].stage.Taken?
    ensures TicketOk(s, c, k)
  {
  }

  lemma MarkAll(log: seq<Ticket>, k: nat, ticket: Ticket)
    requires InLog(log, k)
    ensures |Mark(log, k, ticket)| == |log|
    ensures forall j :: TicketAt(Mark(log, k, ticket), j) == if j == k then ticket else TicketAt(log, j)
  {
    forall j: nat
      ensures TicketAt(Mark(log, k, ticket), j) == if j == k then ticket else TicketAt(log, j)
    {
      MarkAt(log, k, ticket, j);
    }
  }

  lemma TakeConn(s: State, s': State, t: nat)
    requires Inv(s) && DoTake(s, t) == Some(s')
    ensures t in s.tasks && ConnsFine(s', {s.tasks[t].conn}) && OthersSeeNothing(s, s', {s.tasks[t].conn}, {t})
  {
    hide Inv, ConnOk, PoolsOk, LedgerOk, OutputOk, TaskOk, ReaderOk, TicketOk, Mark, TicketAt;
    AliveParts(s, t);
    TakeEffect(s, s', t);
    hide DoTake;
    var task, c, conn := s.tasks[t], s.tasks[t].conn, s.conns[s.tasks[t].conn];
    ConnParts(s, c);
    OpenTicket(s, t);
    LedgerTake(conn.codec, conn.log, conn.out, conn.attempts, task.ticket, t);
    MarkAll(conn.log, task.ticket, TicketAt(conn.log, task.ticket).(phase := InFlight(t)));
    assert SameTasks(s, s', {t}) && SameRequests(s, s', {});
    hide SameTasks, SameRequests;
    InFlightTicket(s', c, t, task.ticket);
    ConnAfter(s, s', c, t, {});
    ViewsAfter(s, s', c, t);
  }

  lemma KeepsTake(s: State, s': State, t: nat)
    requires Inv(s) && DoTake(s, t) == Some(s')
    ensures Inv(s')
  {
    hide *;
    TakeLocal(s, s', t);
    TakeConn(s, s', t);
    Assemble(s, s', {s.tasks[t].conn}, {t}, {}, {});
  }

  // ---------- Emit ----------

  lemma EmitLocal(s: State, s': State, t: nat, ok: bool)
    requires Inv(s) && DoEmit(s, t, ok) == Some(s')
    ensures t in s.tasks && PoolsOk(s') && Local(s, s', {s.tasks[t].conn}, {t}, {}, {})
    ensures TasksFine(s', {t})
  {
    hide ConnOk, PoolFine;
    AliveParts(s, t);
    var task, conn := s.tasks[t], s.conns[s.tasks[t].conn];
    var done := TicketAt(conn.log, task.ticket).(phase := Done(if ok then Some(|conn.out|) else None));
    MarkAt(conn.log, task.ticket, done, task.ticket);
    hide Mark, TicketAt;
    assert TaskOk(s', t);
  }

  lemma EmitConn(s: State, s': State, t: nat, ok: bool)
    requires Inv(s) && DoEmit(s, t, ok) == Some(s')
    ensures t in s.tasks && ConnsFine(s', {s.tasks[t].conn}) && OthersSeeNothing(s, s', {s.tasks[t].conn}, {t})
  {
    hide ConnOk, PoolsOk, LedgerOk, OutputOk, HoldsRequest;
    AliveParts(s, t);
    var task, c, conn := s.tasks[t], s.tasks[t].conn, s.conns[s.tasks[t].conn];
    var ticket := TicketAt(conn.log, task.ticket).(phase := Done(if ok then Some(|conn.out|) else None));
    var resp := s.resps.heap[task.stage.resp].body;
    ConnParts(s, c);
    LedgerEmit(conn.codec, conn.log, conn.out, conn.attempts, task.ticket, ok,
               WireResponse(IdText(task.stage.id), Wire(resp.error, task.stage.reply)));
    hide Mark, TicketAt;
    forall j: nat
      ensures TicketAt(s'.conns[c].log, j) == if j == task.ticket then ticket else TicketAt(conn.log, j)
    {
      MarkAt(conn.log, task.ticket, ticket, j);
    }
    MarkAt(conn.log, task.ticket, ticket, 0);
    assert TicketOk(s', c, task.ticket);
    ConnAfter(s, s', c, t, {});
    ViewsAfter(s, s', c, t);
  }

  lemma KeepsEmit(s: State, s': State, t: nat, ok: bool)
    requires Inv(s) && DoEmit(s, t, ok) == Some(s')
    ensures Inv(s')
  {
    hide *;
    EmitLocal(s, s', t, ok);
    EmitConn(s, s', t, ok);
    Assemble(s, s', {s.tasks[t].conn}, {t}, {}, {});
  }

  // ---------- FreeRequest ----------

  lemma FreeRequestTouches(s: State, s': State, t: nat)
    requires DoFreeRequest(s, t) == Some(s') && Alive(s, t)
    requires s.tasks[t].req in s.reqOwner && s.reqOwner[s.tasks[t].req] == ByTask(t)
    ensures Local(s, s', {s.tasks[t].conn}, {t}, {s.tasks[t].req}, {})
  {
  }

  lemma FreeRequestLocal(s: State, s': State, t: nat)
    requires Inv(s) && DoFreeRequest(s, t) == Some(s')
    ensures t in s.tasks && PoolsOk(s') && Local(s, s', {s.tasks[t].conn}, {t}, {s.tasks[t].req}, {})
    ensures TasksFine(s', {t})
  {
    hide ConnOk, TaskOk, PoolFine, Pool.Release, Inv;
    AliveParts(s, t);
    FineRelease(s.reqs, s.freeReqs, s.reqOwner, s.tasks[t].req);
    assert PoolsOk(s') && TasksFine(s', {t});
    hide PoolsOk, TasksFine;
    FreeRequestTouches(s, s', t);
  }

  lemma FreeRequestView(s: State, s': State, t: nat)
    requires Inv(s) && DoFreeRequest(s, t) == Some(s')
    ensures t in s.tasks && OthersSeeNothing(s, s', {s.tasks[t].conn}, {t})
  {
    hide ConnOk, PoolsOk, TaskOk, Pool.Release;
    InvParts(s);
    TaskConn(s, t);
    forall x | x in s.tasks && x != t && s.tasks[x].conn == s.tasks[t].conn
      ensures SameView(s, s', x)
    {
      TaskConn(s, x);
    }
  }

  lemma FreeRequestConn(s: State, s': State, t: nat)
    requires Inv(s) && DoFreeRequest(s, t) == Some(s')
    ensures t in s.tasks && ConnsFine(s', {s.tasks[t].conn}) && OthersSeeNothing(s, s', {s.tasks[t].conn}, {t})
  {
    hide ConnOk, PoolsOk, LedgerOk, OutputOk, StageOk, TicketAt;
    AliveParts(s, t);
    var c := s.tasks[t].conn;
    ConnParts(s, c);
    assert ReaderOk(s', c);
    hide HoldsRequest, Pool.Release;
    forall j: nat
      ensures TicketOk(s', c, j)
    {
      assert TicketOk(s, c, j);
    }
    ConnFrom(s', c);
    hide TicketOk, ReaderOk;
    FreeRequestView(s, s', t);
  }

  lemma KeepsFreeRequest(s: State, s': State, t: nat)
    requires Inv(s) && DoFreeRequest(s, t) == Some(s')
    ensures Inv(s')
  {
    hide *;
    FreeRequestLocal(s, s', t);
    FreeRequestConn(s, s', t);
    Assemble(s, s', {s.tasks[t].conn}, {t}, {s.tasks[t].req}, {});
  }

  // ---------- Runs ----------

  /** Every step keeps the invariant, as long as the sequence numbers do not wrap. */
  lemma StepKeeps(s: State, s': State, e: Event)
    requires Inv(s) && Step(s, e) == Some(s') && Bounded(s')
    ensures Inv(s')
  {
    hide Inv, Bounded, DoConnect, DoGetRequest, DoReadHeader, DoReadFails, DoDispatch, DoCall, DoGetResponse, DoFill,
      DoTake, DoEmit, DoFreeResponse, DoFreeRequest;
    match e {
      case Connect(c) => KeepsConnect(s, s', c);
      case GetRequest(c, spare) => KeepsGetRequest(s, s', c, spare);
      case ReadHeader(c, name, id) => KeepsReadHeader(s, s', c, name, id);
      case ReadFails(c) => KeepsReadFails(s, s', c);
      case Spawn(c, t) => KeepsDispatch(s, s', c, t, Idle, Calling, None);
      case Reject(c, t, text) =>
        var outcome := Outcome(INVALID_REQUEST, Some(text));
        KeepsDispatch(s, s', c, t, Waiting(t), Replied(outcome), Some(outcome));
      case Call(t, outcome) => KeepsCall(s, s', t, outcome);
      case GetResponse(t, spare) => KeepsGetResponse(s, s', t, spare);
      case Fill(t) => KeepsFill(s, s', t);
      case Take(t) => KeepsTake(s, s', t);
      case Emit(t, ok) => KeepsEmit(s, s', t, ok);
      case FreeResponse(t) => KeepsFreeResponse(s, s', t);
      case FreeRequest(t) => KeepsFreeRequest(s, s', t);
    }
  }

  /** The state after a run, if every event could happen. */
  function Run(events: seq<Event>): Option<State> {
    if events == [] then Some(START)
    else
      match Run(events[..|events| - 1])
      case Some(s) => Step(s, events[|events| - 1])
      case None => None
  }

  lemma StepGrows(s: State, s': State, e: Event, c: nat)
    requires Step(s, e) == Some(s') && c in s.conns
    ensures c in s'.conns && |s.conns[c].log| <= |s'.conns[c].log|
  {
    hide TicketAt;
  }

  lemma BoundedBefore(s: State, s': State, e: Event)
    requires Step(s, e) == Some(s') && Bounded(s')
    ensures Bounded(s)
  {
    hide Step;
    forall c | c in s.conns
      ensures |s.conns[c].log| < SEQ_LIMIT
    {
      StepGrows(s, s', e, c);
    }
  }

  /** The invariant holds after every run. */
  lemma {:induction false} RunKeeps(events: seq<Event>, s: State)
    requires Run(events) == Some(s) && Bounded(s)
    ensures Inv(s)
    decreases |events|
  {
    hide Step, Bounded;
    if events == [] {
      assert Inv(s);
    } else {
      var e := events[|events| - 1];
      var before := Run(events[..|events| - 1]).value;
      BoundedBefore(before, s, e);
      RunKeeps(events[..|events| - 1], before);
      StepKeeps(before, s, e);
    }
  }
}
