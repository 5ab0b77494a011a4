/** The server's concurrency (`wsrpc/server.go`, `wsrpc/codec.go`): any number of connections,
    each with a reader loop and handler goroutines, sharing two free lists.  One event is one
    critical section or one stretch of code on objects its goroutine owns; a run is any
    sequence of events. */
module RpcProtocol {
  import opened Strings
  import opened RpcPool
  import opened RpcCodec

  // ---------- State ----------

  /** Who may touch an object. */
  datatype Owner = OnList | ByReader(conn: nat) | ByTask(task: nat) | Leaked

  datatype Reader =
    | Idle                                   // at the top of the loop
    | HasRequest(req: nat)                   // took a request object
    | HasHeader(req: nat, ticket: nat)       // read a header into it
    | Waiting(task: nat)                     // sends an error response itself
    | Closed

  datatype Stage =
    | Calling                                // in the handler
    | Replied(outcome: Outcome)
    | HasResponse(outcome: Outcome, resp: nat)
    | Filled(reply: string, resp: nat)
    | Taken(reply: string, resp: nat, id: Id)   // holds the sending lock, id removed from pending
    | Answered(resp: nat)
    | Returned                               // gave the response object back

  /** A goroutine that answers one request; `ticket` is the number its header was read under. */
  datatype Task = Task(conn: nat, req: nat, inline: bool, stage: Stage, ticket: nat)

  /** History of one header: the id it came with, the handler's outcome, and where it is. */
  datatype Phase = AtReader | AtTask(task: nat) | InFlight(task: nat) | Done(at: Option<nat>)

  datatype Ticket = Ticket(id: Id, outcome: Option<Outcome>, phase: Phase)

  datatype Sent = Sent(answers: nat, response: WireResponse)

  /** `log` (one ticket per header read) and `attempts` (responses that reached the encoder) are
      history: no step depends on them. */
  datatype Conn = Conn(reader: Reader, codec: Codec, sending: Option<nat>, out: seq<Sent>,
                       log: seq<Ticket>, attempts: nat)

  /** The owner maps and the two lists are history as well. */
  datatype State = State(
    conns: map<nat, Conn>, tasks: map<nat, Task>, reqs: Pool<ReqBody>, resps: Pool<RespBody>,
    freeReqs: seq<nat>, freeResps: seq<nat>, reqOwner: map<nat, Owner>, respOwner: map<nat, Owner>)

  const START := State(map[], map[], Pool(map[], None), Pool(map[], None), [], [], map[], map[])
  const ZERO_REQUEST := ReqBody("", 0)

  // ---------- Steps ----------

  datatype Event =
    | Connect(c: nat)
    | GetRequest(c: nat, spare: nat)
    | ReadHeader(c: nat, name: string, id: Id)
    | ReadFails(c: nat)
    | Spawn(c: nat, t: nat)
    | Reject(c: nat, t: nat, text: string)
    | Call(t: nat, outcome: Outcome)
    | GetResponse(t: nat, spare: nat)
    | Fill(t: nat)
    | Take(t: nat)
    | Emit(t: nat, ok: bool)
    | FreeResponse(t: nat)
    | FreeRequest(t: nat)

  function Tail(list: seq<nat>): seq<nat> { if list == [] then [] else list[1..] }

  function Mark(log: seq<Ticket>, k: nat, ticket: Ticket): seq<Ticket> {
    if 1 <= k <= |log| then log[k - 1 := ticket] else log
  }

  function TicketAt(log: seq<Ticket>, k: nat): Ticket {
    if 1 <= k <= |log| then log[k - 1] else Ticket(None, None, Done(None))
  }

  function DoConnect(s: State, c: nat): Option<State> {
    if c in s.conns then None
    else Some(s.(conns := s.conns[c := Conn(Idle, Codec(0, map[]), None, [], [], 0)]))
  }

  /** The reader loop takes a request object from the free list. */
  function DoGetRequest(s: State, c: nat, spare: nat): Option<State> {
    if c !in s.conns || !s.conns[c].reader.Idle? || spare in s.reqs.heap then None
    else
      var r := s.reqs.Acquired(spare);
      Some(s.(conns := s.conns[c := s.conns[c].(reader := HasRequest(r))],
              reqs := s.reqs.Acquire(spare, ZERO_REQUEST), freeReqs := Tail(s.freeReqs),
              reqOwner := s.reqOwner[r := ByReader(c)]))
  }

  /** It decodes a header, files the id under the next number and stores the number. */
  function DoReadHeader(s: State, c: nat, name: string, id: Id): Option<State> {
    if c !in s.conns || !s.conns[c].reader.HasRequest? || s.conns[c].reader.req !in s.reqs.heap then None
    else
      var conn, r := s.conns[c], s.conns[c].reader.req;
      var codec := conn.codec.Admit(id);
      Some(s.(conns := s.conns[c := conn.(reader := HasHeader(r, |conn.log| + 1), codec := codec,
                                          log := conn.log + [Ticket(id, None, AtReader)])],
              reqs := s.reqs.Store(r, ReqBody(name, codec.seqNo))))
  }

  /** The read failed: the loop ends and the request object is dropped. */
  function DoReadFails(s: State, c: nat): Option<State> {
    if c !in s.conns || !s.conns[c].reader.HasRequest? then None
    else
      Some(s.(conns := s.conns[c := s.conns[c].(reader := Closed)],
              reqOwner := s.reqOwner[s.conns[c].reader.req := Leaked]))
  }

  /** It hands the request to a new goroutine, which will answer it. */
  function DoDispatch(s: State, c: nat, t: nat, reader: Reader, stage: Stage, outcome: Option<Outcome>): Option<State> {
    if c !in s.conns || !s.conns[c].reader.HasHeader? || t in s.tasks then None
    else
      var conn, r, k := s.conns[c], s.conns[c].reader.req, s.conns[c].reader.ticket;
      var ticket := TicketAt(conn.log, k).(outcome := outcome, phase := AtTask(t));
      Some(s.(conns := s.conns[c := conn.(reader := reader, log := Mark(conn.log, k, ticket))],
              tasks := s.tasks[t := Task(c, r, reader.Waiting?, stage, k)],
              reqOwner := s.reqOwner[r := ByTask(t)]))
  }

  function DoSpawn(s: State, c: nat, t: nat): Option<State> {
    DoDispatch(s, c, t, Idle, Calling, None)
  }

  /** No such service, or bad arguments: the loop itself sends the error. */
  function DoReject(s: State, c: nat, t: nat, text: string): Option<State> {
    var outcome := Outcome(INVALID_REQUEST, Some(text));
    DoDispatch(s, c, t, Waiting(t), Replied(outcome), Some(outcome))
  }

  /** A goroutine and the objects it was given exist. */
  predicate Alive(s: State, t: nat) {
    t in s.tasks && s.tasks[t].conn in s.conns && s.tasks[t].req in s.reqs.heap
  }

  function DoCall(s: State, t: nat, outcome: Outcome): Option<State> {
    if !Alive(s, t) || !s.tasks[t].stage.Calling? then None
    else
      var task, c, conn := s.tasks[t], s.tasks[t].conn, s.conns[s.tasks[t].conn];
      var ticket := TicketAt(conn.log, task.ticket).(outcome := Some(outcome));
      Some(s.(tasks := s.tasks[t := task.(stage := Replied(outcome))],
              conns := s.conns[c := conn.(log := Mark(conn.log, task.ticket, ticket))]))
  }

  function DoGetResponse(s: State, t: nat, spare: nat): Option<State> {
    if !Alive(s, t) || !s.tasks[t].stage.Replied? || spare in s.resps.heap then None
    else
      var p := s.resps.Acquired(spare);
      Some(s.(tasks := s.tasks[t := s.tasks[t].(stage := HasResponse(s.tasks[t].stage.outcome, p))],
              resps := s.resps.Acquire(spare, ZERO_RESPONSE), freeResps := Tail(s.freeResps),
              respOwner := s.respOwner[p := ByTask(t)]))
  }

  /** Only an error overwrites the error text that the response object came with. */
  function DoFill(s: State, t: nat): Option<State> {
    if !Alive(s, t) || !s.tasks[t].stage.HasResponse? || s.tasks[t].stage.resp !in s.resps.heap then None
    else
      var task, outcome, p := s.tasks[t], s.tasks[t].stage.outcome, s.tasks[t].stage.resp;
      var req, resp := s.reqs.heap[task.req].body, s.resps.heap[p].body;
      var error := if outcome.error.Some? then outcome.error.value else resp.error;
      Some(s.(tasks := s.tasks[t := task.(stage := Filled(outcome.Reply(), p))],
              resps := s.resps.Store(p, RespBody(req.serviceMethod, error, req.seqNo))))
  }

  /** Under the sending lock, the number in the response is looked up and removed. */
  function DoTake(s: State, t: nat): Option<State> {
    if !Alive(s, t) || !s.tasks[t].stage.Filled? || s.tasks[t].stage.resp !in s.resps.heap
       || s.conns[s.tasks[t].conn].sending.Some? then None
    else
      var task, c, conn, p := s.tasks[t], s.tasks[t].conn, s.conns[s.tasks[t].conn], s.tasks[t].stage.resp;
      var k := s.resps.heap[p].body.seqNo;
      if k !in conn.codec.pending then Some(s.(tasks := s.tasks[t := task.(stage := Answered(p))]))
      else
        var ticket := TicketAt(conn.log, task.ticket).(phase := InFlight(t));
        Some(s.(tasks := s.tasks[t := task.(stage := Taken(task.stage.reply, p, conn.codec.pending[k]))],
                conns := s.conns[c := conn.(codec := conn.codec.Settle(k), sending := Some(t),
                                            log := Mark(conn.log, task.ticket, ticket), attempts := conn.attempts + 1)]))
  }

  /** The encoder writes the response, or fails; then the lock is released. */
  function DoEmit(s: State, t: nat, ok: bool): Option<State> {
    if !Alive(s, t) || !s.tasks[t].stage.Taken? || s.tasks[t].stage.resp !in s.resps.heap then None
    else
      var task, c, conn, p := s.tasks[t], s.tasks[t].conn, s.conns[s.tasks[t].conn], s.tasks[t].stage.resp;
      var resp := s.resps.heap[p].body;
      var response := WireResponse(IdText(task.stage.id), Wire(resp.error, task.stage.reply));
      var ticket := TicketAt(conn.log, task.ticket).(phase := Done(if ok then Some(|conn.out|) else None));
      Some(s.(tasks := s.tasks[t := task.(stage := Answered(p))],
              conns := s.conns[c := conn.(sending := None,
                                          out := conn.out + if ok then [Sent(resp.seqNo, response)] else [],
                                          log := Mark(conn.log, task.ticket, ticket))]))
  }

  function DoFreeResponse(s: State, t: nat): Option<State> {
    if !Alive(s, t) || !s.tasks[t].stage.Answered? || s.tasks[t].stage.resp !in s.resps.heap then None
    else
      var p := s.tasks[t].stage.resp;
      Some(s.(tasks := s.tasks[t := s.tasks[t].(stage := Returned)],
              resps := s.resps.Release(p), freeResps := [p] + s.freeResps,
              respOwner := s.respOwner[p := OnList]))
  }

  function DoFreeRequest(s: State, t: nat): Option<State> {
    if !Alive(s, t) || !s.tasks[t].stage.Returned? then None
    else
      var task, c := s.tasks[t], s.tasks[t].conn;
      Some(s.(tasks := s.tasks - {t},
              conns := if task.inline then s.conns[c := s.conns[c].(reader := Idle)] else s.conns,
              reqs := s.reqs.Release(task.req), freeReqs := [task.req] + s.freeReqs,
              reqOwner := s.reqOwner[task.req := OnList]))
  }

  /** The state after an event, if the event can happen. */
  function Step(s: State, e: Event): Option<State> {
    match e
    case Connect(c) => DoConnect(s, c)
    case GetRequest(c, spare) => DoGetRequest(s, c, spare)
    case ReadHeader(c, name, id) => DoReadHeader(s, c, name, id)
    case ReadFails(c) => DoReadFails(s, c)
    case Spawn(c, t) => DoSpawn(s, c, t)
    case Reject(c, t, text) => DoReject(s, c, t, text)
    case Call(t, outcome) => DoCall(s, t, outcome)
    case GetResponse(t, spare) => DoGetResponse(s, t, spare)
    case Fill(t) => DoFill(s, t)
    case Take(t) => DoTake(s, t)
    case Emit(t, ok) => DoEmit(s, t, ok)
    case FreeResponse(t) => DoFreeResponse(s, t)
    case FreeRequest(t) => DoFreeRequest(s, t)
  }

  // ---------- The invariant ----------

  predicate Open(phase: Phase) { phase.AtReader? || phase.AtTask? }

  /** The objects marked as free are the ones on the list, and every object has an owner. */
  ghost predicate PoolFine<T>(pool: Pool<T>, list: seq<nat>, owner: map<nat, Owner>) {
    && pool.IsList(list) && owner.Keys == pool.heap.Keys
    && forall x :: x in owner ==> (x in list <==> owner[x] == OnList)
  }

  ghost predicate PoolsOk(s: State) {
    PoolFine(s.reqs, s.freeReqs, s.reqOwner) && PoolFine(s.resps, s.freeResps, s.respOwner)
  }

  predicate InLog(log: seq<Ticket>, k: nat) { 1 <= k <= |log| }

  ghost predicate HoldsRequest(s: State, owner: Owner, r: nat, ticket: nat) {
    r in s.reqs.heap && r in s.reqOwner && s.reqOwner[r] == owner && s.reqs.heap[r].body.seqNo == ticket
  }

  ghost predicate HoldsResponse(s: State, t: nat, p: nat) {
    p in s.resps.heap && p in s.respOwner && s.respOwner[p] == ByTask(t)
  }

  predicate Carries(resp: RespBody, reply: string, ticket: nat, outcome: Outcome) {
    resp.seqNo == ticket && resp.error == outcome.ErrorText() && reply == outcome.Reply()
  }

  ghost predicate StageOk(s: State, t: nat, task: Task, ticket: Ticket, sending: Option<nat>) {
    match task.stage
    case Calling => ticket.phase == AtTask(t) && ticket.outcome.None?
    case Replied(outcome) => ticket.phase == AtTask(t) && ticket.outcome == Some(outcome)
    case HasResponse(outcome, p) =>
      && ticket.phase == AtTask(t) && ticket.outcome == Some(outcome)
      && HoldsResponse(s, t, p) && s.resps.heap[p].body == ZERO_RESPONSE
    case Filled(reply, p) =>
      && ticket.phase == AtTask(t) && ticket.outcome.Some?
      && HoldsResponse(s, t, p) && Carries(s.resps.heap[p].body, reply, task.ticket, ticket.outcome.value)
    case Taken(reply, p, id) =>
      && ticket.phase == InFlight(t) && ticket.outcome.Some? && id == ticket.id && sending == Some(t)
      && HoldsResponse(s, t, p) && Carries(s.resps.heap[p].body, reply, task.ticket, ticket.outcome.value)
    case Answered(p) => ticket.phase.Done? && HoldsResponse(s, t, p)
    case Returned => ticket.phase.Done?
  }

  /** What a goroutine knows about its request, its ticket and its response object. */
  ghost predicate TaskOk(s: State, t: nat)
    requires t in s.tasks
  {
    var task := s.tasks[t];
    && task.conn in s.conns
    && HoldsRequest(s, ByTask(t), task.req, task.ticket)
    && (task.inline ==> s.conns[task.conn].reader == Waiting(t))
    && InLog(s.conns[task.conn].log, task.ticket)
    && StageOk(s, t, task, TicketAt(s.conns[task.conn].log, task.ticket), s.conns[task.conn].sending)
  }

  predicate BeforeTake(stage: Stage) {
    stage.Calling? || stage.Replied? || stage.HasResponse? || stage.Filled?
  }

  ghost predicate ReaderOk(s: State, c: nat)
    requires c in s.conns
  {
    var conn := s.conns[c];
    match conn.reader
    case HasRequest(r) => r in s.reqs.heap && r in s.reqOwner && s.reqOwner[r] == ByReader(c)
    case HasHeader(r, k) =>
      && HoldsRequest(s, ByReader(c), r, k) && InLog(conn.log, k)
      && TicketAt(conn.log, k).phase == AtReader && TicketAt(conn.log, k).outcome.None?
    case Waiting(t) => t in s.tasks && s.tasks[t].conn == c && s.tasks[t].inline
    case _ => true
  }

  /** Numbers and pending ids of one connection, against its history. */
  ghost predicate LedgerOk(codec: Codec, log: seq<Ticket>, attempts: nat) {
    && codec.seqNo == |log|
    && (forall k :: k in codec.pending <==> Open(TicketAt(log, k).phase))
    && (forall k :: k in codec.pending ==> codec.pending[k] == TicketAt(log, k).id)
    && |log| == |codec.pending| + attempts
  }

  ghost predicate Matches(ticket: Ticket, i: nat, sent: Sent) {
    && ticket.phase == Done(Some(i)) && ticket.outcome.Some?
    && sent.response == WireResponse(IdText(ticket.id), Wire(ticket.outcome.value.ErrorText(), ticket.outcome.value.Reply()))
  }

  /** Output `i` is the answer of the request it names, with that request's id and outcome; and
      a request that was answered knows its output. */
  ghost predicate OutputOk(log: seq<Ticket>, out: seq<Sent>) {
    && (forall i :: 0 <= i < |out| ==> Matches(TicketAt(log, out[i].answers), i, out[i]))
    && (forall k :: TicketAt(log, k).phase.Done? && TicketAt(log, k).phase.at.Some? ==>
          TicketAt(log, k).phase.at.value < |out| && out[TicketAt(log, k).phase.at.value].answers == k)
  }

  /** A ticket that is not done is in the hands of exactly the goroutine it names. */
  ghost predicate TicketOk(s: State, c: nat, k: nat)
    requires c in s.conns
  {
    match TicketAt(s.conns[c].log, k).phase
    case AtReader => s.conns[c].reader.HasHeader? && s.conns[c].reader.ticket == k
    case AtTask(t) => t in s.tasks && s.tasks[t].conn == c && s.tasks[t].ticket == k && BeforeTake(s.tasks[t].stage)
    case InFlight(t) => t in s.tasks && s.tasks[t].conn == c && s.tasks[t].ticket == k && s.tasks[t].stage.Taken?
    case Done(_) => true
  }

  /** The sending lock is held by a goroutine that is about to write. */
  ghost predicate LockOk(s: State, c: nat)
    requires c in s.conns
  {
    s.conns[c].sending.Some? ==>
      var t := s.conns[c].sending.value;
      t in s.tasks && s.tasks[t].conn == c && s.tasks[t].stage.Taken?
  }

  ghost predicate ConnOk(s: State, c: nat)
    requires c in s.conns
  {
    var conn := s.conns[c];
    && LedgerOk(conn.codec, conn.log, conn.attempts) && OutputOk(conn.log, conn.out) && ReaderOk(s, c) && LockOk(s, c)
    && (forall k :: TicketOk(s, c, k))
  }

  ghost predicate Inv(s: State) {
    && PoolsOk(s)
    && (forall c :: c in s.conns ==> ConnOk(s, c))
    && (forall t :: t in s.tasks ==> TaskOk(s, t))
  }

  /** No connection has read as many headers as a sequence number can count. */
  ghost predicate Bounded(s: State) {
    forall c :: c in s.conns ==> |s.conns[c].log| < SEQ_LIMIT
  }

  // ---------- One pool ----------

  lemma FineAcquire<T>(pool: Pool<T>, list: seq<nat>, owner: map<nat, Owner>, spare: nat, zero: T, to: Owner)
    requires PoolFine(pool, list, owner) && spare !in pool.heap && to != OnList
    ensures var next, id := pool.Acquire(spare, zero), pool.Acquired(spare);
            && PoolFine(next, Tail(list), owner[id := to])
            && id in next.heap && next.heap[id].body == zero && (id in owner ==> owner[id] == OnList)
            && forall x :: x in pool.heap && x != id ==> x in next.heap && next.heap[x] == pool.heap[x]
  {
    AcquireKeeps(pool, list, spare, zero);
    hide Pool.IsList, Pool.Acquire;
    assert forall x :: x in list ==> x in Tail(list) || x == list[0];
  }

  lemma FineRelease<T>(pool: Pool<T>, list: seq<nat>, owner: map<nat, Owner>, id: nat)
    requires PoolFine(pool, list, owner) && id in owner && owner[id] != OnList
    ensures id in pool.heap && PoolFine(pool.Release(id), [id] + list, owner[id := OnList])
    ensures forall x :: x in pool.heap ==> x in pool.Release(id).heap && pool.Release(id).heap[x].body == pool.heap[x].body
  {
    ReleaseKeeps(pool, list, id);
    hide Pool.IsList, Pool.Release;
  }

  lemma FineStore<T>(pool: Pool<T>, list: seq<nat>, owner: map<nat, Owner>, id: nat, body: T)
    requires PoolFine(pool, list, owner) && id in pool.heap
    ensures PoolFine(pool.Store(id, body), list, owner)
    ensures pool.Store(id, body).heap.Keys == pool.heap.Keys && pool.Store(id, body).heap[id].body == body
    ensures forall x :: x in pool.heap && x != id ==> pool.Store(id, body).heap[x] == pool.heap[x]
  {
    StoreKeeps(pool, list, id, body);
    hide Pool.IsList, Pool.Store;
  }

  lemma FineReown<T>(pool: Pool<T>, list: seq<nat>, owner: map<nat, Owner>, id: nat, to: Owner)
    requires PoolFine(pool, list, owner) && id in owner && owner[id] != OnList && to != OnList
    ensures PoolFine(pool, list, owner[id := to])
  {
    hide Pool.IsList;
  }

  // ---------- One connection's books ----------

  lemma MarkAt(log: seq<Ticket>, k: nat, ticket: Ticket, j: nat)
    ensures |Mark(log, k, ticket)| == |log|
    ensures TicketAt(Mark(log, k, ticket), j) == if j == k && InLog(log, k) then ticket else TicketAt(log, j)
  {
  }

  lemma AdmitPending(codec: Codec, id: Id, k: nat)
    requires codec.seqNo + 1 == k < SEQ_LIMIT && k !in codec.pending
    ensures codec.Admit(id) == Codec(k, codec.pending[k := id])
    ensures |codec.Admit(id).pending| == |codec.pending| + 1
  {
    assert codec.Admit(id).pending.Keys == codec.pending.Keys + {k};
  }

  lemma AdmitOutput(log: seq<Ticket>, log': seq<Ticket>, out: seq<Sent>)
    requires OutputOk(log, out)
    requires forall j :: TicketAt(log', j) == TicketAt(log, j)
               || (TicketAt(log, j).phase == Done(None) && !TicketAt(log', j).phase.Done?)
    ensures OutputOk(log', out)
  {
    hide TicketAt;
  }

  lemma LedgerAdmit(codec: Codec, log: seq<Ticket>, out: seq<Sent>, attempts: nat, id: Id)
    requires LedgerOk(codec, log, attempts) && OutputOk(log, out) && |log| + 1 < SEQ_LIMIT
    ensures var log' := log + [Ticket(id, None, AtReader)];
            && LedgerOk(codec.Admit(id), log', attempts) && OutputOk(log', out)
            && forall j :: TicketAt(log', j) == if j == |log| + 1 then Ticket(id, None, AtReader) else TicketAt(log, j)
  {
    var log' := log + [Ticket(id, None, AtReader)];
    forall j: nat
      ensures TicketAt(log', j) == if j == |log| + 1 then Ticket(id, None, AtReader) else TicketAt(log, j)
    {
    }
    assert TicketAt(log, |log| + 1).phase.Done? && TicketAt(log, |log| + 1).phase.at.None?;
    hide TicketAt;
    AdmitPending(codec, id, |log| + 1);
    AdmitOutput(log, log', out);
  }

  /** A ticket that stays open, or stays done, keeps its id and its output. */
  lemma LedgerMark(codec: Codec, log: seq<Ticket>, out: seq<Sent>, attempts: nat, k: nat, ticket: Ticket)
    requires LedgerOk(codec, log, attempts) && OutputOk(log, out) && InLog(log, k)
    requires Open(TicketAt(log, k).phase) && Open(ticket.phase) && ticket.id == TicketAt(log, k).id
    ensures LedgerOk(codec, Mark(log, k, ticket), attempts) && OutputOk(Mark(log, k, ticket), out)
  {
    forall j: nat
      ensures TicketAt(Mark(log, k, ticket), j) == if j == k then ticket else TicketAt(log, j)
    {
      MarkAt(log, k, ticket, j);
    }
  }

  lemma LedgerTake(codec: Codec, log: seq<Ticket>, out: seq<Sent>, attempts: nat, k: nat, t: nat)
    requires LedgerOk(codec, log, attempts) && OutputOk(log, out) && InLog(log, k) && Open(TicketAt(log, k).phase)
    ensures var log' := Mark(log, k, TicketAt(log, k).(phase := InFlight(t)));
            LedgerOk(codec.Settle(k), log', attempts + 1) && OutputOk(log', out)
  {
    forall j: nat
      ensures TicketAt(Mark(log, k, TicketAt(log, k).(phase := InFlight(t))), j) ==
              if j == k then TicketAt(log, k).(phase := InFlight(t)) else TicketAt(log, j)
    {
      MarkAt(log, k, TicketAt(log, k).(phase := InFlight(t)), j);
    }
    assert codec.Settle(k).pending.Keys == codec.pending.Keys - {k};
  }

  lemma LedgerEmit(codec: Codec, log: seq<Ticket>, out: seq<Sent>, attempts: nat, k: nat, ok: bool, response: WireResponse)
    requires LedgerOk(codec, log, attempts) && OutputOk(log, out) && InLog(log, k)
    requires var ticket := TicketAt(log, k);
             ticket.phase.InFlight? && ticket.outcome.Some? && response ==
             WireResponse(IdText(ticket.id), Wire(ticket.outcome.value.ErrorText(), ticket.outcome.value.Reply()))
    ensures var log' := Mark(log, k, TicketAt(log, k).(phase := Done(if ok then Some(|out|) else None)));
            && LedgerOk(codec, log', attempts)
            && OutputOk(log', out + if ok then [Sent(k, response)] else [])
  {
    var done := TicketAt(log, k).(phase := Done(if ok then Some(|out|) else None));
    forall j: nat
      ensures TicketAt(Mark(log, k, done), j) == if j == k then done else TicketAt(log, j)
    {
      MarkAt(log, k, done, j);
    }
  }
}
