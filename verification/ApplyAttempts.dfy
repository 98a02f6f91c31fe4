/** Manual Apply: one outcome per attempt UUID, replayed for ever after, and the evidence a reader checks. */
module ApplyAttempts {
  import opened Options

  datatype Json =
    | JNull
    | JBool(b: bool)
    | JInt(n: int)
    | JText(text: string)
    | JList(items: seq<Json>)
    | JDict(fields: map<string, Json>)

  type Body = map<string, Json>

  type Uuid = int

  datatype Request = Request(uuid: Uuid, device: int, selected: map<string, int>, preflight: string)

  // ---- the attempt store ----

  datatype Attempt = Attempt(device: int, selected: map<string, int>, admitted: bool, status: int, response: Body)

  const PREFLIGHT := "_preflight_identity"

  datatype Lookup = Mismatch(field: string) | Stored(status: int, body: Body)

  /** `replay_apply_attempt` on a row that exists. */
  function Replay(a: Attempt, r: Request): Lookup {
    if a.device != r.device then Mismatch("device_id")
    else if a.selected != r.selected then Mismatch("selected")
    else if PREFLIGHT !in a.response || a.response[PREFLIGHT] != JText(r.preflight) then Mismatch("preflight_identity")
    else Stored(a.status, a.response - {PREFLIGHT})
  }

  /** `begin_apply_attempt`: the row inserted for a new UUID. */
  function Reserved(r: Request): Attempt {
    Attempt(r.device, r.selected, true, 500, map[PREFLIGHT := JText(r.preflight)])
  }

  /** `complete_apply_attempt`: the answer is merged over the request identity. */
  function Complete(a: Attempt, admitted: bool, status: int, answer: Body): Attempt {
    a.(admitted := admitted, status := status, response := a.response + answer)
  }

  lemma CompletedReplays(r: Request, admitted: bool, status: int, answer: Body)
    requires PREFLIGHT !in answer
    ensures Replay(Complete(Reserved(r), admitted, status, answer), r) == Stored(status, answer)
  {
    var response := Reserved(r).response + answer;
    assert (response - {PREFLIGHT}).Keys == answer.Keys;
  }

  // ---- what creating the Apply answers ----

  datatype Link = Link(seqNo: int, jobId: Option<int>, mode: string, digest: string, sourcePushSeq: Json, revisions: Json)

  /** What the promotion returns: one link for each generation it inserted, none for a no-op. */
  datatype Chain = Chain(links: seq<Link>, skipped: Json, skippedDetail: Json)

  /** One of the three refusals, raised inside the savepoint. */
  datatype Refusal = Refusal(code: string, message: string, detail: Json)

  function OfOption(v: Option<int>): Json {
    match v case None => JNull case Some(n) => JInt(n)
  }

  function LinkAnswer(id: int, l: Link): Json {
    JDict(map["generation_id" := JInt(id), "seq" := JInt(l.seqNo), "job_id" := OfOption(l.jobId), "mode" := JText(l.mode),
              "source_push_seq" := l.sourcePushSeq, "stream_revisions" := l.revisions, "digest" := JText(l.digest)])
  }

  function Selected(selected: map<string, int>): Json {
    JDict(map k | k in selected :: JInt(selected[k]))
  }

  function ChainAnswers(created: seq<int>, links: seq<Link>): seq<Json>
    requires |created| == |links|
  {
    seq(|links|, i requires 0 <= i < |links| => LinkAnswer(created[i], links[i]))
  }

  function PromotedAnswer(r: Request, created: seq<int>, c: Chain): Body
    requires |created| == |c.links|
  {
    var answer := map[
      "device_id" := JInt(r.device), "outcome" := JText(if c.links == [] then "no_op" else "promoted"),
      "selected" := Selected(r.selected), "skipped" := c.skipped, "skipped_detail" := c.skippedDetail,
      "generations" := JList(ChainAnswers(created, c.links))];
    if c.links != [] && c.links[0].jobId.Some? then answer["job_id" := JInt(c.links[0].jobId.value)] else answer
  }

  function RejectedAnswer(c: Refusal): Body {
    map["error" := JDict(map["code" := JText(c.code), "message" := JText(c.message), "detail" := c.detail])]
  }

  /** A chain without an executable head job is an internal error, and nothing is committed. */
  predicate Headless(c: Chain) {
    c.links != [] && c.links[0].jobId.None?
  }

  // ---- the reader's check ----

  function GenerationId(item: Json): Json {
    if item.JDict? && "generation_id" in item.fields then item.fields["generation_id"] else JNull
  }

  /** What the reader demands of a stored answer and the generations stamped with the attempt. */
  ghost predicate EvidenceHolds(response: Body, stamped: set<int>) {
    if "generations" !in response || response["generations"] == JNull then stamped == {}
    else response["generations"].JList? && Names(response["generations"].items, stamped)
  }

  /** The items name each stamped generation once, and nothing else. */
  ghost predicate Names(items: seq<Json>, stamped: set<int>) {
    && (forall i :: 0 <= i < |items| ==> GenerationId(items[i]).JInt?)
    && (forall i, j :: 0 <= i < j < |items| ==> GenerationId(items[i]) != GenerationId(items[j]))
    && (forall n :: n in stamped <==> exists i :: 0 <= i < |items| && GenerationId(items[i]) == JInt(n))
  }

  function Ids(generations: seq<int>): set<int> {
    set n | n in generations
  }

  datatype Violation = NoList | InvalidList | InvalidId | DoesNotMatch

  /** `_validate_attempt_generation_evidence`: None when it raises nothing. */
  method ValidateEvidence(response: Body, generations: seq<int>) returns (violation: Option<Violation>)
    ensures violation.None? <==> EvidenceHolds(response, Ids(generations))
  {
    var stamped := Ids(generations);
    if "generations" !in response || response["generations"] == JNull {
      assert generations != [] ==> generations[0] in stamped;
      return if generations != [] then Some(NoList) else None;
    }
    if !response["generations"].JList? {
      return Some(InvalidList);
    }
    var items := response["generations"].items;
    var ids: set<int> := {};
    var distinct := true;
    for i := 0 to |items|
      invariant forall k :: 0 <= k < i ==> GenerationId(items[k]).JInt?
      invariant forall n :: n in ids <==> exists k :: 0 <= k < i && GenerationId(items[k]) == JInt(n)
      invariant distinct <==> forall k, l :: 0 <= k < l < i ==> GenerationId(items[k]) != GenerationId(items[l])
    {
      hide GenerationId;
      if !GenerationId(items[i]).JInt? {
        return Some(InvalidId);
      }
      if GenerationId(items[i]).n in ids {
        distinct := false;
      }
      ids := ids + {GenerationId(items[i]).n};
    }
    assert Names(items, stamped) ==> ids == stamped by {
      if Names(items, stamped) {
        assert forall n :: n in ids <==> n in stamped;
      }
    }
    violation := if !distinct || ids != stamped then Some(DoesNotMatch) else None;
  }

  // ---- the protocol ----

  datatype Generation = Generation(device: int, attempt: Option<Uuid>)

  /**
   * Where a request stands. Before it takes the lock it has only read; a reserved UUID is uncommitted.
   * A promotion runs inside a savepoint and remembers the ids it was given, in order.
   */
  datatype Phase =
    | Arrived
    | Unknown
    | HoldsLock
    | Reserving
    | Promoting(savepoint: map<int, Generation>, created: seq<int>)
    | Answering(draft: Attempt, body: Body)

  /** A request, and the generation rows its transaction has inserted and not committed. */
  datatype Session = Session(request: Request, phase: Phase, rows: map<int, Generation>)

  datatype Kind = First | Replayed | Conflict(field: string) | Failed

  datatype Answer = Answer(kind: Kind, request: Request, status: int, body: Body)

  datatype State = State(
    attempts: map<Uuid, Attempt>, generations: map<int, Generation>, nextGeneration: nat,
    sessions: map<nat, Session>, log: seq<Answer>)

  const INIT := State(map[], map[], 0, map[], [])

  datatype Event =
    | Arrive(id: nat, request: Request)
    | ReadUnlocked(id: nat, deviceExists: bool)
    | TakeLock(id: nat)
    | Reserve(id: nat)
    | BeginSavepoint(id: nat)
    | InsertGeneration(id: nat)
    | Refuse(id: nat, refusal: Refusal)
    | Release(id: nat, chain: Chain)
    | Commit(id: nat)
    | Abort(id: nat)
    | PromoteAutomatically(device: int)

  predicate Holds(p: Phase) {
    p.HoldsLock? || Reserves(p)
  }

  /** The session has inserted its UUID and not committed. */
  predicate Reserves(p: Phase) {
    p.Reserving? || p.Promoting? || p.Answering?
  }

  predicate At(s: State, id: nat, p: Phase) {
    id in s.sessions && s.sessions[id].phase == p
  }

  predicate Promotes(s: State, id: nat) {
    id in s.sessions && s.sessions[id].phase.Promoting?
  }

  predicate Enabled(s: State, e: Event) {
    match e
    case Arrive(id, _) => id !in s.sessions
    case ReadUnlocked(id, _) => At(s, id, Arrived)
    case TakeLock(id) =>
      && At(s, id, Unknown)
      && forall q :: q in s.sessions && Holds(s.sessions[q].phase) ==>
           s.sessions[q].request.device != s.sessions[id].request.device
    case Reserve(id) =>
      // an insert waits for the transaction that holds the same key uncommitted
      && At(s, id, HoldsLock)
      && forall q :: q in s.sessions && Reserves(s.sessions[q].phase) ==>
           s.sessions[q].request.uuid != s.sessions[id].request.uuid
    case BeginSavepoint(id) => At(s, id, Reserving)
    case InsertGeneration(id) => Promotes(s, id)
    case Refuse(id, _) => Promotes(s, id)
    case Release(id, chain) => Promotes(s, id) && |chain.links| == |s.sessions[id].phase.created|
    case Commit(id) => id in s.sessions && s.sessions[id].phase.Answering?
    case Abort(id) => id in s.sessions
    case PromoteAutomatically(_) => true
  }

  // ---- what a session does on its own ----

  function Begun(session: Session): Session {
    session.(phase := Promoting(session.rows, []))
  }

  function Inserted(session: Session, g: int): Session
    requires session.phase.Promoting?
  {
    var r, p := session.request, session.phase;
    session.(phase := p.(created := p.created + [g]), rows := session.rows[g := Generation(r.device, Some(r.uuid))])
  }

  /** The rows go back to the savepoint, and the attempt is completed as rejected. */
  function Refused(session: Session, refusal: Refusal): Session
    requires session.phase.Promoting?
  {
    var body := RejectedAnswer(refusal);
    session.(phase := Answering(Complete(Reserved(session.request), false, 409, body), body), rows := session.phase.savepoint)
  }

  /** The answer lists the ids inserted, and the attempt is completed as admitted. */
  function Released(session: Session, chain: Chain): Session
    requires session.phase.Promoting? && |chain.links| == |session.phase.created|
  {
    var body := PromotedAnswer(session.request, session.phase.created, chain);
    var status := if chain.links == [] then 200 else 202;
    session.(phase := Answering(Complete(Reserved(session.request), true, status, body), body))
  }

  // ---- the steps ----

  /** The session ends with an answer; whatever it had not committed is gone. */
  function End(s: State, id: nat, kind: Kind, status: int, body: Body): State
    requires id in s.sessions
  {
    s.(sessions := s.sessions - {id}, log := s.log + [Answer(kind, s.sessions[id].request, status, body)])
  }

  function Put(s: State, id: nat, session: Session): State {
    s.(sessions := s.sessions[id := session])
  }

  function Move(s: State, id: nat, p: Phase): State
    requires id in s.sessions
  {
    Put(s, id, s.sessions[id].(phase := p))
  }

  /** Answer from the row that exists. */
  function AnswerStored(s: State, id: nat): State
    requires id in s.sessions && s.sessions[id].request.uuid in s.attempts
  {
    var r := s.sessions[id].request;
    match Replay(s.attempts[r.uuid], r)
    case Mismatch(field) => End(s, id, Conflict(field), 409, map[])
    case Stored(status, body) => End(s, id, Replayed, status, body)
  }

  function Next(s: State, e: Event): State
    requires Enabled(s, e)
  {
    match e
    case Arrive(id, request) => Put(s, id, Session(request, Arrived, map[]))
    case ReadUnlocked(id, deviceExists) =>
      if s.sessions[id].request.uuid in s.attempts then AnswerStored(s, id)
      else if deviceExists then Move(s, id, Unknown)
      else End(s, id, Failed, 404, map[])
    case TakeLock(id) => Move(s, id, HoldsLock)
    case Reserve(id) =>
      if s.sessions[id].request.uuid in s.attempts then AnswerStored(s, id) else Move(s, id, Reserving)
    case BeginSavepoint(id) => Put(s, id, Begun(s.sessions[id]))
    case InsertGeneration(id) =>
      Put(s, id, Inserted(s.sessions[id], s.nextGeneration)).(nextGeneration := s.nextGeneration + 1)
    case Refuse(id, refusal) => Put(s, id, Refused(s.sessions[id], refusal))
    case Release(id, chain) =>
      if Headless(chain) then End(s, id, Failed, 500, map[]) else Put(s, id, Released(s.sessions[id], chain))
    case Commit(id) =>
      var session := s.sessions[id];
      End(s, id, First, session.phase.draft.status, session.phase.body)
        .(attempts := s.attempts[session.request.uuid := session.phase.draft], generations := s.generations + session.rows)
    case Abort(id) => End(s, id, Failed, 500, map[])
    case PromoteAutomatically(device) =>
      s.(generations := s.generations[s.nextGeneration := Generation(device, None)], nextGeneration := s.nextGeneration + 1)
  }

  predicate IsRun(s: State, events: seq<Event>, s': State)
    decreases |events|
  {
    if events == [] then s == s' else Enabled(s, events[0]) && IsRun(Next(s, events[0]), events[1..], s')
  }

  // ---- what every run keeps ----

  ghost function Stamped(generations: map<int, Generation>, u: Uuid): set<int> {
    set g | g in generations && generations[g].attempt == Some(u)
  }

  /** Uncommitted UUIDs are new, and no two sessions hold the same one. */
  ghost predicate Exclusive(s: State) {
    && (forall q :: q in s.sessions && Reserves(s.sessions[q].phase) ==> s.sessions[q].request.uuid !in s.attempts)
    && (forall q, r :: q in s.sessions && r in s.sessions && q != r ==>
          (Reserves(s.sessions[q].phase) && Reserves(s.sessions[r].phase) ==>
             s.sessions[q].request.uuid != s.sessions[r].request.uuid))
  }

  /** Generations carry allocated ids and known attempts; the rows of an open session are nobody else's. */
  ghost predicate Allocated(s: State) {
    && (forall g :: g in s.generations ==> g < s.nextGeneration)
    && (forall g :: g in s.generations && s.generations[g].attempt.Some? ==> s.generations[g].attempt.value in s.attempts)
    && (forall q :: q in s.sessions ==> Owns(s, s.sessions[q]))
    && (forall q, r :: q in s.sessions && r in s.sessions && q != r ==> Apart(s.sessions[q], s.sessions[r]))
  }

  /** The uncommitted rows have ids of their own and carry the request's device and UUID. */
  ghost predicate Owns(s: State, session: Session) {
    forall g :: g in session.rows ==>
      && g < s.nextGeneration && g !in s.generations
      && session.rows[g] == Generation(session.request.device, Some(session.request.uuid))
  }

  ghost predicate Apart(a: Session, b: Session) {
    forall g :: g in a.rows ==> g !in b.rows
  }

  /** The ids are the given ones, each once. */
  ghost predicate Lists(created: seq<int>, ids: set<int>) {
    && (forall i, j :: 0 <= i < j < |created| ==> created[i] != created[j])
    && (forall g :: g in ids <==> g in created)
  }

  /** A session has rows only while it promotes or answers, and the answer it is about to commit names exactly those. */
  ghost predicate Tidy(session: Session) {
    match session.phase
    case Promoting(savepoint, created) => savepoint == map[] && Lists(created, session.rows.Keys)
    case Answering(draft, body) => Drafted(session.request, draft, body, session.rows.Keys)
    case _ => session.rows == map[]
  }

  ghost predicate Drafted(r: Request, draft: Attempt, body: Body, ids: set<int>) {
    && Replay(draft, r) == Stored(draft.status, body)
    && EvidenceHolds(draft.response, ids)
    && (!draft.admitted ==> ids == {})
  }

  ghost predicate Evident(s: State) {
    && (forall q :: q in s.sessions ==> Tidy(s.sessions[q]))
    && (forall u :: u in s.attempts ==> Witnessed(s.attempts[u], Stamped(s.generations, u)))
    && (forall g :: g in s.generations && s.generations[g].attempt.Some? && s.generations[g].attempt.value in s.attempts ==>
          s.generations[g].device == s.attempts[s.generations[g].attempt.value].device)
  }

  ghost predicate Witnessed(a: Attempt, stamped: set<int>) {
    EvidenceHolds(a.response, stamped) && (!a.admitted ==> stamped == {})
  }

  /** Every answer that reports an outcome reports the stored one, which was committed once. */
  ghost predicate Consistent(s: State) {
    && (forall i :: 0 <= i < |s.log| ==> Backed(s, i))
    && (forall i, j :: 0 <= i < j < |s.log| && s.log[i].kind.First? && s.log[j].kind.First? ==>
          s.log[i].request.uuid != s.log[j].request.uuid)
    && (forall u :: u in s.attempts ==> exists i :: 0 <= i < |s.log| && s.log[i].kind.First? && s.log[i].request.uuid == u)
  }

  ghost predicate Backed(s: State, i: nat)
    requires i < |s.log|
  {
    var a := s.log[i];
    a.kind.First? || a.kind.Replayed? ==>
      a.request.uuid in s.attempts && Replay(s.attempts[a.request.uuid], a.request) == Stored(a.status, a.body)
  }

  /** No two sessions hold the projection lock of the same device. */
  ghost predicate Serialized(s: State) {
    forall q, r :: q in s.sessions && r in s.sessions && q != r ==>
      (Holds(s.sessions[q].phase) && Holds(s.sessions[r].phase) ==>
         s.sessions[q].request.device != s.sessions[r].request.device)
  }

  /** A step moves one session, and only taking the lock or reserving the UUID makes it a holder of either. */
  ghost predicate MovesOne(s: State, s': State, e: Event) {
    && (forall q :: q in s'.sessions && (e.PromoteAutomatically? || q != e.id) ==>
          q in s.sessions && s'.sessions[q] == s.sessions[q])
    && (!e.PromoteAutomatically? && !e.Arrive? && e.id in s'.sessions ==>
          && e.id in s.sessions && s'.sessions[e.id].request == s.sessions[e.id].request
          && (Holds(s'.sessions[e.id].phase) ==> e.TakeLock? || Holds(s.sessions[e.id].phase))
          && (Reserves(s'.sessions[e.id].phase) ==> e.Reserve? || Reserves(s.sessions[e.id].phase)))
    && (e.Arrive? && e.id in s'.sessions ==> s'.sessions[e.id].phase.Arrived?)
  }

  lemma StepMovesOne(s: State, e: Event)
    requires Enabled(s, e)
    ensures MovesOne(s, Next(s, e), e)
  {
    hide Replay, Complete, PromotedAnswer, RejectedAnswer, Headless, Reserved;
  }

  lemma SerializedKept(s: State, e: Event)
    requires Serialized(s) && Enabled(s, e)
    ensures Serialized(Next(s, e))
  {
    StepMovesOne(s, e);
    hide Next;
  }

  ghost predicate Inv(s: State) {
    Serialized(s) && Exclusive(s) && Allocated(s) && Evident(s) && Consistent(s)
  }

  /** A UUID is stored by the session that reserved it, or found new when it is reserved. */
  lemma StepStores(s: State, e: Event)
    requires Enabled(s, e)
    ensures var s' := Next(s, e);
      && (!e.Commit? ==> s'.attempts == s.attempts)
      && (e.Commit? ==> s'.attempts.Keys == s.attempts.Keys + {s.sessions[e.id].request.uuid} && e.id !in s'.sessions)
      && (e.Reserve? && e.id in s'.sessions ==> s.sessions[e.id].request.uuid !in s.attempts)
  {
    hide Replay, Complete, PromotedAnswer, RejectedAnswer, Headless, Reserved;
  }

  lemma ExclusiveKept(s: State, e: Event)
    requires Exclusive(s) && Enabled(s, e)
    ensures Exclusive(Next(s, e))
  {
    StepMovesOne(s, e);
    StepStores(s, e);
    hide Next;
  }

  // ---- the ids ----

  lemma CommitAllocated(s: State, id: nat)
    requires Allocated(s) && Enabled(s, Commit(id))
    ensures Allocated(Next(s, Commit(id)))
  {
    var session, s' := s.sessions[id], Next(s, Commit(id));
    assert Owns(s, session);
    forall q | q in s'.sessions ensures Owns(s', s'.sessions[q]) {
      assert Owns(s, s.sessions[q]) && Apart(session, s.sessions[q]);
    }
  }

  lemma InsertAllocated(s: State, id: nat)
    requires Allocated(s) && Enabled(s, InsertGeneration(id))
    ensures Allocated(Next(s, InsertGeneration(id)))
  {
    var s' := Next(s, InsertGeneration(id));
    forall q | q in s'.sessions ensures Owns(s', s'.sessions[q]) {
      assert Owns(s, s.sessions[q]);
    }
    forall q, r | q in s'.sessions && r in s'.sessions && q != r ensures Apart(s'.sessions[q], s'.sessions[r]) {
      assert Apart(s.sessions[q], s.sessions[r]) && Owns(s, s.sessions[q]) && Owns(s, s.sessions[r]);
    }
  }

  /** The other events give out no id and commit nothing; a session's rows stay or are dropped. */
  predicate Idle(e: Event) {
    !e.InsertGeneration? && !e.Commit? && !e.PromoteAutomatically?
  }

  lemma IdleEvent(s: State, e: Event)
    requires Evident(s) && Enabled(s, e) && Idle(e)
    ensures var s' := Next(s, e);
      && s'.attempts == s.attempts && s'.generations == s.generations && s'.nextGeneration == s.nextGeneration
      && (forall q :: q in s'.sessions && s'.sessions[q].rows != map[] ==>
            q in s.sessions && s'.sessions[q].request == s.sessions[q].request && s'.sessions[q].rows == s.sessions[q].rows)
  {
    StepMovesOne(s, e);
    IdleMove(s, e);
    hide Evident, Enabled, Next;
  }

  /** The session an idle event moves keeps its rows or has none. */
  lemma IdleMove(s: State, e: Event)
    requires Evident(s) && Enabled(s, e) && Idle(e)
    ensures var s' := Next(s, e);
      && s'.attempts == s.attempts && s'.generations == s.generations && s'.nextGeneration == s.nextGeneration
      && (e.id in s'.sessions && s'.sessions[e.id].rows != map[] ==>
            e.id in s.sessions && s'.sessions[e.id].rows == s.sessions[e.id].rows)
  {
    assert e.id in s.sessions ==> Tidy(s.sessions[e.id]);
    hide Evident, Replay, Complete, PromotedAnswer, RejectedAnswer, Headless, Reserved, Drafted, Lists;
  }

  lemma AllocatedKept(s: State, e: Event)
    requires Allocated(s) && Evident(s) && Enabled(s, e)
    ensures Allocated(Next(s, e))
  {
    match e
    case InsertGeneration(id) => InsertAllocated(s, id);
    case Commit(id) => CommitAllocated(s, id);
    case PromoteAutomatically(device) => PromoteAllocated(s, device);
    case _ => IdleAllocated(s, e);
  }

  lemma PromoteAllocated(s: State, device: int)
    requires Allocated(s)
    ensures Allocated(Next(s, PromoteAutomatically(device)))
  {
    hide Apart;
    var s' := Next(s, PromoteAutomatically(device));
    forall q | q in s'.sessions ensures Owns(s', s'.sessions[q]) {
      assert Owns(s, s.sessions[q]);
    }
  }

  lemma IdleAllocated(s: State, e: Event)
    requires Allocated(s) && Evident(s) && Enabled(s, e) && Idle(e)
    ensures Allocated(Next(s, e))
  {
    IdleEvent(s, e);
    hide Evident, Enabled, Next;
    var s' := Next(s, e);
    forall q | q in s'.sessions ensures Owns(s', s'.sessions[q]) {
      assert s'.sessions[q].rows != map[] ==> Owns(s, s.sessions[q]);
    }
    forall q, r | q in s'.sessions && r in s'.sessions && q != r ensures Apart(s'.sessions[q], s'.sessions[r]) {
      assert s'.sessions[q].rows != map[] && s'.sessions[r].rows != map[] ==> Apart(s.sessions[q], s.sessions[r]);
    }
  }

  // ---- the evidence ----

  lemma ListsGrow(created: seq<int>, ids: set<int>, g: int)
    requires Lists(created, ids) && g !in ids
    ensures Lists(created + [g], ids + {g})
  {
  }

  lemma InsertTidy(session: Session, g: int)
    requires Tidy(session) && session.phase.Promoting? && g !in session.rows
    ensures Tidy(Inserted(session, g))
  {
    ListsGrow(session.phase.created, session.rows.Keys, g);
    assert Inserted(session, g).rows.Keys == session.rows.Keys + {g};
  }

  /** The items carry the ids created, in their order. */
  ghost predicate Carry(items: seq<Json>, created: seq<int>) {
    |items| == |created| && forall i :: 0 <= i < |items| ==> GenerationId(items[i]) == JInt(created[i])
  }

  lemma ListsNamed(items: seq<Json>, created: seq<int>, ids: set<int>)
    requires Carry(items, created) && Lists(created, ids)
    ensures Names(items, ids)
  {
    hide GenerationId;
    forall n ensures n in ids <==> exists i :: 0 <= i < |items| && GenerationId(items[i]) == JInt(n) {
      NamedIff(items, created, n);
    }
  }

  lemma NamedIff(items: seq<Json>, created: seq<int>, n: int)
    requires Carry(items, created)
    ensures n in created <==> exists i :: 0 <= i < |items| && GenerationId(items[i]) == JInt(n)
  {
    hide GenerationId;
    if n in created {
      var i :| 0 <= i < |created| && created[i] == n;
      assert GenerationId(items[i]) == JInt(n);
    }
  }

  lemma AnswerShape(r: Request, created: seq<int>, c: Chain)
    requires |created| == |c.links|
    ensures var body := PromotedAnswer(r, created, c);
      && PREFLIGHT !in body && "generations" in body && body["generations"].JList?
      && Carry(body["generations"].items, created)
  {
  }

  /** The answer to a promotion names every generation inserted for it, and replays as it was given. */
  lemma ReleaseDrafted(session: Session, chain: Chain)
    requires Tidy(session) && session.phase.Promoting? && |chain.links| == |session.phase.created|
    ensures Tidy(Released(session, chain))
  {
    hide PromotedAnswer, GenerationId, Replay, Names, Carry, Lists;
    var created := session.phase.created;
    var body := PromotedAnswer(session.request, created, chain);
    AnswerShape(session.request, created, chain);
    CompletedReplays(session.request, true, if chain.links == [] then 200 else 202, body);
    ListsNamed(body["generations"].items, created, session.rows.Keys);
  }

  /** However many generations were inserted before the refusal, the rejected attempt has none. */
  lemma RefuseDrafted(session: Session, refusal: Refusal)
    requires Tidy(session) && session.phase.Promoting?
    ensures Tidy(Refused(session, refusal))
    ensures Refused(session, refusal).rows == map[]
  {
    hide Replay, Names, Lists;
    CompletedReplays(session.request, false, 409, RejectedAnswer(refusal));
  }

  lemma StampedUnion(generations: map<int, Generation>, rows: map<int, Generation>, u: Uuid, v: Uuid)
    requires forall g :: g in rows ==> g !in generations && rows[g].attempt == Some(u)
    ensures Stamped(generations + rows, v) == Stamped(generations, v) + (if v == u then rows.Keys else {})
  {
    forall g ensures g in Stamped(generations + rows, v) <==> g in Stamped(generations, v) || (v == u && g in rows) {
      assert g in rows ==> (generations + rows)[g] == rows[g];
      assert g in generations && g !in rows ==> (generations + rows)[g] == generations[g];
    }
  }

  lemma CommitStamps(s: State, id: nat)
    requires Exclusive(s) && Allocated(s) && Enabled(s, Commit(id))
    ensures var session, s' := s.sessions[id], Next(s, Commit(id));
      && Stamped(s'.generations, session.request.uuid) == session.rows.Keys
      && forall u :: u in s.attempts ==> Stamped(s'.generations, u) == Stamped(s.generations, u)
  {
    var session := s.sessions[id];
    assert Owns(s, session) && session.request.uuid !in s.attempts;
    forall u {
      StampedUnion(s.generations, session.rows, session.request.uuid, u);
    }
    forall g ensures g !in Stamped(s.generations, session.request.uuid) {
      assert g in s.generations && s.generations[g].attempt.Some? ==> s.generations[g].attempt.value in s.attempts;
    }
  }

  lemma CommitEvident(s: State, id: nat)
    requires Exclusive(s) && Allocated(s) && Evident(s) && Enabled(s, Commit(id))
    ensures Evident(Next(s, Commit(id)))
  {
    hide EvidenceHolds, Lists;
    var session := s.sessions[id];
    assert Tidy(session) && Owns(s, session);
    CommitStamps(s, id);
    hide Stamped;
  }

  /** What a step does to the session it moves. */
  lemma StepTidy(s: State, e: Event)
    requires Allocated(s) && Evident(s) && Enabled(s, e) && !e.PromoteAutomatically?
    requires e.id in Next(s, e).sessions
    ensures Tidy(Next(s, e).sessions[e.id])
  {
    assert e.id in s.sessions ==> Tidy(s.sessions[e.id]) && Owns(s, s.sessions[e.id]);
    assert Lists([], {});
    hide Allocated, Evident, EvidenceHolds, Drafted, Lists, Headless, Replay, Released, Refused, Inserted;
    match e
    case InsertGeneration(id) => InsertTidy(s.sessions[id], s.nextGeneration);
    case Refuse(id, refusal) => RefuseDrafted(s.sessions[id], refusal);
    case Release(id, chain) => ReleaseDrafted(s.sessions[id], chain);
    case _ =>
  }

  lemma EvidentKept(s: State, e: Event)
    requires Exclusive(s) && Allocated(s) && Evident(s) && Enabled(s, e)
    ensures Evident(Next(s, e))
  {
    if e.Commit? {
      CommitEvident(s, e.id);
    } else {
      OthersEvident(s, e);
    }
  }

  /** The committed evidence is the same after every step but a commit. */
  lemma EvidenceKept(s: State, e: Event)
    requires Allocated(s) && Evident(s) && Enabled(s, e) && !e.Commit?
    ensures var s' := Next(s, e);
      s'.attempts == s.attempts && forall u :: Stamped(s'.generations, u) == Stamped(s.generations, u)
    ensures forall g :: g in Next(s, e).generations && Next(s, e).generations[g].attempt.Some? ==>
      g in s.generations && Next(s, e).generations[g] == s.generations[g]
  {
    hide EvidenceHolds, Tidy, Replay, Released, Refused, Inserted, Headless, Owns, Apart;
    var s' := Next(s, e);
    assert s'.attempts == s.attempts;
    assert !e.PromoteAutomatically? ==> s'.generations == s.generations;
    hide Next, Evident;
  }

  lemma OthersEvident(s: State, e: Event)
    requires Allocated(s) && Evident(s) && Enabled(s, e) && !e.Commit?
    ensures Evident(Next(s, e))
  {
    var s' := Next(s, e);
    StepMovesOne(s, e);
    EvidenceKept(s, e);
    if !e.PromoteAutomatically? && e.id in s'.sessions {
      StepTidy(s, e);
    }
    hide Next, Tidy, Witnessed, Stamped, Enabled;
  }

  /** An answer appended to the log, with attempts only added. */
  lemma LogExtends(s: State, s': State, a: Answer)
    requires Consistent(s) && s'.log == s.log + [a]
    requires forall u :: u in s.attempts ==> u in s'.attempts && s'.attempts[u] == s.attempts[u]
    requires forall u :: u in s'.attempts && u !in s.attempts ==> a.kind.First? && u == a.request.uuid
    requires Backed(s', |s.log|)
    requires a.kind.First? ==> a.request.uuid !in s.attempts
    ensures Consistent(s')
  {
    hide Replay;
    forall i | 0 <= i < |s'.log| ensures Backed(s', i) {
      if i < |s.log| {
        assert Backed(s, i);
      }
    }
    forall u | u in s'.attempts
      ensures exists i :: 0 <= i < |s'.log| && s'.log[i].kind.First? && s'.log[i].request.uuid == u
    {
      if u in s.attempts {
        var i :| 0 <= i < |s.log| && s.log[i].kind.First? && s.log[i].request.uuid == u;
        assert s'.log[i] == s.log[i];
      } else {
        assert s'.log[|s.log|] == a;
      }
    }
    forall i, j | 0 <= i < j < |s'.log| && s'.log[i].kind.First? && s'.log[j].kind.First?
      ensures s'.log[i].request.uuid != s'.log[j].request.uuid
    {
      assert Backed(s, i);
    }
  }

  lemma QuietConsistent(s: State, s': State)
    requires Consistent(s) && s'.log == s.log && s'.attempts == s.attempts
    ensures Consistent(s')
  {
    hide Replay;
    forall i | 0 <= i < |s.log| ensures Backed(s', i) {
      assert Backed(s, i);
    }
  }

  lemma CommitConsistent(s: State, id: nat)
    requires Exclusive(s) && Evident(s) && Consistent(s) && Enabled(s, Commit(id))
    ensures Consistent(Next(s, Commit(id)))
  {
    var s' := Next(s, Commit(id));
    assert Tidy(s.sessions[id]) && s.sessions[id].request.uuid !in s.attempts;
    hide Exclusive, Evident, Consistent, EvidenceHolds, Replay;
    assert Backed(s', |s.log|);
    LogExtends(s, s', s'.log[|s.log|]);
  }

  lemma AnswerConsistent(s: State, id: nat)
    requires Consistent(s) && id in s.sessions && s.sessions[id].request.uuid in s.attempts
    ensures Consistent(AnswerStored(s, id))
  {
    var s' := AnswerStored(s, id);
    hide Consistent;
    assert Backed(s', |s.log|);
    LogExtends(s, s', s'.log[|s.log|]);
  }

  lemma FailConsistent(s: State, id: nat, status: int)
    requires Consistent(s) && id in s.sessions
    ensures Consistent(End(s, id, Failed, status, map[]))
  {
    var s' := End(s, id, Failed, status, map[]);
    hide Consistent, Replay;
    assert Backed(s', |s.log|);
    LogExtends(s, s', s'.log[|s.log|]);
  }

  lemma ConsistentKept(s: State, e: Event)
    requires Exclusive(s) && Evident(s) && Consistent(s) && Enabled(s, e)
    ensures Consistent(Next(s, e))
  {
    hide Exclusive, Evident, Consistent, Replay, Released, Refused, Inserted, Headless, AnswerStored, End;
    if e.Commit? {
      CommitConsistent(s, e.id);
    } else if e.ReadUnlocked? || e.Reserve? || e.Release? || e.Abort? {
      FailConsistent(s, e.id, 404);
      FailConsistent(s, e.id, 500);
      if s.sessions[e.id].request.uuid in s.attempts {
        AnswerConsistent(s, e.id);
      }
      var s' := Next(s, e);
      if s'.log == s.log && s'.attempts == s.attempts {
        QuietConsistent(s, s');
      }
    } else {
      QuietConsistent(s, Next(s, e));
    }
  }

  lemma {:induction false} RunKeepsInv(s: State, events: seq<Event>, s': State)
    requires Inv(s) && IsRun(s, events, s')
    ensures Inv(s')
    ensures forall u :: u in s.attempts ==> u in s'.attempts && s'.attempts[u] == s.attempts[u]
    decreases |events|
  {
    hide Serialized, Exclusive, Allocated, Evident, Consistent, Next;
    if events != [] {
      SerializedKept(s, events[0]);
      ExclusiveKept(s, events[0]);
      AllocatedKept(s, events[0]);
      EvidentKept(s, events[0]);
      ConsistentKept(s, events[0]);
      AttemptsKept(s, events[0]);
      RunKeepsInv(Next(s, events[0]), events[1..], s');
    }
  }

  /** A committed attempt never changes. */
  lemma AttemptsKept(s: State, e: Event)
    requires Exclusive(s) && Enabled(s, e)
    ensures forall u :: u in s.attempts ==> u in Next(s, e).attempts && Next(s, e).attempts[u] == s.attempts[u]
  {
    hide Replay, Released, Refused, Inserted, Headless;
  }

  // ---- the promises ----

  lemma InitInv()
    ensures Inv(INIT)
  {
  }

  lemma ReachableInv(events: seq<Event>, s: State)
    requires IsRun(INIT, events, s)
    ensures Inv(s)
  {
    InitInv();
    RunKeepsInv(INIT, events, s);
  }

  /** Along every run at most one request per device is between the lock and its commit. */
  lemma OneApplyPerDevice(events: seq<Event>, s: State, q: nat, r: nat)
    requires IsRun(INIT, events, s) && q in s.sessions && r in s.sessions
    requires Holds(s.sessions[q].phase) && Holds(s.sessions[r].phase)
    requires s.sessions[q].request.device == s.sessions[r].request.device
    ensures q == r
  {
    ReachableInv(events, s);
  }

  predicate Outcome(a: Answer) {
    a.kind.First? || a.kind.Replayed?
  }

  /** Along every run an attempt UUID commits at most one outcome, and all its answers are that outcome. */
  lemma AnswersAgree(events: seq<Event>, s: State, i: nat, j: nat)
    requires IsRun(INIT, events, s) && i < |s.log| && j < |s.log|
    requires Outcome(s.log[i]) && Outcome(s.log[j]) && s.log[i].request.uuid == s.log[j].request.uuid
    ensures s.log[i].request == s.log[j].request
    ensures s.log[i].status == s.log[j].status && s.log[i].body == s.log[j].body
    ensures s.log[i].kind.First? && s.log[j].kind.First? ==> i == j
  {
    ReachableInv(events, s);
    assert Backed(s, i) && Backed(s, j);
  }

  /** A request whose UUID is known changes nothing; it is replayed exactly when it is the request that came first. */
  lemma KnownUuidAnswered(events: seq<Event>, s: State, e: Event, i: nat)
    requires IsRun(INIT, events, s) && Enabled(s, e) && (e.ReadUnlocked? || e.Reserve?)
    requires i < |s.log| && s.log[i].kind.First? && s.log[i].request.uuid == s.sessions[e.id].request.uuid
    ensures var s', r := Next(s, e), s.sessions[e.id].request;
      && s'.attempts == s.attempts && s'.generations == s.generations && e.id !in s'.sessions
      && |s'.log| == |s.log| + 1 && s'.log[..|s.log|] == s.log
      && var a := s'.log[|s.log|];
      && (r == s.log[i].request ==> a == Answer(Replayed, r, s.log[i].status, s.log[i].body))
      && (r != s.log[i].request ==> a.kind.Conflict? && a.status == 409)
  {
    ReachableInv(events, s);
    assert Backed(s, i);
  }

  /**
   * Whatever ids the sequence gave out in between, every attempt passes the reader's check. A rejected one leaves
   * no generation behind, even when it was refused after inserting some, and every generation is for its device.
   */
  lemma EvidenceAlwaysHolds(events: seq<Event>, s: State, u: Uuid, generations: seq<int>)
    requires IsRun(INIT, events, s) && u in s.attempts
    requires forall g :: g in generations <==> g in s.generations && s.generations[g].attempt == Some(u)
    ensures EvidenceHolds(s.attempts[u].response, Ids(generations))
    ensures !s.attempts[u].admitted ==> generations == []
    ensures forall g :: g in generations ==> s.generations[g].device == s.attempts[u].device
  {
    ReachableInv(events, s);
    forall g ensures g in Ids(generations) <==> g in Stamped(s.generations, u) {
      assert g in Ids(generations) <==> g in generations;
    }
    assert generations != [] ==> generations[0] in Stamped(s.generations, u);
  }

  /** A committed attempt is never rewritten. */
  lemma AttemptsArePermanent(events: seq<Event>, s: State, later: seq<Event>, s': State, u: Uuid)
    requires IsRun(INIT, events, s) && IsRun(s, later, s') && u in s.attempts
    ensures u in s'.attempts && s'.attempts[u] == s.attempts[u]
  {
    ReachableInv(events, s);
    RunKeepsInv(s, later, s');
  }
}
