/** One keyed intent stream of one device: receipt admission, the VLAN body it protects, one commit per delivery. */
module IntentDelivery {
  import opened Options
  import opened KeyedIntent
  import opened ShrinkReport
  import opened IntentTables

  datatype Mode = Mode(storeOnly: bool, deleteOrigin: bool, backfillOnly: bool)

  /** What makes two deliveries the same push: the claim sequence, the body digest and the request mode. */
  datatype Identity = Identity(seqNo: int, digest: string, mode: Mode)

  datatype VlanItem = VlanItem(vlanId: int, name: string, acceptedAt: Option<int>)

  datatype Delivery = Delivery(identity: Identity, body: seq<VlanItem>)

  datatype Json = Int(n: int) | Bool(b: bool) | Records(text: string)

  type Response = map<string, Json>

  datatype Receipt = Receipt(identity: Identity, response: Option<Response>, status: int)

  datatype Store = Store(rows: map<int, Row<Vlan>>, receipt: Option<Receipt>, revision: nat)

  const EMPTY := Store(map[], None, 0)

  // ---- responses and their private part ----

  const PROVENANCE := "_promotion_deletions"

  predicate Private(key: string) {
    |key| > 0 && key[0] == '_'
  }

  function PrivatePart(r: Response): Response {
    map k | k in r && Private(k) :: r[k]
  }

  function PublicPart(r: Response): Response {
    map k | k in r && !Private(k) :: r[k]
  }

  /** `record_response`: keep the private part, add the result, and replace the deletion provenance. */
  function Recorded(previous: Response, result: Response, provenance: Option<Json>): Response {
    var merged := (previous + result) - {PROVENANCE};
    if provenance.Some? then merged[PROVENANCE := provenance.value] else merged
  }

  /** What is replayed of a recorded response is the result it recorded. */
  lemma RecordedReplays(stored: Response, result: Response, provenance: Option<Json>)
    requires forall k :: k in result ==> !Private(k)
    ensures PublicPart(Recorded(PrivatePart(stored), result, provenance)) == result
  {
  }

  function Held(stored: Option<Response>, key: string): Option<Json> {
    if stored.Some? && key in stored.value then Some(stored.value[key]) else None
  }

  /** A redelivery is shown the public result, and what the receipt kept in private is still there. */
  ghost predicate Carries(before: Option<Response>, after: Response, result: Response, provenance: Option<Json>) {
    && PublicPart(after) == PublicPart(result)
    && Held(Some(after), PROVENANCE) == provenance
    && forall k :: Private(k) && k != PROVENANCE ==>
         Held(Some(after), k) == if k in result then Some(result[k]) else Held(before, k)
  }

  function PrivateOf(stored: Option<Response>): Response {
    if stored.None? then map[] else PrivatePart(stored.value)
  }

  lemma RecordedCarries(before: Option<Response>, result: Response, provenance: Option<Json>)
    ensures Carries(before, Recorded(PrivateOf(before), result, provenance), result, provenance)
  {
    var after := Recorded(PrivateOf(before), result, provenance);
    assert Private(PROVENANCE);
    forall k | k in PublicPart(after) || k in PublicPart(result)
      ensures k in PublicPart(after) && k in PublicPart(result) && PublicPart(after)[k] == PublicPart(result)[k]
    {
    }
  }

  /** Nothing else carries it: the stored response is determined. */
  lemma CarriesDetermines(before: Option<Response>, after: Response, result: Response, provenance: Option<Json>)
    requires Carries(before, after, result, provenance)
    ensures after == Recorded(PrivateOf(before), result, provenance)
  {
    var recorded := Recorded(PrivateOf(before), result, provenance);
    RecordedCarries(before, result, provenance);
    hide Recorded, PrivateOf;
    forall k ensures Held(Some(after), k) == Held(Some(recorded), k) {
      if !Private(k) {
        PublicHeld(after, k);
        PublicHeld(recorded, k);
      }
    }
    hide Held;
    SameHeld(after, recorded);
  }

  lemma PublicHeld(r: Response, k: string)
    requires !Private(k)
    ensures Held(Some(r), k) == Held(Some(PublicPart(r)), k)
  {
  }

  lemma SameHeld(r: Response, t: Response)
    requires forall k :: Held(Some(r), k) == Held(Some(t), k)
    ensures r == t
  {
    forall k ensures k in r <==> k in t {
      assert Held(Some(r), k) == Held(Some(t), k);
    }
    forall k | k in r ensures r[k] == t[k] {
      assert Held(Some(r), k) == Held(Some(t), k);
    }
  }

  // ---- the VLAN body ----

  function Entries(body: seq<VlanItem>): seq<Entry<int, Vlan>> {
    seq(|body|, i requires 0 <= i < |body| =>
      Entry(body[i].vlanId, Vlan(if body[i].name == "" then None else Some(body[i].name)), body[i].acceptedAt))
  }

  /** The stored rows are exactly the body: its ids, each with the name and timestamp of its last item. */
  ghost predicate Shows(rows: map<int, Row<Vlan>>, body: seq<VlanItem>, now: int) {
    var entries := Entries(body);
    && rows.Keys == Keys(entries)
    && forall i :: 0 <= i < |entries| && Last(entries, i) ==>
         entries[i].key in rows && rows[entries[i].key] == Stamped(Restamp, None, entries[i], now)
  }

  lemma SyncedShows(rows: map<int, Row<Vlan>>, body: seq<VlanItem>, now: int)
    ensures Shows(Synced(rows, Entries(body), Restamp, now), body, now)
  {
    var entries := Entries(body);
    UpsertedKeys(Kept(rows, entries), entries, Restamp, now);
    forall i | 0 <= i < |entries| && Last(entries, i)
      ensures Lookup(Synced(rows, entries, Restamp, now), entries[i].key) == Some(Stamped(Restamp, None, entries[i], now))
    {
      UpsertedLast(Kept(rows, entries), entries, Restamp, now, i);
    }
  }

  function Result(device: int, count: nat, removed: nat, replaced: bool): Response {
    map["device_id" := Int(device), "count" := Int(count), "removed" := Int(removed), "replaced" := Bool(replaced)]
  }

  // ---- admission ----

  datatype Conflict = SequenceReuse | Stale

  datatype Admission = Work(receipt: Receipt) | Replay(response: Response, status: int) | Refuse(conflict: Conflict)

  function Admit(receipt: Option<Receipt>, id: Identity): Admission {
    match receipt
    case None => Work(Receipt(id, None, 200))
    case Some(r) =>
      if r.identity.seqNo == id.seqNo then
        if r.identity.digest == id.digest && r.identity.mode == id.mode then
          if r.response.None? then Work(r) else Replay(PublicPart(r.response.value), r.status)
        else Refuse(SequenceReuse)
      else if id.seqNo < r.identity.seqNo then Refuse(Stale)
      else
        var kept := if r.response.None? then map[] else PrivatePart(r.response.value);
        Work(Receipt(id, if kept == map[] then None else Some(kept), 200))
  }

  // ---- the protocol ----

  /** A delivery that took effect: when, and what it answered. */
  datatype Effect = Effect(delivery: Delivery, now: int, result: Response)

  datatype Outcome =
    | Applied(effect: Effect)
    | Replayed(delivery: Delivery, response: Response, status: int)
    | Refused(delivery: Delivery, conflict: Conflict)
    | Aborted(delivery: Delivery)

  datatype Phase = Locked | Admitted | Written(now: int, result: Response) | Ready(now: int, result: Response)

  /** The transaction that holds the device's projection lock, with its uncommitted store. */
  datatype Transaction = Transaction(delivery: Delivery, phase: Phase, working: Store)

  /** A delivery that waits for the lock has read nothing, so only the holder has state. */
  datatype State = State(device: int, committed: Store, tx: Option<Transaction>, log: seq<Outcome>)

  datatype Event =
    | TakeLock(delivery: Delivery)
    | AdmitPush
    | WriteRows(now: int, replaced: bool)
    | RecordResponse(provenance: Option<Json>)
    | Commit
    | Abort
    | ConsumeProvenance

  predicate Enabled(s: State, e: Event) {
    match e
    case TakeLock(_) => s.tx.None?
    case AdmitPush => s.tx.Some? && s.tx.value.phase.Locked?
    case WriteRows(_, _) => s.tx.Some? && s.tx.value.phase.Admitted?
    case RecordResponse(_) => s.tx.Some? && s.tx.value.phase.Written? && s.tx.value.working.receipt.Some?
    case Commit => s.tx.Some? && s.tx.value.phase.Ready?
    case Abort => s.tx.Some?
    case ConsumeProvenance => s.tx.None?
  }

  /** Roll back and release the lock. */
  function Finish(s: State, outcome: Outcome): State {
    s.(tx := None, log := s.log + [outcome])
  }

  const CLEARS: (Vlan, Vlan) -> bool := (before: Vlan, after: Vlan) => before.Clears(after)

  ghost predicate Shrinks(rows: map<int, Row<Vlan>>, body: seq<VlanItem>, now: int) {
    Deleted(rows, Entries(body)) || Cleared(rows, Entries(body), Restamp, now, CLEARS)
  }

  ghost function Next(s: State, e: Event): State
    requires Enabled(s, e)
  {
    match e
    case TakeLock(d) =>
      s.(tx := Some(Transaction(d, Locked, s.committed.(revision := s.committed.revision + 1))))
    case AdmitPush =>
      var tx := s.tx.value;
      (match Admit(tx.working.receipt, tx.delivery.identity)
       case Work(receipt) => s.(tx := Some(tx.(phase := Admitted, working := tx.working.(receipt := Some(receipt)))))
       case Replay(response, status) => Finish(s, Replayed(tx.delivery, response, status))
       case Refuse(conflict) => Finish(s, Refused(tx.delivery, conflict)))
    case WriteRows(now, replaced) =>
      var tx := s.tx.value;
      var entries := Entries(tx.delivery.body);
      if Violates(tx.working.rows, entries) then Finish(s, Aborted(tx.delivery))
      else
        var result := Result(s.device, |entries|, |tx.working.rows.Keys - Keys(entries)|,
                             replaced && Shrinks(tx.working.rows, tx.delivery.body, now));
        s.(tx := Some(tx.(phase := Written(now, result),
                          working := tx.working.(rows := Synced(tx.working.rows, entries, Restamp, now)))))
    case RecordResponse(provenance) =>
      var tx := s.tx.value;
      var receipt := tx.working.receipt.value;
      var previous := PrivateOf(receipt.response);
      var stored := receipt.(response := Some(Recorded(previous, tx.phase.result, provenance)), status := 200);
      s.(tx := Some(tx.(phase := Ready(tx.phase.now, tx.phase.result), working := tx.working.(receipt := Some(stored)))))
    case Commit =>
      var tx := s.tx.value;
      Finish(s, Applied(Effect(tx.delivery, tx.phase.now, tx.phase.result))).(committed := tx.working)
    case Abort => Finish(s, Aborted(s.tx.value.delivery))
    case ConsumeProvenance =>
      if s.committed.receipt.Some? && s.committed.receipt.value.response.Some? then
        var receipt := s.committed.receipt.value;
        s.(committed := s.committed.(receipt :=
          Some(receipt.(response := Some(receipt.response.value - {PROVENANCE})))))
      else s
  }

  ghost predicate IsRun(s: State, events: seq<Event>, s': State)
    decreases |events|
  {
    if events == [] then s == s' else Enabled(s, events[0]) && IsRun(Next(s, events[0]), events[1..], s')
  }

  // ---- what every run keeps ----

  /** The last delivery that took effect. */
  function Latest(log: seq<Outcome>): Option<Effect> {
    if log == [] then None
    else if log[|log| - 1].Applied? then Some(log[|log| - 1].effect)
    else Latest(log[..|log| - 1])
  }

  function Effects(log: seq<Outcome>): nat {
    if log == [] then 0 else Effects(log[..|log| - 1]) + (if log[|log| - 1].Applied? then 1 else 0)
  }

  ghost predicate Newer(latest: Option<Effect>, d: Delivery) {
    latest.None? || latest.value.delivery.identity.seqNo < d.identity.seqNo
  }

  /** How an outcome follows from the deliveries that took effect before it. */
  ghost predicate Explained(latest: Option<Effect>, o: Outcome) {
    match o
    case Applied(effect) => Newer(latest, effect.delivery)
    case Replayed(d, response, status) =>
      latest.Some? && latest.value.delivery.identity == d.identity && response == latest.value.result && status == 200
    case Refused(d, SequenceReuse) =>
      latest.Some? && latest.value.delivery.identity.seqNo == d.identity.seqNo && latest.value.delivery.identity != d.identity
    case Refused(d, Stale) => latest.Some? && d.identity.seqNo < latest.value.delivery.identity.seqNo
    case Aborted(_) => true
  }

  ghost predicate AllExplained(log: seq<Outcome>) {
    forall j :: 0 <= j < |log| ==> ExplainedAt(log, j)
  }

  ghost predicate ExplainedAt(log: seq<Outcome>, j: nat)
    requires j < |log|
  {
    Explained(Latest(log[..j]), log[j])
  }

  /** The committed store is that of the latest delivery, with its response. */
  ghost predicate StoreOf(store: Store, latest: Option<Effect>) {
    match latest
    case None => store.rows == map[] && store.receipt.None?
    case Some(a) =>
      && Shows(store.rows, a.delivery.body, a.now)
      && store.receipt.Some?
      && ReceiptOf(store.receipt.value, a)
  }

  ghost predicate ReceiptOf(receipt: Receipt, a: Effect) {
    && receipt.identity == a.delivery.identity && receipt.status == 200
    && receipt.response.Some? && PublicPart(receipt.response.value) == a.result
    && forall k :: k in a.result ==> !Private(k)
  }

  /** What the lock holder has prepared so far. */
  ghost predicate Prepared(s: State)
    requires s.tx.Some?
  {
    var tx, committed := s.tx.value, s.committed;
    && tx.working.revision == committed.revision + 1
    && match tx.phase
       case Locked => tx.working == committed.(revision := committed.revision + 1)
       case Admitted => tx.working.rows == committed.rows && Advances(s)
       case Written(now, result) => Advances(s) && WorkDone(tx.working.rows, tx.delivery.body, now, result)
       case Ready(now, result) =>
         && Advances(s) && WorkDone(tx.working.rows, tx.delivery.body, now, result)
         && ReceiptOf(tx.working.receipt.value, Effect(tx.delivery, now, result))
  }

  ghost predicate WorkDone(rows: map<int, Row<Vlan>>, body: seq<VlanItem>, now: int, result: Response) {
    Shows(rows, body, now) && forall k :: k in result ==> !Private(k)
  }

  ghost predicate Advances(s: State)
    requires s.tx.Some?
  {
    && s.tx.value.working.receipt.Some?
    && s.tx.value.working.receipt.value.identity == s.tx.value.delivery.identity
    && Newer(Latest(s.log), s.tx.value.delivery)
  }

  ghost predicate Inv(s: State) {
    && AllExplained(s.log)
    && s.committed.revision == Effects(s.log)
    && StoreOf(s.committed, Latest(s.log))
    && (s.tx.Some? ==> Prepared(s))
  }

  lemma LogExtends(log: seq<Outcome>, o: Outcome)
    requires AllExplained(log)
    requires Explained(Latest(log), o)
    ensures AllExplained(log + [o])
    ensures Effects(log + [o]) == Effects(log) + (if o.Applied? then 1 else 0)
    ensures Latest(log + [o]) == if o.Applied? then Some(o.effect) else Latest(log)
  {
    var long := log + [o];
    assert long[..|log|] == log;
    forall j | 0 <= j < |long| ensures ExplainedAt(long, j) {
      if j < |log| {
        assert long[..j] == log[..j];
        assert ExplainedAt(log, j);
      }
    }
  }

  /** The end of a transaction that commits nothing. */
  lemma FinishKeepsInv(s: State, o: Outcome)
    requires Inv(s) && !o.Applied?
    requires Explained(Latest(s.log), o)
    ensures Inv(Finish(s, o))
  {
    hide AllExplained, Explained, Prepared, StoreOf, Latest, Effects;
    LogExtends(s.log, o);
  }

  lemma AdmitKeepsInv(s: State)
    requires Inv(s) && Enabled(s, AdmitPush)
    ensures Inv(Next(s, AdmitPush))
  {
    hide AllExplained, Shows, Latest, Effects, PublicPart, PrivatePart;
    var tx := s.tx.value;
    match Admit(tx.working.receipt, tx.delivery.identity) {
      case Work(receipt) =>
      case Replay(response, status) => FinishKeepsInv(s, Replayed(tx.delivery, response, status));
      case Refuse(conflict) => FinishKeepsInv(s, Refused(tx.delivery, conflict));
    }
  }

  lemma ResultPublic(device: int, count: nat, removed: nat, replaced: bool)
    ensures forall k :: k in Result(device, count, removed, replaced) ==> !Private(k)
  {
  }

  lemma WriteKeepsInv(s: State, now: int, replaced: bool)
    requires Inv(s) && Enabled(s, WriteRows(now, replaced))
    ensures Inv(Next(s, WriteRows(now, replaced)))
  {
    hide AllExplained, Shows, Latest, Effects, Synced, Violates, Shrinks, Private, Result, StoreOf, Keys, Entries;
    var tx := s.tx.value;
    var entries := Entries(tx.delivery.body);
    if Violates(tx.working.rows, entries) {
      FinishKeepsInv(s, Aborted(tx.delivery));
    } else {
      SyncedShows(tx.working.rows, tx.delivery.body, now);
      ResultPublic(s.device, |entries|, |tx.working.rows.Keys - Keys(entries)|,
                   replaced && Shrinks(tx.working.rows, tx.delivery.body, now));
    }
  }

  lemma RecordKeepsInv(s: State, provenance: Option<Json>)
    requires Inv(s) && Enabled(s, RecordResponse(provenance))
    ensures Inv(Next(s, RecordResponse(provenance)))
  {
    hide AllExplained, Shows, Latest, Effects, StoreOf, PublicPart, PrivatePart, Recorded, Private;
    var tx := s.tx.value;
    var receipt := tx.working.receipt.value;
    var stored := if receipt.response.None? then map[] else receipt.response.value;
    RecordedReplays(stored, tx.phase.result, provenance);
    NothingPrivate();
  }

  lemma NothingPrivate()
    ensures PrivatePart(map[]) == map[]
  {
  }

  lemma CommitKeepsInv(s: State)
    requires Inv(s) && Enabled(s, Commit)
    ensures Inv(Next(s, Commit))
  {
    hide AllExplained, Shows, Latest, Effects, PublicPart, Private;
    LogExtends(s.log, Applied(Effect(s.tx.value.delivery, s.tx.value.phase.now, s.tx.value.phase.result)));
  }

  lemma ConsumeKeepsInv(s: State)
    requires Inv(s) && Enabled(s, ConsumeProvenance)
    ensures Inv(Next(s, ConsumeProvenance))
  {
    hide AllExplained, Shows, Latest, Effects;
    if s.committed.receipt.Some? && s.committed.receipt.value.response.Some? {
      var r := s.committed.receipt.value.response.value;
      assert PublicPart(r - {PROVENANCE}) == PublicPart(r);
    }
  }

  lemma EventKeepsInv(s: State, e: Event)
    requires Inv(s) && Enabled(s, e)
    ensures Inv(Next(s, e))
  {
    match e
    case TakeLock(_) => hide AllExplained, StoreOf, Latest, Effects;
    case AdmitPush => AdmitKeepsInv(s);
    case WriteRows(now, replaced) => WriteKeepsInv(s, now, replaced);
    case RecordResponse(provenance) => RecordKeepsInv(s, provenance);
    case Commit => CommitKeepsInv(s);
    case Abort => FinishKeepsInv(s, Aborted(s.tx.value.delivery));
    case ConsumeProvenance => ConsumeKeepsInv(s);
  }

  lemma {:induction false} RunKeepsInv(s: State, events: seq<Event>, s': State)
    requires Inv(s) && IsRun(s, events, s')
    ensures Inv(s')
    decreases |events|
  {
    hide Inv, Next;
    if events != [] {
      EventKeepsInv(s, events[0]);
      RunKeepsInv(Next(s, events[0]), events[1..], s');
    }
  }

  // ---- the promises ----

  function Fresh(device: int): State {
    State(device, EMPTY, None, [])
  }

  lemma FreshInv(device: int)
    ensures Inv(Fresh(device))
  {
  }

  lemma {:induction false} LatestDominates(log: seq<Outcome>, i: nat, j: nat)
    requires AllExplained(log) && i < j <= |log| && log[i].Applied?
    ensures Latest(log[..j]).Some?
    ensures log[i].effect.delivery.identity.seqNo <= Latest(log[..j]).value.delivery.identity.seqNo
    decreases j
  {
    assert log[..j][..j - 1] == log[..j - 1];
    if i < j - 1 {
      LatestDominates(log, i, j - 1);
      assert ExplainedAt(log, j - 1);
    }
  }

  /** Along every run the sequences that take effect strictly increase, so no body takes effect twice. */
  lemma SequencesIncrease(device: int, events: seq<Event>, s: State, i: nat, j: nat)
    requires IsRun(Fresh(device), events, s)
    requires i < j < |s.log| && s.log[i].Applied? && s.log[j].Applied?
    ensures s.log[i].effect.delivery.identity.seqNo < s.log[j].effect.delivery.identity.seqNo
  {
    FreshInv(device);
    RunKeepsInv(Fresh(device), events, s);
    LatestDominates(s.log, i, j);
    assert ExplainedAt(s.log, j);
  }

  /** Every replay repeats the answer of the latest delivery, which had the same identity. */
  lemma ReplayRepeatsAnswer(device: int, events: seq<Event>, s: State, j: nat)
    requires IsRun(Fresh(device), events, s) && j < |s.log| && s.log[j].Replayed?
    ensures var latest := Latest(s.log[..j]);
      latest.Some? && latest.value.delivery.identity == s.log[j].delivery.identity
      && s.log[j].response == latest.value.result && s.log[j].status == 200
  {
    FreshInv(device);
    RunKeepsInv(Fresh(device), events, s);
    assert ExplainedAt(s.log, j);
  }

  /** The committed store is the work of the latest delivery and of nothing else, one revision per effect. */
  lemma StoreIsLatestBody(device: int, events: seq<Event>, s: State)
    requires IsRun(Fresh(device), events, s)
    ensures s.committed.revision == Effects(s.log)
    ensures Latest(s.log).None? ==> s.committed == EMPTY.(revision := s.committed.revision)
    ensures Latest(s.log).Some? ==>
      && var a := Latest(s.log).value;
      && Shows(s.committed.rows, a.delivery.body, a.now)
      && s.committed.receipt.Some? && s.committed.receipt.value.identity == a.delivery.identity
      && s.committed.receipt.value.response.Some? && PublicPart(s.committed.receipt.value.response.value) == a.result
  {
    FreshInv(device);
    RunKeepsInv(Fresh(device), events, s);
  }

  /** What the environment decides about one request. */
  datatype Choices = Choices(now: int, replaced: bool, provenance: Option<Json>, unexecutable: bool)

  /** One request from taking the lock to releasing it. */
  ghost function Handle(s: State, d: Delivery, c: Choices): State
    requires s.tx.None?
  {
    var admitted := Next(Next(s, TakeLock(d)), AdmitPush);
    if admitted.tx.None? then admitted
    else
      var written := Next(admitted, WriteRows(c.now, c.replaced));
      if written.tx.None? then written
      else if c.unexecutable then Next(written, Abort)
      else Next(Next(written, RecordResponse(c.provenance)), Commit)
  }

  /**
   What becomes of a delivery is decided by the latest one: the same identity is answered again, the same
   sequence with another body or mode and an older sequence are refused, all leaving the store as it was,
   revision included; a newer one takes effect unless its body repeats a new id or it cannot be promoted.
   */
  lemma DeliveryDecided(s: State, d: Delivery, c: Choices)
    requires Inv(s) && s.tx.None?
    ensures var s', latest := Handle(s, d, c), Latest(s.log);
      && Inv(s') && s'.tx.None?
      && (latest.Some? && latest.value.delivery.identity == d.identity ==>
            s' == s.(log := s.log + [Replayed(d, latest.value.result, 200)]))
      && (latest.Some? && latest.value.delivery.identity.seqNo == d.identity.seqNo
          && latest.value.delivery.identity != d.identity ==>
            s' == s.(log := s.log + [Refused(d, SequenceReuse)]))
      && (latest.Some? && d.identity.seqNo < latest.value.delivery.identity.seqNo ==>
            s' == s.(log := s.log + [Refused(d, Stale)]))
      && (Newer(latest, d) ==>
            if Violates(s.committed.rows, Entries(d.body)) || c.unexecutable
            then s' == s.(log := s.log + [Aborted(d)])
            else
              && s'.committed.revision == s.committed.revision + 1
              && Latest(s'.log).Some? && Latest(s'.log).value.delivery == d && Latest(s'.log).value.now == c.now)
  {
    hide AllExplained, Shows, Latest, Effects, Synced, Violates, Shrinks, PublicPart, PrivatePart, Recorded, Result,
      Entries, Keys;
    var locked := Next(s, TakeLock(d));
    EventKeepsInv(s, TakeLock(d));
    var admitted := Next(locked, AdmitPush);
    EventKeepsInv(locked, AdmitPush);
    if admitted.tx.Some? {
      var written := Next(admitted, WriteRows(c.now, c.replaced));
      EventKeepsInv(admitted, WriteRows(c.now, c.replaced));
      if written.tx.Some? {
        FinishKeepsInv(written, Aborted(d));
        var ready := Next(written, RecordResponse(c.provenance));
        EventKeepsInv(written, RecordResponse(c.provenance));
        EventKeepsInv(ready, Commit);
        LogExtends(s.log, Applied(Effect(d, c.now, written.tx.value.phase.result)));
      }
    }
  }

  /** The answer of a delivery that takes effect counts its items and the rows it deleted. */
  lemma AppliedAnswer(s: State, d: Delivery, c: Choices)
    requires Inv(s) && s.tx.None? && Newer(Latest(s.log), d)
    requires !Violates(s.committed.rows, Entries(d.body)) && !c.unexecutable
    ensures var s' := Handle(s, d, c);
      && Latest(s'.log).Some?
      && var result := Latest(s'.log).value.result;
      && result.Keys == {"device_id", "count", "removed", "replaced"}
      && result["device_id"] == Int(s.device) && result["count"] == Int(|d.body|)
      && result["removed"] == Int(|s.committed.rows.Keys - Keys(Entries(d.body))|)
      && result["replaced"] == Bool(c.replaced && Shrinks(s.committed.rows, d.body, c.now))
  {
    hide Inv, Shows, Synced, Violates, Shrinks, PublicPart, PrivatePart, Recorded, Keys, Effects;
    var result := Result(s.device, |d.body|, |s.committed.rows.Keys - Keys(Entries(d.body))|,
                         c.replaced && Shrinks(s.committed.rows, d.body, c.now));
    AdmitsNewer(s, d);
    var admitted := Next(Next(s, TakeLock(d)), AdmitPush);
    assert admitted.tx.Some? && admitted.tx.value.working.rows == s.committed.rows;
    assert Handle(s, d, c).log == s.log + [Applied(Effect(d, c.now, result))];
  }

  lemma AdmitsNewer(s: State, d: Delivery)
    requires Inv(s) && Newer(Latest(s.log), d)
    ensures Admit(s.committed.receipt, d.identity).Work?
  {
  }

  // ---- the handler ----

  /** A database session on one stream: what is committed, and what the open transaction has changed. */
  class Session {
    const device: int
    var committed: Store
    var rows: map<int, Row<Vlan>>
    var receipt: Option<Receipt>
    var revision: nat
    ghost var log: seq<Outcome>

    ghost function Idle(): State
      reads this
    {
      State(device, committed, None, log)
    }

    constructor (device: int)
      ensures Idle() == Fresh(device)
    {
      this.device := device;
      committed, rows, receipt, revision, log := EMPTY, map[], None, 0, [];
    }

    /** Take the projection lock, note the write, and admit, replay or refuse the delivery. */
    method BeginDelivery(d: Delivery) returns (admission: Admission)
      modifies this
      ensures committed == old(committed)
      ensures admission == Admit(committed.receipt, d.identity)
      ensures rows == committed.rows
      ensures admission.Work? ==>
        revision == committed.revision + 1 && receipt == Some(admission.receipt) && log == old(log)
      ensures admission.Replay? ==> log == old(log) + [Replayed(d, admission.response, admission.status)]
      ensures admission.Refuse? ==> log == old(log) + [Refused(d, admission.conflict)]
    {
      rows, receipt, revision := committed.rows, committed.receipt, committed.revision + 1;
      admission := Admit(receipt, d.identity);
      match admission {
        case Work(advanced) => receipt := Some(advanced);
        case Replay(response, status) =>
          rows, receipt, revision := committed.rows, committed.receipt, committed.revision;
          log := log + [Replayed(d, response, status)];
        case Refuse(conflict) =>
          rows, receipt, revision := committed.rows, committed.receipt, committed.revision;
          log := log + [Refused(d, conflict)];
      }
    }

    /** Replace the rows of the body; a refused insert leaves them to the rollback. */
    method ReplaceRows(d: Delivery, c: Choices) returns (result: Option<Response>)
      modifies this`rows
      ensures result.None? <==> Violates(old(rows), Entries(d.body))
      ensures result.Some? ==>
        && rows == Synced(old(rows), Entries(d.body), Restamp, c.now)
        && result.value == Result(device, |d.body|, |old(rows).Keys - Keys(Entries(d.body))|,
                                  c.replaced && Shrinks(old(rows), d.body, c.now))
    {
      hide Cleared, Violates, Upserted, Kept, Keys, Result;
      var entries := Entries(d.body);
      var table := new Collection<int, Vlan>();
      table.rows := rows;
      var refused, removed, cleared := table.Sync(entries, Restamp, c.now, CLEARS);
      if refused {
        return None;
      }
      DeletedIff(rows, entries);
      rows := table.rows;
      var replaced := false;
      if removed != {} || cleared {
        replaced := c.replaced;
      }
      result := Some(Result(device, |entries|, |removed|, replaced));
    }

    /** Store what the push returned beside the private part of the receipt. */
    method RecordResponse(result: Response, provenance: Option<Json>)
      requires receipt.Some?
      modifies this`receipt
      ensures receipt.Some? && receipt.value.identity == old(receipt).value.identity && receipt.value.status == 200
      ensures receipt.value.response.Some?
        && Carries(old(receipt).value.response, receipt.value.response.value, result, provenance)
    {
      RecordedCarries(receipt.value.response, result, provenance);
      var previous := PrivateOf(receipt.value.response);
      receipt := Some(receipt.value.(response := Some(Recorded(previous, result, provenance)), status := 200));
    }

    /** `put_vlan_intent`, from the lock to the commit; None is a failed request. */
    method PutVlanIntent(d: Delivery, c: Choices) returns (answer: Option<Response>)
      modifies this
      ensures Idle() == Handle(old(Idle()), d, c)
      ensures |log| > 0 && answer == Answer(log[|log| - 1])
    {
      hide Violates, Synced, Keys, Shrinks, Result, Recorded, PrivateOf, PublicPart, Admit, Carries;
      var admission := BeginDelivery(d);
      if admission.Replay? {
        return Some(admission.response);
      } else if admission.Refuse? {
        return None;
      }
      var result := ReplaceRows(d, c);
      if result.None? || c.unexecutable {
        log := log + [Aborted(d)];
        return None;
      }
      ghost var admitted := receipt.value.response;
      RecordResponse(result.value, c.provenance);
      CarriesDetermines(admitted, receipt.value.response.value, result.value, c.provenance);
      committed := Store(rows, receipt, revision);
      log := log + [Applied(Effect(d, c.now, result.value))];
      answer := result;
    }
  }

  /** What the client is told. */
  function Answer(o: Outcome): Option<Response> {
    match o
    case Applied(effect) => Some(effect.result)
    case Replayed(_, response, _) => Some(response)
    case Refused(_, _) => None
    case Aborted(_) => None
  }
}
