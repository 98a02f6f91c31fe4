/**
 The settlement feed: jobs take their place in a device's order inside the transaction that ends
 them, from a counter row whose lock is held to COMMIT, and consumers walk that order by cursor.
 */
module SettlementFeed {
  import opened Options

  const LIMIT_MIN := 1
  const LIMIT_MAX := 500

  // ---- the request ----

  datatype Request = Request(device: Option<nat>, status: Option<string>, ascending: bool, after: Option<int>, limit: int)

  datatype Query =
    | Refused
    | Feed(device: nat, cursor: int, limit: nat)
    | Listing(scope: Option<nat>, status: Option<string>, limit: nat)

  predicate KnownStatus(status: string) {
    status in {"queued", "running", "succeeded", "failed"}
  }

  /** `list_jobs` up to the query it runs. */
  function Plan(r: Request): Query {
    if (r.ascending || r.after.Some?) && r.device.None? then Refused
    else if r.after.Some? && !r.ascending then Refused
    else if r.status.Some? && r.ascending then Refused
    else if !(LIMIT_MIN <= r.limit <= LIMIT_MAX) then Refused
    else if r.status.Some? && !KnownStatus(r.status.value) then Refused
    else if r.ascending then Feed(r.device.value, if r.after.Some? then r.after.value else 0, r.limit)
    else Listing(r.device, r.status, r.limit)
  }

  /** A cursor is honoured only on one device's complete ascending feed: never thinned, never in creation order. */
  lemma CursorOnlyOnWholeFeed(r: Request)
    ensures r.after.Some? && !Plan(r).Refused? ==> Plan(r) == Feed(r.device.value, r.after.value, r.limit)
    ensures Plan(r).Feed? <==> r.ascending && r.device.Some? && r.status.None? && LIMIT_MIN <= r.limit <= LIMIT_MAX
    ensures Plan(r).Listing? ==> r.after.None? && !r.ascending
  {
  }

  // ---- the store ----

  /** A committed job row. `settleSeq` is NULL until the job ends. */
  datatype JobRow = JobRow(device: nat, settleSeq: Option<nat>)

  /** One uncommitted terminal write. */
  datatype Write = Write(device: nat, job: nat, seqNo: nat)

  /** A settled job and its place, as the committed table shows it. */
  datatype Settled = Settled(job: nat, seqNo: nat)

  datatype Consumer = Consumer(device: nat, cursor: nat, seen: seq<nat>)

  /** `order` records, per device, the settled jobs in the order their transactions committed. */
  datatype State = State(
    jobs: map<nat, JobRow>, counters: map<nat, nat>, open: map<nat, seq<Write>>,
    order: map<nat, seq<Settled>>, consumers: map<nat, Consumer>)

  const INIT := State(map[], map[], map[], map[], map[])

  datatype Event =
    | AddDevice(device: nat)
    | AddJob(job: nat, device: nat)
    | Begin(tx: nat)
    | Terminalize(tx: nat, job: nat)
    | Commit(tx: nat)
    | Rollback(tx: nat)
    | Subscribe(consumer: nat, device: nat)
    | Poll(consumer: nat, limit: nat, page: seq<nat>)

  predicate Holds(s: State, tx: nat, device: nat) {
    tx in s.open && exists i :: 0 <= i < |s.open[tx]| && s.open[tx][i].device == device
  }

  predicate RowLocked(s: State, tx: nat, job: nat) {
    tx in s.open && exists i :: 0 <= i < |s.open[tx]| && s.open[tx][i].job == job
  }

  /** The writes of one transaction on one device, oldest first. */
  function On(writes: seq<Write>, device: nat): (r: seq<Settled>)
    ensures |r| <= |writes|
  {
    if writes == [] then []
    else
      var last := |writes| - 1;
      On(writes[..last], device)
      + (if writes[last].device == device then [Settled(writes[last].job, writes[last].seqNo)] else [])
  }

  /** The rows the feed's WHERE clause keeps. */
  predicate Qualifies(s: State, device: nat, cursor: int, job: nat) {
    job in s.jobs && s.jobs[job].device == device && s.jobs[job].settleSeq.Some? && s.jobs[job].settleSeq.value > cursor
  }

  /** `page` answers WHERE device AND settle_seq > cursor ORDER BY settle_seq ASC LIMIT limit. */
  predicate IsPage(s: State, device: nat, cursor: int, limit: nat, page: seq<nat>) {
    && |page| <= limit
    && (forall i :: 0 <= i < |page| ==> Qualifies(s, device, cursor, page[i]))
    && (forall i, j :: 0 <= i < j < |page| ==> s.jobs[page[i]].settleSeq.value < s.jobs[page[j]].settleSeq.value)
    && (forall job :: job in s.jobs && Qualifies(s, device, cursor, job) && job !in page ==>
          |page| == limit && forall i :: 0 <= i < |page| ==>
            s.jobs[page[i]].settleSeq.value < s.jobs[job].settleSeq.value)
  }

  predicate Enabled(s: State, e: Event) {
    match e
    case AddDevice(d) => d !in s.counters
    case AddJob(j, d) => j !in s.jobs && d in s.counters
    case Begin(tx) => tx !in s.open
    case Terminalize(tx, j) =>
      && tx in s.open && j in s.jobs && s.jobs[j].settleSeq.None? && s.jobs[j].device in s.counters
      // the status compare-and-set: another transaction's lock on the row blocks, this one's write already ended it
      && (forall t :: t in s.open ==> !RowLocked(s, t, j))
      // the counter UPDATE blocks while another transaction holds the row
      && (forall t :: t in s.open && t != tx ==> !Holds(s, t, s.jobs[j].device))
    case Commit(tx) => tx in s.open
    case Rollback(tx) => tx in s.open
    case Subscribe(c, d) => c !in s.consumers && d in s.counters
    case Poll(c, limit, page) =>
      && c in s.consumers && LIMIT_MIN <= limit <= LIMIT_MAX
      && IsPage(s, s.consumers[c].device, s.consumers[c].cursor, limit, page)
  }

  /** `last_seq + 1` as this transaction reads it: its own increments are visible to it. */
  function NextSeq(s: State, tx: nat, device: nat): nat
    requires tx in s.open && device in s.counters
  {
    s.counters[device] + |On(s.open[tx], device)| + 1
  }

  function Next(s: State, e: Event): State
    requires Enabled(s, e)
  {
    match e
    case AddDevice(d) => s.(counters := s.counters[d := 0], order := s.order[d := []])
    case AddJob(j, d) => s.(jobs := s.jobs[j := JobRow(d, None)])
    case Begin(tx) => s.(open := s.open[tx := []])
    case Terminalize(tx, j) =>
      var d := s.jobs[j].device;
      s.(open := s.open[tx := s.open[tx] + [Write(d, j, NextSeq(s, tx, d))]])
    case Commit(tx) =>
      var writes := s.open[tx];
      s.(jobs := map j | j in s.jobs :: Stamped(writes, j, s.jobs[j]),
         counters := map d | d in s.counters :: s.counters[d] + |On(writes, d)|,
         order := map d | d in s.order :: s.order[d] + On(writes, d),
         open := s.open - {tx})
    case Rollback(tx) => s.(open := s.open - {tx})
    case Subscribe(c, d) => s.(consumers := s.consumers[c := Consumer(d, 0, [])])
    case Poll(c, limit, page) =>
      var consumer := s.consumers[c];
      var cursor := if page == [] then consumer.cursor else s.jobs[page[|page| - 1]].settleSeq.value;
      s.(consumers := s.consumers[c := Consumer(consumer.device, cursor, consumer.seen + page)])
  }

  function Stamped(writes: seq<Write>, job: nat, row: JobRow): JobRow {
    if writes == [] then row
    else
      var last := |writes| - 1;
      if writes[last].job == job then row.(settleSeq := Some(writes[last].seqNo)) else Stamped(writes[..last], job, row)
  }

  predicate IsRun(s: State, events: seq<Event>, s': State)
    decreases |events|
  {
    if events == [] then s == s'
    else
      var e := events[0];
      Enabled(s, e) && IsRun(Next(s, e), events[1..], s')
  }

  // ---- the invariant ----

  function Jobs(order: seq<Settled>): seq<nat> {
    seq(|order|, i requires 0 <= i < |order| => order[i].job)
  }

  /** The uncommitted writes of a transaction continue the counter of every device they touch. */
  ghost predicate Continues(s: State, tx: nat)
    requires tx in s.open
  {
    && (forall i :: 0 <= i < |s.open[tx]| ==>
          var w := s.open[tx][i];
          && w.job in s.jobs && s.jobs[w.job] == JobRow(w.device, None) && w.device in s.counters)
    && (forall i, k :: 0 <= i < k < |s.open[tx]| ==> s.open[tx][i].job != s.open[tx][k].job)
    && (forall d :: d in s.counters ==>
          forall i :: 0 <= i < |On(s.open[tx], d)| ==> On(s.open[tx], d)[i].seqNo == s.counters[d] + i + 1)
  }

  predicate Ascending(order: seq<Settled>) {
    forall i, k :: 0 <= i < k < |order| ==> order[i].seqNo < order[k].seqNo
  }

  predicate Within(order: seq<Settled>, counter: nat) {
    forall i :: 0 <= i < |order| ==> 0 < order[i].seqNo <= counter
  }

  /** Every entry of the order is a settled row. */
  ghost predicate RowsShow(s: State) {
    forall d, i :: d in s.order && 0 <= i < |s.order[d]| ==>
      && s.order[d][i].job in s.jobs
      && s.jobs[s.order[d][i].job] == JobRow(d, Some(s.order[d][i].seqNo))
  }

  /** Every settled row is an entry of the order. */
  ghost predicate RowsPlaced(s: State) {
    forall j :: j in s.jobs ==>
      && s.jobs[j].device in s.order
      && (s.jobs[j].settleSeq.Some? ==> Settled(j, s.jobs[j].settleSeq.value) in s.order[s.jobs[j].device])
  }

  /** The committed table shows exactly the recorded order, whose numbers increase up to the counter. */
  ghost predicate TableMatches(s: State) {
    && s.order.Keys == s.counters.Keys
    && (forall d :: d in s.order ==> Ascending(s.order[d]) && Within(s.order[d], s.counters[d]))
    && RowsShow(s) && RowsPlaced(s)
  }

  ghost predicate Exclusive(s: State) {
    && (forall t, u, d :: t in s.open && u in s.open && t != u && Holds(s, t, d) ==> !Holds(s, u, d))
    && (forall t, u, j :: t in s.open && u in s.open && t != u && RowLocked(s, t, j) ==> !RowLocked(s, u, j))
  }

  /** A consumer has seen a prefix of its device's order, and its cursor is where that prefix ends. */
  ghost predicate CaughtUpTo(s: State, c: Consumer, n: nat) {
    && c.device in s.order && n <= |s.order[c.device]|
    && c.seen == Jobs(s.order[c.device][..n])
    && c.cursor == if n == 0 then 0 else s.order[c.device][n - 1].seqNo
  }

  ghost predicate Inv(s: State) {
    && TableMatches(s) && Exclusive(s)
    && (forall t :: t in s.open ==> Continues(s, t))
    && (forall c :: c in s.consumers ==> CaughtUpTo(s, s.consumers[c], |s.consumers[c].seen|))
  }

  // ---- lemmas about one transaction's writes ----

  lemma OnAppend(writes: seq<Write>, w: Write, d: nat)
    ensures On(writes + [w], d) == On(writes, d) + (if w.device == d then [Settled(w.job, w.seqNo)] else [])
  {
    assert (writes + [w])[..|writes|] == writes;
  }

  lemma {:induction false} OnHas(writes: seq<Write>, i: nat)
    requires i < |writes|
    ensures Settled(writes[i].job, writes[i].seqNo) in On(writes, writes[i].device)
  {
    var last := |writes| - 1;
    if i < last {
      OnHas(writes[..last], i);
    }
  }

  lemma {:induction false} OnFrom(writes: seq<Write>, d: nat, x: Settled) returns (i: nat)
    requires x in On(writes, d)
    ensures i < |writes| && writes[i] == Write(d, x.job, x.seqNo)
  {
    var last := |writes| - 1;
    if x in On(writes[..last], d) {
      i := OnFrom(writes[..last], d, x);
    } else {
      i := last;
    }
  }

  lemma {:induction false} StampedHit(writes: seq<Write>, i: nat, row: JobRow)
    requires i < |writes|
    requires forall a, b :: 0 <= a < b < |writes| ==> writes[a].job != writes[b].job
    ensures Stamped(writes, writes[i].job, row) == row.(settleSeq := Some(writes[i].seqNo))
  {
    var last := |writes| - 1;
    if i < last {
      StampedHit(writes[..last], i, row);
    }
  }

  lemma {:induction false} StampedMiss(writes: seq<Write>, job: nat, row: JobRow)
    requires forall i :: 0 <= i < |writes| ==> writes[i].job != job
    ensures Stamped(writes, job, row) == row
  {
    if writes != [] {
      StampedMiss(writes[..|writes| - 1], job, row);
    }
  }

  // ---- every event keeps the invariant ----

  lemma {:induction false} StampedKeepsDevice(writes: seq<Write>, job: nat, row: JobRow)
    ensures Stamped(writes, job, row).device == row.device
  {
    if writes != [] {
      StampedKeepsDevice(writes[..|writes| - 1], job, row);
    }
  }

  /** After a commit every recorded settlement is in the table, with its number. */
  lemma CommittedInTable(s: State, tx: nat, d: nat, x: Settled)
    requires TableMatches(s) && tx in s.open && Continues(s, tx)
    requires d in s.order && x in s.order[d] + On(s.open[tx], d)
    ensures x.job in s.jobs && Stamped(s.open[tx], x.job, s.jobs[x.job]) == JobRow(d, Some(x.seqNo))
  {
    var writes := s.open[tx];
    if x in On(writes, d) {
      var k := OnFrom(writes, d, x);
      StampedHit(writes, k, s.jobs[x.job]);
    } else {
      var i :| 0 <= i < |s.order[d]| && s.order[d][i] == x;
      StampedMiss(writes, x.job, s.jobs[x.job]);
    }
  }

  /** After a commit every settled row of the table is recorded. */
  lemma CommittedInOrder(s: State, tx: nat, j: nat)
    requires TableMatches(s) && tx in s.open && Continues(s, tx) && j in s.jobs
    ensures var row := Stamped(s.open[tx], j, s.jobs[j]);
      && row.device == s.jobs[j].device
      && (row.settleSeq.Some? ==>
            Settled(j, row.settleSeq.value) in s.order[row.device] + On(s.open[tx], row.device))
  {
    var writes := s.open[tx];
    if i :| 0 <= i < |writes| && writes[i].job == j {
      StampedHit(writes, i, s.jobs[j]);
      OnHas(writes, i);
    } else {
      StampedMiss(writes, j, s.jobs[j]);
    }
  }

  lemma AscendingConcat(a: seq<Settled>, b: seq<Settled>, counter: nat)
    requires Ascending(a) && Within(a, counter)
    requires forall i :: 0 <= i < |b| ==> b[i].seqNo == counter + i + 1
    ensures Ascending(a + b) && Within(a + b, counter + |b|)
  {
    forall i | 0 <= i < |a + b| ensures (a + b)[i].seqNo == if i < |a| then a[i].seqNo else counter + (i - |a|) + 1 {
    }
  }

  lemma ContinuesAt(s: State, tx: nat, d: nat)
    requires tx in s.open && Continues(s, tx) && d in s.counters
    ensures forall i :: 0 <= i < |On(s.open[tx], d)| ==> On(s.open[tx], d)[i].seqNo == s.counters[d] + i + 1
  {
    hide On;
  }

  /** A commit extends the order of a device, and its numbers stay within the counter and in order. */
  lemma CommitOrdered(s: State, tx: nat, d: nat)
    requires TableMatches(s) && tx in s.open && Continues(s, tx) && d in s.order
    ensures var order := s.order[d] + On(s.open[tx], d);
      Ascending(order) && Within(order, s.counters[d] + |On(s.open[tx], d)|)
  {
    hide Continues, On, RowsShow, RowsPlaced, Ascending, Within;
    ContinuesAt(s, tx, d);
    AscendingConcat(s.order[d], On(s.open[tx], d), s.counters[d]);
  }

  lemma CommitShows(s: State, tx: nat)
    requires TableMatches(s) && tx in s.open && Continues(s, tx)
    ensures RowsShow(Next(s, Commit(tx)))
  {
    var s' := Next(s, Commit(tx));
    hide Stamped, On, TableMatches, Continues;
    forall d, i | d in s'.order && 0 <= i < |s'.order[d]|
      ensures s'.order[d][i].job in s'.jobs
      ensures s'.jobs[s'.order[d][i].job] == JobRow(d, Some(s'.order[d][i].seqNo))
    {
      CommittedInTable(s, tx, d, s'.order[d][i]);
    }
  }

  lemma CommitPlaces(s: State, tx: nat)
    requires TableMatches(s) && tx in s.open && Continues(s, tx)
    ensures RowsPlaced(Next(s, Commit(tx)))
  {
    var s' := Next(s, Commit(tx));
    assert forall j :: j in s.jobs ==> s.jobs[j].device in s.order;
    hide Stamped, On, TableMatches, Continues;
    forall j | j in s'.jobs
      ensures s'.jobs[j].device == s.jobs[j].device
      ensures s'.jobs[j].settleSeq.Some? ==>
        Settled(j, s'.jobs[j].settleSeq.value) in s'.order[s.jobs[j].device]
    {
      CommittedInOrder(s, tx, j);
    }
  }

  lemma CommitKeepsTable(s: State, tx: nat)
    requires TableMatches(s) && tx in s.open && Continues(s, tx)
    ensures TableMatches(Next(s, Commit(tx)))
  {
    var s' := Next(s, Commit(tx));
    CommitShows(s, tx);
    CommitPlaces(s, tx);
    hide Stamped, On, Continues, RowsShow, RowsPlaced, Ascending, Within;
    forall d | d in s'.order ensures Ascending(s'.order[d]) && Within(s'.order[d], s'.counters[d]) {
      CommitOrdered(s, tx, d);
    }
  }

  lemma CommitLeavesRows(s: State, tx: nat, u: nat, i: nat)
    requires Exclusive(s) && tx in s.open && u in s.open && u != tx && i < |s.open[u]|
    requires s.open[u][i].job in s.jobs
    ensures Stamped(s.open[tx], s.open[u][i].job, s.jobs[s.open[u][i].job]) == s.jobs[s.open[u][i].job]
  {
    var job := s.open[u][i].job;
    assert RowLocked(s, u, job);
    assert !RowLocked(s, tx, job);
    StampedMiss(s.open[tx], job, s.jobs[job]);
  }

  lemma CommitLeavesCounter(s: State, tx: nat, u: nat, d: nat)
    requires Exclusive(s) && tx in s.open && u in s.open && u != tx && On(s.open[u], d) != []
    ensures On(s.open[tx], d) == []
  {
    var i := OnFrom(s.open[u], d, On(s.open[u], d)[0]);
    assert Holds(s, u, d);
    assert !Holds(s, tx, d);
    if On(s.open[tx], d) != [] {
      var k := OnFrom(s.open[tx], d, On(s.open[tx], d)[0]);
    }
  }

  lemma CommitKeepsCounter(s: State, tx: nat, u: nat, d: nat)
    requires Exclusive(s) && tx in s.open && u in s.open && u != tx && Continues(s, u) && d in s.counters
    ensures forall i :: 0 <= i < |On(s.open[u], d)| ==>
      On(s.open[u], d)[i].seqNo == s.counters[d] + |On(s.open[tx], d)| + i + 1
  {
    hide On, Exclusive;
    ContinuesAt(s, u, d);
    if On(s.open[u], d) != [] {
      CommitLeavesCounter(s, tx, u, d);
    }
  }

  lemma CommitKeepsOthers(s: State, tx: nat, u: nat)
    requires Inv(s) && tx in s.open && u in s.open && u != tx
    ensures Continues(Next(s, Commit(tx)), u)
  {
    assert Continues(s, u) && Exclusive(s);
    hide Inv, TableMatches, Exclusive, CaughtUpTo, Stamped, On;
    forall i | 0 <= i < |s.open[u]|
      ensures Stamped(s.open[tx], s.open[u][i].job, s.jobs[s.open[u][i].job]) == s.jobs[s.open[u][i].job]
    {
      CommitLeavesRows(s, tx, u, i);
    }
    forall d | d in s.counters
      ensures forall i :: 0 <= i < |On(s.open[u], d)| ==>
        On(s.open[u], d)[i].seqNo == s.counters[d] + |On(s.open[tx], d)| + i + 1
    {
      CommitKeepsCounter(s, tx, u, d);
    }
  }

  lemma CommitKeepsInv(s: State, tx: nat)
    requires Inv(s) && tx in s.open
    ensures Inv(Next(s, Commit(tx)))
  {
    var s' := Next(s, Commit(tx));
    CommitKeepsTable(s, tx);
    forall u | u in s'.open ensures Continues(s', u) {
      CommitKeepsOthers(s, tx, u);
    }
    assert forall t, d :: Holds(s', t, d) ==> Holds(s, t, d);
    assert forall t, j :: RowLocked(s', t, j) ==> RowLocked(s, t, j);
    forall c | c in s'.consumers ensures CaughtUpTo(s', s'.consumers[c], |s'.consumers[c].seen|) {
      PrefixStays(s, s', s.consumers[c]);
    }
  }

  lemma PrefixStays(s: State, s': State, c: Consumer)
    requires CaughtUpTo(s, c, |c.seen|)
    requires c.device in s'.order && s.order[c.device] <= s'.order[c.device]
    ensures CaughtUpTo(s', c, |c.seen|)
  {
    var n := |c.seen|;
    assert s'.order[c.device][..n] == s.order[c.device][..n];
  }

  lemma TerminalizeContinues(s: State, tx: nat, j: nat)
    requires Enabled(s, Terminalize(tx, j)) && Continues(s, tx)
    ensures Continues(Next(s, Terminalize(tx, j)), tx)
  {
    var s' := Next(s, Terminalize(tx, j));
    var w := s'.open[tx][|s.open[tx]|];
    forall d | d in s'.counters
      ensures forall i :: 0 <= i < |On(s'.open[tx], d)| ==> On(s'.open[tx], d)[i].seqNo == s'.counters[d] + i + 1
    {
      OnAppend(s.open[tx], w, d);
    }
    forall i | 0 <= i < |s.open[tx]| ensures s.open[tx][i].job != j {
      if s.open[tx][i].job == j {
        assert RowLocked(s, tx, j);
      }
    }
  }

  lemma TerminalizeExclusive(s: State, tx: nat, j: nat)
    requires Enabled(s, Terminalize(tx, j)) && Exclusive(s)
    ensures Exclusive(Next(s, Terminalize(tx, j)))
  {
    var s' := Next(s, Terminalize(tx, j));
    forall t, d | Holds(s', t, d) ensures Holds(s, t, d) || (t == tx && d == s.jobs[j].device) {
      if t == tx && d != s.jobs[j].device {
        var i :| 0 <= i < |s'.open[tx]| && s'.open[tx][i].device == d;
        assert s.open[tx][i].device == d;
      }
    }
    forall t, k | RowLocked(s', t, k) ensures RowLocked(s, t, k) || (t == tx && k == j) {
      if t == tx && k != j {
        var i :| 0 <= i < |s'.open[tx]| && s'.open[tx][i].job == k;
        assert s.open[tx][i].job == k;
      }
    }
  }

  /** `Continues` reads only the transaction's own writes and the committed jobs and counters. */
  lemma ContinuesElsewhere(s: State, s': State, t: nat)
    requires t in s.open && t in s'.open && s'.open[t] == s.open[t] && Continues(s, t)
    requires s'.jobs == s.jobs && s'.counters == s.counters
    ensures Continues(s', t)
  {
  }

  lemma TableElsewhere(s: State, s': State)
    requires s'.jobs == s.jobs && s'.counters == s.counters && s'.order == s.order && TableMatches(s)
    ensures TableMatches(s')
  {
  }

  lemma TerminalizeKeepsInv(s: State, tx: nat, j: nat)
    requires Inv(s) && Enabled(s, Terminalize(tx, j))
    ensures Inv(Next(s, Terminalize(tx, j)))
  {
    var s' := Next(s, Terminalize(tx, j));
    assert Continues(s, tx) && Exclusive(s) && TableMatches(s);
    TerminalizeContinues(s, tx, j);
    TerminalizeExclusive(s, tx, j);
    TableElsewhere(s, s');
    hide TableMatches, Exclusive, Continues, CaughtUpTo;
    forall t | t in s'.open ensures Continues(s', t) {
      if t != tx {
        ContinuesElsewhere(s, s', t);
      }
    }
    forall c | c in s'.consumers ensures CaughtUpTo(s', s'.consumers[c], |s'.consumers[c].seen|) {
      CaughtUpElsewhere(s, s', s.consumers[c]);
    }
  }

  lemma CaughtUpElsewhere(s: State, s': State, c: Consumer)
    requires CaughtUpTo(s, c, |c.seen|) && s'.order == s.order
    ensures CaughtUpTo(s', c, |c.seen|)
  {
  }

  // ---- a page is the next stretch of the order ----

  /** `at` is a complete ascending selection of at most `limit` positions from n up to `size`. */
  ghost predicate Selects(size: nat, n: nat, limit: nat, at: seq<nat>) {
    && n <= size && |at| <= limit
    && (forall i, k :: 0 <= i < k < |at| ==> at[i] < at[k])
    && (forall k :: 0 <= k < |at| ==> n <= at[k] < size)
    && (forall m: nat :: n <= m < size && m !in at ==> |at| == limit && forall k :: 0 <= k < |at| ==> at[k] < m)
  }

  /** Such a selection is the next stretch of positions. */
  lemma {:induction false} NextStretch(size: nat, n: nat, limit: nat, at: seq<nat>)
    requires Selects(size, n, limit, at)
    ensures forall k :: 0 <= k < |at| ==> at[k] == n + k
    ensures |at| == if size - n <= limit then size - n else limit
    decreases |at|
  {
    assert at == [] || n <= at[0] < size;
    if n < size {
      assert n in at || |at| == limit;
      if at != [] {
        assert n in at;
        assert forall k :: 0 <= k < |at[1..]| ==> at[1..][k] == at[k + 1];
        assert forall m: nat :: n + 1 <= m && m !in at[1..] ==> m !in at;
        NextStretch(size, n + 1, limit - 1, at[1..]);
        assert forall k :: 1 <= k < |at| ==> at[k] == at[1..][k - 1];
      }
    }
  }

  /** The cursor separates the jobs already seen from those still to come. */
  lemma QualifiesIffLater(s: State, c: Consumer, n: nat, i: nat)
    requires TableMatches(s) && CaughtUpTo(s, c, n) && i < |s.order[c.device]|
    ensures Qualifies(s, c.device, c.cursor, s.order[c.device][i].job) <==> i >= n
  {
  }

  /** Where a page's jobs stand in the order. */
  lemma {:induction false} Positions(s: State, c: Consumer, n: nat, page: seq<nat>) returns (at: seq<nat>)
    requires TableMatches(s) && CaughtUpTo(s, c, n)
    requires forall i :: 0 <= i < |page| ==> Qualifies(s, c.device, c.cursor, page[i])
    ensures |at| == |page| && forall k :: 0 <= k < |at| ==> Stands(s, c, n, page[k], at[k])
    decreases |page|
  {
    at := [];
    if page != [] {
      var last := |page| - 1;
      at := Positions(s, c, n, page[..last]);
      var order := s.order[c.device];
      assert Qualifies(s, c.device, c.cursor, page[last]);
      var p :| 0 <= p < |order| && order[p] == Settled(page[last], s.jobs[page[last]].settleSeq.value);
      QualifiesIffLater(s, c, n, p);
      assert Stands(s, c, n, page[last], p);
      hide TableMatches, CaughtUpTo, Stands;
      at := at + [p];
    }
  }

  lemma SeqOrder(s: State, d: nat, i: nat, k: nat)
    requires TableMatches(s) && d in s.order && i < |s.order[d]| && k < |s.order[d]|
    ensures s.order[d][i].seqNo < s.order[d][k].seqNo <==> i < k
  {
  }

  /** Entry k of the page stands at position p of the order. */
  predicate Stands(s: State, c: Consumer, n: nat, job: nat, p: nat)
    requires c.device in s.order
  {
    && n <= p < |s.order[c.device]| && Qualifies(s, c.device, c.cursor, job)
    && s.order[c.device][p] == Settled(job, s.jobs[job].settleSeq.value)
  }

  /** A later position that the page leaves out has all of the page before it, and the page is full. */
  lemma PageLeavesOut(s: State, c: Consumer, n: nat, limit: nat, page: seq<nat>, at: seq<nat>, m: nat)
    requires TableMatches(s) && CaughtUpTo(s, c, n) && IsPage(s, c.device, c.cursor, limit, page)
    requires |at| == |page| && forall k :: 0 <= k < |at| ==> Stands(s, c, n, page[k], at[k])
    requires n <= m < |s.order[c.device]| && m !in at
    ensures |at| == limit && forall k :: 0 <= k < |at| ==> at[k] < m
  {
    var order := s.order[c.device];
    QualifiesIffLater(s, c, n, m);
    assert s.jobs[order[m].job].settleSeq == Some(order[m].seqNo);
    hide TableMatches, CaughtUpTo;
    forall k | 0 <= k < |page| ensures page[k] != order[m].job {
      assert Stands(s, c, n, page[k], at[k]) && at[k] in at;
      SeqOrder(s, c.device, at[k], m);
      SeqOrder(s, c.device, m, at[k]);
    }
    assert order[m].job !in page;
    forall k | 0 <= k < |at| ensures at[k] < m {
      assert Stands(s, c, n, page[k], at[k]);
      SeqOrder(s, c.device, at[k], m);
    }
  }

  lemma PageSelects(s: State, c: Consumer, n: nat, limit: nat, page: seq<nat>, at: seq<nat>)
    requires TableMatches(s) && CaughtUpTo(s, c, n) && IsPage(s, c.device, c.cursor, limit, page)
    requires |at| == |page| && forall k :: 0 <= k < |at| ==> Stands(s, c, n, page[k], at[k])
    ensures Selects(|s.order[c.device]|, n, limit, at)
  {
    assert c.device in s.order && n <= |s.order[c.device]|;
    hide TableMatches, CaughtUpTo;
    forall i, k | 0 <= i < k < |at| ensures at[i] < at[k] {
      assert Stands(s, c, n, page[i], at[i]) && Stands(s, c, n, page[k], at[k]);
      SeqOrder(s, c.device, at[i], at[k]);
    }
    forall k | 0 <= k < |at| ensures n <= at[k] < |s.order[c.device]| {
      assert Stands(s, c, n, page[k], at[k]);
    }
    hide IsPage, Stands;
    forall m: nat | n <= m < |s.order[c.device]| && m !in at
      ensures |at| == limit && forall k :: 0 <= k < |at| ==> at[k] < m
    {
      PageLeavesOut(s, c, n, limit, page, at, m);
    }
    assert |at| <= limit by {
      PageFits(s, c, limit, page);
    }
  }

  lemma PageFits(s: State, c: Consumer, limit: nat, page: seq<nat>)
    requires IsPage(s, c.device, c.cursor, limit, page)
    ensures |page| <= limit
  {
  }

  /** However the pages fall, a poll delivers the next jobs of the order and nothing else. */
  lemma PageIsNext(s: State, c: Consumer, n: nat, limit: nat, page: seq<nat>)
    requires TableMatches(s) && CaughtUpTo(s, c, n) && IsPage(s, c.device, c.cursor, limit, page)
    ensures |page| == if |s.order[c.device]| - n <= limit then |s.order[c.device]| - n else limit
    ensures forall k :: 0 <= k < |page| ==> page[k] == s.order[c.device][n + k].job
    ensures forall k :: 0 <= k < |page| ==>
      page[k] in s.jobs && s.jobs[page[k]].settleSeq == Some(s.order[c.device][n + k].seqNo)
  {
    var at := Positions(s, c, n, page);
    PageSelects(s, c, n, limit, page, at);
    hide TableMatches, IsPage, CaughtUpTo, Selects, Qualifies;
    NextStretch(|s.order[c.device]|, n, limit, at);
    AtPositions(s, c, n, page, at);
  }

  lemma AtPositions(s: State, c: Consumer, n: nat, page: seq<nat>, at: seq<nat>)
    requires c.device in s.order && |at| == |page|
    requires forall k :: 0 <= k < |at| ==> at[k] == n + k
    requires forall k :: 0 <= k < |at| ==> Stands(s, c, n, page[k], at[k])
    ensures n + |page| <= |s.order[c.device]| || page == []
    ensures forall k :: 0 <= k < |page| ==>
      && page[k] == s.order[c.device][n + k].job
      && page[k] in s.jobs && s.jobs[page[k]].settleSeq == Some(s.order[c.device][n + k].seqNo)
  {
    forall k | 0 <= k < |page| ensures Stands(s, c, n, page[k], n + k) {
      assert at[k] == n + k;
    }
    assert page != [] ==> Stands(s, c, n, page[|page| - 1], n + (|page| - 1));
  }

  lemma SeenGrows(order: seq<Settled>, n: nat, page: seq<nat>)
    requires n + |page| <= |order|
    requires forall k :: 0 <= k < |page| ==> page[k] == order[n + k].job
    ensures Jobs(order[..n]) + page == Jobs(order[..n + |page|])
    ensures |Jobs(order[..n + |page|])| == n + |page|
  {
  }

  lemma PollCatchesUp(s: State, c: nat, limit: nat, page: seq<nat>)
    requires Enabled(s, Poll(c, limit, page)) && TableMatches(s)
    requires CaughtUpTo(s, s.consumers[c], |s.consumers[c].seen|)
    ensures var after := Next(s, Poll(c, limit, page));
      CaughtUpTo(after, after.consumers[c], |after.consumers[c].seen|)
  {
    var consumer := s.consumers[c];
    var n, order := |consumer.seen|, s.order[consumer.device];
    PageIsNext(s, consumer, n, limit, page);
    hide TableMatches, IsPage, Qualifies, Jobs;
    SeenGrows(order, n, page);
  }

  lemma PollKeepsInv(s: State, c: nat, limit: nat, page: seq<nat>)
    requires Inv(s) && Enabled(s, Poll(c, limit, page))
    ensures Inv(Next(s, Poll(c, limit, page)))
  {
    var s' := Next(s, Poll(c, limit, page));
    QuietKeepsRest(s, s');
    PollCatchesUp(s, c, limit, page);
    hide TableMatches, Exclusive, Continues, CaughtUpTo, IsPage;
    forall k | k in s'.consumers ensures CaughtUpTo(s', s'.consumers[k], |s'.consumers[k].seen|) {
      if k != c {
        CaughtUpElsewhere(s, s', s.consumers[k]);
      }
    }
  }

  /** An event that leaves jobs, counters, order and transactions alone keeps what is said of them. */
  lemma QuietKeepsRest(s: State, s': State)
    requires TableMatches(s) && Exclusive(s) && forall t :: t in s.open ==> Continues(s, t)
    requires s'.jobs == s.jobs && s'.counters == s.counters && s'.order == s.order && s'.open == s.open
    ensures TableMatches(s') && Exclusive(s') && forall t :: t in s'.open ==> Continues(s', t)
  {
    assert forall t, d :: Holds(s', t, d) <==> Holds(s, t, d);
    assert forall t, j :: RowLocked(s', t, j) <==> RowLocked(s, t, j);
    forall t | t in s'.open ensures Continues(s', t) {
      assert Continues(s, t);
    }
  }

  lemma SimpleContinues(s: State, e: Event, t: nat)
    requires Enabled(s, e) && t in Next(s, e).open && (t in s.open ==> Continues(s, t))
    requires e.AddDevice? || e.AddJob? || e.Begin? || e.Rollback? || e.Subscribe?
    ensures Continues(Next(s, e), t)
  {
    if t in s.open {
      FreshDeviceUnused(s, t, e);
    }
  }

  lemma SimpleKeepsInv(s: State, e: Event)
    requires Inv(s) && Enabled(s, e)
    requires e.AddDevice? || e.AddJob? || e.Begin? || e.Rollback? || e.Subscribe?
    ensures Inv(Next(s, e))
  {
    hide TableMatches, CaughtUpTo, Continues, Exclusive;
    var s' := Next(s, e);
    SimpleKeepsTable(s, e);
    SimpleExclusive(s, e);
    forall t | t in s'.open ensures Continues(s', t) {
      SimpleContinues(s, e, t);
    }
    forall c | c in s'.consumers ensures CaughtUpTo(s', s'.consumers[c], |s'.consumers[c].seen|) {
      if c in s.consumers {
        StillOrdered(s, e, s.consumers[c]);
      } else {
        FreshConsumer(s', s'.consumers[c]);
      }
    }
  }

  lemma SimpleExclusive(s: State, e: Event)
    requires Exclusive(s) && Enabled(s, e)
    requires e.AddDevice? || e.AddJob? || e.Begin? || e.Rollback? || e.Subscribe?
    ensures Exclusive(Next(s, e))
  {
    var s' := Next(s, e);
    assert forall t, d :: Holds(s', t, d) ==> Holds(s, t, d);
    assert forall t, j :: RowLocked(s', t, j) ==> RowLocked(s, t, j);
  }

  lemma StillOrdered(s: State, e: Event, c: Consumer)
    requires CaughtUpTo(s, c, |c.seen|) && TableMatches(s) && Enabled(s, e)
    requires e.AddDevice? || e.AddJob? || e.Begin? || e.Rollback? || e.Subscribe?
    ensures CaughtUpTo(Next(s, e), c, |c.seen|)
  {
  }

  lemma FreshConsumer(s: State, c: Consumer)
    requires c.cursor == 0 && c.seen == [] && c.device in s.order
    ensures CaughtUpTo(s, c, 0)
  {
  }

  lemma SimpleKeepsTable(s: State, e: Event)
    requires TableMatches(s) && Enabled(s, e)
    requires e.AddDevice? || e.AddJob? || e.Begin? || e.Rollback? || e.Subscribe?
    ensures TableMatches(Next(s, e))
    ensures e.Subscribe? ==> e.device in s.order
  {
  }

  lemma FreshDeviceUnused(s: State, t: nat, e: Event)
    requires t in s.open && Continues(s, t) && Enabled(s, e)
    ensures e.AddDevice? ==> On(s.open[t], e.device) == []
  {
    if e.AddDevice? && On(s.open[t], e.device) != [] {
      var i := OnFrom(s.open[t], e.device, On(s.open[t], e.device)[0]);
    }
  }

  lemma EventKeepsInv(s: State, e: Event)
    requires Inv(s) && Enabled(s, e)
    ensures Inv(Next(s, e))
  {
    match e
    case Terminalize(tx, j) => TerminalizeKeepsInv(s, tx, j);
    case Commit(tx) => CommitKeepsInv(s, tx);
    case Poll(c, limit, page) => PollKeepsInv(s, c, limit, page);
    case _ => SimpleKeepsInv(s, e);
  }

  lemma {:induction false} RunKeepsInv(s: State, events: seq<Event>, s': State)
    requires Inv(s) && IsRun(s, events, s')
    ensures Inv(s')
    decreases |events|
  {
    if events != [] {
      EventKeepsInv(s, events[0]);
      RunKeepsInv(Next(s, events[0]), events[1..], s');
    }
  }

  // ---- what consumers get ----

  /**
   After any interleaving of settle transactions and polls, a consumer has seen each settled job of its
   device at most once, in commit order, and none of the jobs up to its cursor is missing.
   */
  lemma FeedIsExactlyOnce(events: seq<Event>, s: State, c: nat)
    requires IsRun(INIT, events, s) && c in s.consumers
    ensures var consumer := s.consumers[c];
      && consumer.device in s.order
      && consumer.seen <= Jobs(s.order[consumer.device])
      && (forall i, k :: 0 <= i < k < |consumer.seen| ==> consumer.seen[i] != consumer.seen[k])
      && (forall j :: j in s.jobs && s.jobs[j].device == consumer.device && s.jobs[j].settleSeq.Some? ==>
            (s.jobs[j].settleSeq.value <= consumer.cursor <==> j in consumer.seen))
  {
    RunKeepsInv(INIT, events, s);
    var consumer := s.consumers[c];
    SeenUpToCursor(s, consumer, |consumer.seen|);
  }

  lemma SeenIff(s: State, consumer: Consumer, n: nat, j: nat)
    requires TableMatches(s) && CaughtUpTo(s, consumer, n)
    requires j in s.jobs && s.jobs[j].device == consumer.device && s.jobs[j].settleSeq.Some?
    ensures s.jobs[j].settleSeq.value <= consumer.cursor <==> j in consumer.seen
  {
    var order := s.order[consumer.device];
    var at :| 0 <= at < |order| && order[at] == Settled(j, s.jobs[j].settleSeq.value);
    QualifiesIffLater(s, consumer, n, at);
    assert forall i :: 0 <= i < n ==> s.jobs[order[i].job].settleSeq == Some(order[i].seqNo);
    SeenAt(s, consumer, n);
    hide TableMatches, CaughtUpTo, Jobs;
    assert at < n ==> consumer.seen[at] == j;
    if j in consumer.seen {
      var i :| 0 <= i < |consumer.seen| && consumer.seen[i] == j;
      SeqOrder(s, consumer.device, i, at);
      SeqOrder(s, consumer.device, at, i);
    }
  }

  lemma SeenAt(s: State, consumer: Consumer, n: nat)
    requires CaughtUpTo(s, consumer, n)
    ensures |consumer.seen| == n && forall i :: 0 <= i < n ==> consumer.seen[i] == s.order[consumer.device][i].job
    ensures consumer.seen <= Jobs(s.order[consumer.device])
  {
  }

  lemma SeenUpToCursor(s: State, consumer: Consumer, n: nat)
    requires TableMatches(s) && CaughtUpTo(s, consumer, n)
    ensures consumer.seen <= Jobs(s.order[consumer.device])
    ensures forall i, k :: 0 <= i < k < |consumer.seen| ==> consumer.seen[i] != consumer.seen[k]
    ensures forall j :: j in s.jobs && s.jobs[j].device == consumer.device && s.jobs[j].settleSeq.Some? ==>
      (s.jobs[j].settleSeq.value <= consumer.cursor <==> j in consumer.seen)
  {
    SeenAt(s, consumer, n);
    var order := s.order[consumer.device];
    forall i, k | 0 <= i < k < n ensures order[i].job != order[k].job {
      SeqOrder(s, consumer.device, i, k);
    }
    hide TableMatches, CaughtUpTo, Jobs;
    forall j | j in s.jobs && s.jobs[j].device == consumer.device && s.jobs[j].settleSeq.Some?
      ensures s.jobs[j].settleSeq.value <= consumer.cursor <==> j in consumer.seen
    {
      SeenIff(s, consumer, n, j);
    }
  }

  lemma CommitExtends(s: State, tx: nat, d: nat)
    requires Inv(s) && tx in s.open && d in s.order
    ensures var s' := Next(s, Commit(tx));
      && d in s'.order
      && s'.order[d] == s.order[d] + On(s.open[tx], d)
      && Ascending(s'.order[d])
  {
    assert Continues(s, tx);
    CommitOrdered(s, tx, d);
    hide TableMatches, Continues, Exclusive, CaughtUpTo, On, Stamped;
  }

  /** The order is commit order: a commit appends its own jobs after every job committed before it. */
  lemma CommitAppends(events: seq<Event>, s: State, tx: nat, d: nat)
    requires IsRun(INIT, events, s) && tx in s.open && d in s.order
    ensures var s' := Next(s, Commit(tx));
      && d in s'.order
      && s'.order[d] == s.order[d] + On(s.open[tx], d)
      && Ascending(s'.order[d])
  {
    RunKeepsInv(INIT, events, s);
    hide Inv, IsRun, On, Stamped;
    CommitExtends(s, tx, d);
  }

  lemma InvAt(s: State, c: nat)
    requires Inv(s) && c in s.consumers
    ensures TableMatches(s) && CaughtUpTo(s, s.consumers[c], |s.consumers[c].seen|)
  {
    hide TableMatches, CaughtUpTo, Exclusive, Continues;
  }

  lemma SeenNow(s: State, consumer: Consumer, n: nat)
    requires CaughtUpTo(s, consumer, n)
    ensures consumer.device in s.order && n <= |s.order[consumer.device]|
    ensures consumer.seen == Jobs(s.order[consumer.device][..n])
  {
    hide Jobs;
  }

  lemma PollSees(s: State, c: nat, limit: nat, page: seq<nat>)
    requires Inv(s) && Enabled(s, Poll(c, limit, page))
    ensures var d, seen := s.consumers[c].device, |s.consumers[c].seen|;
      && d in s.order
      && Next(s, Poll(c, limit, page)).consumers[c].seen
         == Jobs(s.order[d][..if |s.order[d]| - seen <= limit then |s.order[d]| else seen + limit])
  {
    hide Inv, TableMatches, IsPage, CaughtUpTo, Jobs;
    var consumer := s.consumers[c];
    var n := |consumer.seen|;
    InvAt(s, c);
    SeenNow(s, consumer, n);
    PageIsNext(s, consumer, n, limit, page);
    SeenGrows(s.order[consumer.device], n, page);
  }

  /** One poll of any legal size moves the consumer on by a full page, or to the end of the order. */
  lemma PollMakesProgress(events: seq<Event>, s: State, c: nat, limit: nat, page: seq<nat>)
    requires IsRun(INIT, events, s) && Enabled(s, Poll(c, limit, page))
    ensures var d, seen := s.consumers[c].device, |s.consumers[c].seen|;
      && d in s.order
      && Next(s, Poll(c, limit, page)).consumers[c].seen
         == Jobs(s.order[d][..if |s.order[d]| - seen <= limit then |s.order[d]| else seen + limit])
  {
    RunKeepsInv(INIT, events, s);
    hide Inv, IsRun, Jobs, IsPage;
    PollSees(s, c, limit, page);
  }
}
