/** Collapsing the peers a device reports under several groups (`_insert_bgp_peers`). */
module BgpPeers {
  import opened Options

  datatype FamilyData = FamilyData(afi: string, enabled: bool, routemapIn: Option<string>, routemapOut: Option<string>,
                                   prefixlistIn: Option<string>, prefixlistOut: Option<string>)

  datatype Policy = Policy(enabled: bool, routemapIn: Option<string>, routemapOut: Option<string>,
                           prefixlistIn: Option<string>, prefixlistOut: Option<string>)

  datatype Scalars = Scalars(peerGroup: Option<string>, remoteAs: Option<string>, localAs: Option<string>,
                             ttl: Option<int>, password: Option<string>, source: Option<string>, bfdEnabled: Option<bool>)

  datatype PeerData = PeerData(address: string, enabled: bool, scalars: Scalars, families: seq<FamilyData>)

  datatype Peer = Peer(enabled: bool, scalars: Scalars)

  function OrNone(v: Option<string>): Option<string> {
    if v == Some("") then None else v
  }

  /** `_paf_policy`: a blank policy name is no policy. */
  function PolicyOf(f: FamilyData): Policy {
    Policy(f.enabled, OrNone(f.routemapIn), OrNone(f.routemapOut), OrNone(f.prefixlistIn), OrNone(f.prefixlistOut))
  }

  function StoredScalars(s: Scalars): Scalars {
    s.(peerGroup := OrNone(s.peerGroup), source := OrNone(s.source))
  }

  // ---- what was seen, in order ----

  /** One policy of one address family of one peer. */
  datatype Seen = Seen(address: string, afi: string, policy: Policy)

  function FamiliesSeen(p: PeerData, n: nat): seq<Seen>
    requires n <= |p.families|
  {
    if n == 0 then []
    else
      var f := p.families[n - 1];
      FamiliesSeen(p, n - 1) + (if f.afi == "" then [] else [Seen(p.address, f.afi, PolicyOf(f))])
  }

  function AllSeen(peers: seq<PeerData>): seq<Seen> {
    if peers == [] then []
    else
      var p := peers[|peers| - 1];
      AllSeen(peers[..|peers| - 1]) + (if p.address == "" then [] else FamiliesSeen(p, |p.families|))
  }

  /** The policy seen first for a family of a peer. */
  function FirstPolicy(seen: seq<Seen>, address: string, afi: string): Option<Policy> {
    if seen == [] then None
    else
      var n := |seen| - 1;
      var prior := FirstPolicy(seen[..n], address, afi);
      if prior.Some? then prior
      else if seen[n].address == address && seen[n].afi == afi then Some(seen[n].policy)
      else None
  }

  /** The rows to store: each family of a peer when it is first seen. */
  function Rows(seen: seq<Seen>): seq<Seen> {
    if seen == [] then []
    else
      var n := |seen| - 1;
      Rows(seen[..n]) + (if FirstPolicy(seen[..n], seen[n].address, seen[n].afi).None? then [seen[n]] else [])
  }

  datatype Conflict = Conflict(address: string, afi: string, kept: Policy, dropped: Policy)

  /** The warnings to log: each later policy that differs from the first. */
  function Warnings(seen: seq<Seen>): seq<Conflict> {
    if seen == [] then []
    else
      var n := |seen| - 1;
      var x, prior := seen[n], FirstPolicy(seen[..n], seen[n].address, seen[n].afi);
      Warnings(seen[..n])
      + (if prior.Some? && prior.value != x.policy then [Conflict(x.address, x.afi, prior.value, x.policy)] else [])
  }

  // ---- the peers ----

  ghost predicate Named(peers: seq<PeerData>, address: string, i: nat) {
    i < |peers| && peers[i].address == address
  }

  ghost predicate FirstNamed(peers: seq<PeerData>, i: nat)
    requires i < |peers|
  {
    forall j :: 0 <= j < i ==> peers[j].address != peers[i].address
  }

  ghost predicate PeerAddresses(stored: map<string, Peer>, peers: seq<PeerData>) {
    forall a :: a in stored <==> a != "" && exists i: nat :: Named(peers, a, i)
  }

  ghost predicate AnyEnabled(stored: map<string, Peer>, peers: seq<PeerData>) {
    forall a :: a in stored ==> (stored[a].enabled <==> exists i: nat :: Named(peers, a, i) && peers[i].enabled)
  }

  ghost predicate FirstScalars(stored: map<string, Peer>, peers: seq<PeerData>) {
    forall i: nat :: i < |peers| && FirstNamed(peers, i) && peers[i].address in stored ==>
      stored[peers[i].address].scalars == StoredScalars(peers[i].scalars)
  }

  /** One peer per non-blank address: the scalars of its first occurrence, enabled if any occurrence is. */
  ghost predicate PeersOf(stored: map<string, Peer>, peers: seq<PeerData>) {
    PeerAddresses(stored, peers) && AnyEnabled(stored, peers) && FirstScalars(stored, peers)
  }

  // ---- the loops ----

  function Recall(afis: map<string, map<string, Policy>>, address: string, afi: string): Option<Policy> {
    if address in afis && afi in afis[address] then Some(afis[address][afi]) else None
  }

  /** The dictionaries of the loop remember the first policy of each family seen. */
  ghost predicate Remembers(afis: map<string, map<string, Policy>>, seen: seq<Seen>) {
    forall a, f :: Recall(afis, a, f) == FirstPolicy(seen, a, f)
  }

  /** Everything the loops maintain about families. */
  ghost predicate Tracks(afis: map<string, map<string, Policy>>, families: seq<Seen>, warnings: seq<Conflict>, seen: seq<Seen>) {
    Remembers(afis, seen) && families == Rows(seen) && warnings == Warnings(seen)
  }

  lemma FamilyKnown(afis: map<string, map<string, Policy>>, families: seq<Seen>, warnings: seq<Conflict>, seen: seq<Seen>, x: Seen)
    requires Tracks(afis, families, warnings, seen) && x.address in afis && x.afi in afis[x.address]
    ensures var prior := afis[x.address][x.afi];
      Tracks(afis, families,
             warnings + (if prior != x.policy then [Conflict(x.address, x.afi, prior, x.policy)] else []), seen + [x])
  {
    SeenExtends(seen, x);
    assert Recall(afis, x.address, x.afi) == FirstPolicy(seen, x.address, x.afi);
    hide FirstPolicy, Rows, Warnings;
  }

  lemma FamilyNew(afis: map<string, map<string, Policy>>, families: seq<Seen>, warnings: seq<Conflict>, seen: seq<Seen>, x: Seen)
    requires Tracks(afis, families, warnings, seen) && x.address in afis && x.afi !in afis[x.address]
    ensures Tracks(afis[x.address := afis[x.address][x.afi := x.policy]], families + [x], warnings, seen + [x])
  {
    SeenExtends(seen, x);
    assert Recall(afis, x.address, x.afi) == FirstPolicy(seen, x.address, x.afi);
    hide FirstPolicy, Rows, Warnings;
  }

  lemma PeerNew(afis: map<string, map<string, Policy>>, families: seq<Seen>, warnings: seq<Conflict>, seen: seq<Seen>, a: string)
    requires Tracks(afis, families, warnings, seen) && a !in afis
    ensures Tracks(afis[a := map[]], families, warnings, seen)
  {
    forall b, f ensures Recall(afis[a := map[]], b, f) == Recall(afis, b, f) {
    }
  }

  lemma NextFamily(seen: seq<Seen>, p: PeerData, i: nat)
    requires i < |p.families|
    ensures var f := p.families[i];
      seen + FamiliesSeen(p, i + 1) ==
        if f.afi == "" then seen + FamiliesSeen(p, i) else seen + FamiliesSeen(p, i) + [Seen(p.address, f.afi, PolicyOf(f))]
  {
  }

  lemma NextPeer(data: seq<PeerData>, i: nat)
    requires i < |data|
    ensures AllSeen(data[..i + 1]) ==
      AllSeen(data[..i]) + (if data[i].address == "" then [] else FamiliesSeen(data[i], |data[i].families|))
  {
    assert data[..i + 1][..i] == data[..i];
  }

  /** The tables a refresh fills for one scope. */
  class Scope {
    var peers: map<string, Peer>
    var families: seq<Seen>
    var warnings: seq<Conflict>
    var afis: map<string, map<string, Policy>>

    constructor ()
      ensures peers == map[] && families == [] && warnings == [] && afis == map[]
    {
      peers, families, warnings, afis := map[], [], [], map[];
    }

    /** One address family of one peer. */
    method AddFamily(address: string, f: FamilyData, ghost seen: seq<Seen>)
      requires address in afis && f.afi != "" && Tracks(afis, families, warnings, seen)
      modifies this
      ensures peers == old(peers) && afis.Keys == old(afis).Keys
      ensures Tracks(afis, families, warnings, seen + [Seen(address, f.afi, PolicyOf(f))])
    {
      hide Tracks, PolicyOf;
      var policy := PolicyOf(f);
      ghost var x := Seen(address, f.afi, policy);
      if f.afi in afis[address] {
        FamilyKnown(afis, families, warnings, seen, x);
        if afis[address][f.afi] != policy {
          warnings := warnings + [Conflict(address, f.afi, afis[address][f.afi], policy)];
        } else {
          assert warnings + [] == warnings;
        }
      } else {
        FamilyNew(afis, families, warnings, seen, x);
        families := families + [Seen(address, f.afi, policy)];
        afis := afis[address := afis[address][f.afi := policy]];
      }
    }

    /** `_add_peer_address_families`. */
    method AddFamilies(p: PeerData, ghost seen: seq<Seen>)
      requires p.address in afis && Tracks(afis, families, warnings, seen)
      modifies this
      ensures peers == old(peers) && afis.Keys == old(afis).Keys
      ensures Tracks(afis, families, warnings, seen + FamiliesSeen(p, |p.families|))
    {
      hide Tracks, PolicyOf;
      assert seen + FamiliesSeen(p, 0) == seen;
      for i := 0 to |p.families|
        invariant peers == old(peers) && afis.Keys == old(afis).Keys
        invariant Tracks(afis, families, warnings, seen + FamiliesSeen(p, i))
      {
        hide FamiliesSeen;
        NextFamily(seen, p, i);
        if p.families[i].afi != "" {
          AddFamily(p.address, p.families[i], seen + FamiliesSeen(p, i));
        }
      }
    }

    /** One reported peer: a new row, or another occurrence of one already stored. */
    method InsertPeer(p: PeerData, ghost seen: seq<Seen>)
      requires p.address != "" && afis.Keys == peers.Keys && Tracks(afis, families, warnings, seen)
      modifies this
      ensures peers == WithPeer(old(peers), p) && afis.Keys == peers.Keys
      ensures Tracks(afis, families, warnings, seen + FamiliesSeen(p, |p.families|))
    {
      hide Tracks, FamiliesSeen, StoredScalars;
      if p.address !in peers {
        peers := peers[p.address := Peer(p.enabled, StoredScalars(p.scalars))];
        PeerNew(afis, families, warnings, seen, p.address);
        afis := afis[p.address := map[]];
      } else if p.enabled {
        peers := peers[p.address := peers[p.address].(enabled := true)];
      }
      AddFamilies(p, seen);
    }

    /** `_insert_bgp_peers`. */
    method InsertPeers(data: seq<PeerData>)
      requires peers == map[] && families == [] && warnings == [] && afis == map[]
      modifies this
      ensures PeersOf(peers, data)
      ensures families == Rows(AllSeen(data)) && warnings == Warnings(AllSeen(data))
      ensures Distinct(families)
    {
      RowsDistinct(AllSeen(data));
      hide FamiliesSeen, PeersOf, WithPeer, Rows, Warnings, AllSeen, Remembers;
      NothingSeen(data);
      for i := 0 to |data|
        invariant PeersOf(peers, data[..i]) && afis.Keys == peers.Keys
        invariant Tracks(afis, families, warnings, AllSeen(data[..i]))
      {
        hide Tracks;
        NextPeer(data, i);
        PeersExtend(peers, data, i);
        BlankPeer(peers, data[i]);
        if data[i].address != "" {
          InsertPeer(data[i], AllSeen(data[..i]));
        } else {
          assert AllSeen(data[..i]) + [] == AllSeen(data[..i]);
        }
      }
      assert data[..|data|] == data;
    }
  }

  lemma NothingSeen(data: seq<PeerData>)
    ensures PeersOf(map[], data[..0]) && Tracks(map[], [], [], AllSeen(data[..0]))
  {
  }

  lemma BlankPeer(stored: map<string, Peer>, p: PeerData)
    ensures p.address == "" ==> WithPeer(stored, p) == stored
  {
  }

  lemma SeenExtends(seen: seq<Seen>, x: Seen)
    ensures var prior := FirstPolicy(seen, x.address, x.afi);
      && Rows(seen + [x]) == Rows(seen) + (if prior.None? then [x] else [])
      && Warnings(seen + [x]) == Warnings(seen)
         + (if prior.Some? && prior.value != x.policy then [Conflict(x.address, x.afi, prior.value, x.policy)] else [])
      && forall a, f :: FirstPolicy(seen + [x], a, f) ==
           if a == x.address && f == x.afi && prior.None? then Some(x.policy) else FirstPolicy(seen, a, f)
  {
    assert (seen + [x])[..|seen|] == seen;
  }

  /** What one more peer changes. */
  function WithPeer(stored: map<string, Peer>, p: PeerData): map<string, Peer> {
    if p.address == "" then stored
    else if p.address !in stored then stored[p.address := Peer(p.enabled, StoredScalars(p.scalars))]
    else if p.enabled then stored[p.address := stored[p.address].(enabled := true)]
    else stored
  }

  lemma PeersExtend(stored: map<string, Peer>, data: seq<PeerData>, i: nat)
    requires i < |data| && PeersOf(stored, data[..i])
    ensures PeersOf(WithPeer(stored, data[i]), data[..i + 1])
  {
    var long, after := data[..i + 1], WithPeer(stored, data[i]);
    forall a ensures a in after <==> a != "" && exists j: nat :: Named(long, a, j) {
      NamedExtend(data, i, a);
    }
    forall a | a in after ensures after[a].enabled <==> exists j: nat :: Named(long, a, j) && long[j].enabled {
      NamedExtend(data, i, a);
    }
    hide AnyEnabled, PeerAddresses, FirstScalars;
    ScalarsExtend(stored, data, i);
  }

  lemma ScalarsExtend(stored: map<string, Peer>, data: seq<PeerData>, i: nat)
    requires i < |data| && PeerAddresses(stored, data[..i]) && FirstScalars(stored, data[..i])
    ensures FirstScalars(WithPeer(stored, data[i]), data[..i + 1])
  {
    hide StoredScalars, AnyEnabled;
    var short, long, after := data[..i], data[..i + 1], WithPeer(stored, data[i]);
    NamedExtend(data, i, data[i].address);
    assert FirstNamed(long, i) ==> data[i].address !in stored;
    assert forall j: nat :: j < i ==> short[j] == long[j] && Named(short, short[j].address, j);
    hide Named;
    forall j: nat | j < |long| && FirstNamed(long, j) && long[j].address in after
      ensures after[long[j].address].scalars == StoredScalars(long[j].scalars)
    {
      if j < i {
        assert FirstNamed(short, j);
        assert long[j].address in stored;
      }
    }
  }

  lemma NamedExtend(data: seq<PeerData>, i: nat, a: string)
    requires i < |data|
    ensures var short, long := data[..i], data[..i + 1];
      && ((exists j: nat :: Named(long, a, j)) <==> (exists j: nat :: Named(short, a, j)) || a == data[i].address)
      && ((exists j: nat :: Named(long, a, j) && long[j].enabled) <==>
            (exists j: nat :: Named(short, a, j) && short[j].enabled) || (a == data[i].address && data[i].enabled))
      && (a == data[i].address && FirstNamed(long, i) ==> !exists j: nat :: Named(short, a, j))
  {
    var short, long := data[..i], data[..i + 1];
    forall j: nat | Named(short, a, j) ensures Named(long, a, j) && long[j] == short[j] {
    }
    forall j: nat | Named(long, a, j) && j < i ensures Named(short, a, j) && long[j] == short[j] {
    }
    assert a == data[i].address ==> Named(long, a, i);
  }

  // ---- read as a whole ----

  predicate SameFamily(a: Seen, b: Seen) {
    a.address == b.address && a.afi == b.afi
  }

  /** Nothing before index i names the same peer and family. */
  predicate First(seen: seq<Seen>, i: nat)
    requires i < |seen|
  {
    forall j :: 0 <= j < i ==> !SameFamily(seen[j], seen[i])
  }

  lemma {:induction false} FirstPolicyIsFirst(seen: seq<Seen>, i: nat)
    requires i < |seen| && First(seen, i)
    ensures FirstPolicy(seen, seen[i].address, seen[i].afi) == Some(seen[i].policy)
    decreases |seen|
  {
    var n := |seen| - 1;
    if i < n {
      assert First(seen[..n], i);
      FirstPolicyIsFirst(seen[..n], i);
    } else {
      NoPolicyBefore(seen[..n], seen[n]);
    }
  }

  lemma {:induction false} NoPolicyBefore(seen: seq<Seen>, x: Seen)
    ensures FirstPolicy(seen, x.address, x.afi).None? <==> forall j :: 0 <= j < |seen| ==> !SameFamily(seen[j], x)
    decreases |seen|
  {
    if seen != [] {
      NoPolicyBefore(seen[..|seen| - 1], x);
    }
  }

  lemma FirstPrefix(seen: seq<Seen>, i: nat)
    requires i < |seen| - 1
    ensures First(seen[..|seen| - 1], i) <==> First(seen, i)
    ensures seen[..|seen| - 1][i] == seen[i]
  {
  }

  lemma RowsLast(seen: seq<Seen>, x: Seen)
    requires seen != []
    ensures var n := |seen| - 1; x in Rows(seen) <==> x in Rows(seen[..n]) || (First(seen, n) && seen[n] == x)
  {
    var n := |seen| - 1;
    var rest := if FirstPolicy(seen[..n], seen[n].address, seen[n].afi).None? then [seen[n]] else [];
    assert Rows(seen) == Rows(seen[..n]) + rest;
    hide Rows;
    FirstIffNone(seen, n);
    hide First, FirstPolicy;
    assert x in rest <==> First(seen, n) && seen[n] == x;
  }

  lemma FirstIffNone(seen: seq<Seen>, n: nat)
    requires n + 1 == |seen|
    ensures First(seen, n) <==> FirstPolicy(seen[..n], seen[n].address, seen[n].afi).None?
  {
    NoPolicyBefore(seen[..n], seen[n]);
    hide FirstPolicy;
    assert forall j :: 0 <= j < n ==> seen[..n][j] == seen[j];
  }

  ghost predicate FirstIs(seen: seq<Seen>, i: int, x: Seen) {
    0 <= i < |seen| && First(seen, i) && seen[i] == x
  }

  lemma FirstIsLast(seen: seq<Seen>, n: nat, x: Seen)
    requires n + 1 == |seen|
    ensures (exists i :: FirstIs(seen, i, x)) <==> (exists i :: FirstIs(seen[..n], i, x)) || FirstIs(seen, n, x)
  {
    forall i | 0 <= i < n ensures FirstIs(seen[..n], i, x) <==> FirstIs(seen, i, x) {
      FirstPrefix(seen, i);
    }
    hide First;
    if i :| FirstIs(seen, i, x) {
      assert i < n ==> FirstIs(seen[..n], i, x);
    }
    if i :| FirstIs(seen[..n], i, x) {
      assert FirstIs(seen, i, x);
    }
  }

  /** A row is stored for exactly the first policy of each family of each peer. */
  lemma {:induction false} RowsAreFirsts(seen: seq<Seen>, x: Seen)
    ensures x in Rows(seen) <==> exists i :: FirstIs(seen, i, x)
    decreases |seen|
  {
    if seen != [] {
      var n := |seen| - 1;
      RowsAreFirsts(seen[..n], x);
      RowsLast(seen, x);
      FirstIsLast(seen, n, x);
    }
  }

  /** No peer has two rows for one family. */
  ghost predicate Distinct(rows: seq<Seen>) {
    forall i, j :: 0 <= i < j < |rows| ==> !SameFamily(rows[i], rows[j])
  }

  lemma {:induction false} RowsDistinct(seen: seq<Seen>)
    ensures Distinct(Rows(seen))
    decreases |seen|
  {
    if seen != [] {
      var n := |seen| - 1;
      var short := seen[..n];
      RowsDistinct(short);
      FirstIffNone(seen, n);
      if First(seen, n) {
        forall i | 0 <= i < |Rows(short)| ensures !SameFamily(Rows(short)[i], seen[n]) {
          RowsAreFirsts(short, Rows(short)[i]);
          var k :| FirstIs(short, k, Rows(short)[i]);
          assert short[k] == seen[k];
        }
      }
    }
  }

  /** A warning is logged for exactly the later policies that differ from the first of their family. */
  lemma {:induction false} WarningsAreConflicts(seen: seq<Seen>, c: Conflict)
    ensures c in Warnings(seen) <==> exists i, j :: Conflicting(seen, i, j) && c == ConflictOf(seen, i, j)
    decreases |seen|
  {
    if seen != [] {
      var n := |seen| - 1;
      var short := seen[..n];
      WarningsAreConflicts(short, c);
      assert c in Warnings(seen) <==> c in Warnings(short) || WarnedLast(seen, c);
      hide Warnings;
      ConflictLast(seen, n, c);
      hide WarnedLast;
      if i, j :| Conflicting(short, i, j) && c == ConflictOf(short, i, j) {
        FirstPrefix(seen, i);
        assert Conflicting(seen, i, j) && c == ConflictOf(seen, i, j);
      }
      if i, j :| Conflicting(seen, i, j) && c == ConflictOf(seen, i, j) {
        if j < n {
          FirstPrefix(seen, i);
          assert Conflicting(short, i, j) && c == ConflictOf(short, i, j);
        }
      }
    }
  }

  /** Index i is the first of its family and a later index j has another policy. */
  ghost predicate Conflicting(seen: seq<Seen>, i: int, j: int) {
    0 <= i < j < |seen| && First(seen, i) && SameFamily(seen[i], seen[j]) && seen[i].policy != seen[j].policy
  }

  function ConflictOf(seen: seq<Seen>, i: int, j: int): Conflict
    requires 0 <= i < j < |seen|
  {
    Conflict(seen[j].address, seen[j].afi, seen[i].policy, seen[j].policy)
  }

  ghost predicate WarnedLast(seen: seq<Seen>, c: Conflict)
    requires seen != []
  {
    var n := |seen| - 1;
    var prior := FirstPolicy(seen[..n], seen[n].address, seen[n].afi);
    prior.Some? && prior.value != seen[n].policy && c == Conflict(seen[n].address, seen[n].afi, prior.value, seen[n].policy)
  }

  lemma ConflictLast(seen: seq<Seen>, n: nat, c: Conflict)
    requires n + 1 == |seen|
    ensures WarnedLast(seen, c) <==> exists i :: Conflicting(seen, i, n) && c == ConflictOf(seen, i, n)
  {
    var short := seen[..n];
    NoPolicyBefore(short, seen[n]);
    hide FirstPolicy;
    if FirstPolicy(short, seen[n].address, seen[n].afi).Some? {
      var j :| 0 <= j < n && SameFamily(short[j], seen[n]);
      var i := EarliestOf(short, j);
      FirstPrefix(seen, i);
      FirstPolicyIsFirst(short, i);
      assert seen[i] == short[i];
      assert seen[i].policy != seen[n].policy ==> Conflicting(seen, i, n);
    }
    forall i | Conflicting(seen, i, n) ensures FirstPolicy(short, seen[n].address, seen[n].afi) == Some(seen[i].policy) {
      FirstPrefix(seen, i);
      FirstPolicyIsFirst(short, i);
    }
  }

  /** The first index of the family that index j has. */
  lemma EarliestOf(seen: seq<Seen>, j: nat) returns (i: nat)
    requires j < |seen|
    ensures i <= j && First(seen, i) && SameFamily(seen[i], seen[j])
    decreases j
  {
    if First(seen, j) {
      i := j;
    } else {
      var k :| 0 <= k < j && SameFamily(seen[k], seen[j]);
      i := EarliestOf(seen, k);
    }
  }

  // ---- one warning per conflicting occurrence ----

  ghost predicate ConflictsAt(seen: seq<Seen>, j: int) {
    exists i :: Conflicting(seen, i, j)
  }

  /** The positions warned about, in order. */
  ghost function WarnedAt(seen: seq<Seen>): seq<int> {
    if seen == [] then []
    else WarnedAt(seen[..|seen| - 1]) + (if ConflictsAt(seen, |seen| - 1) then [|seen| - 1] else [])
  }

  lemma ConflictPrefix(seen: seq<Seen>, i: int, j: int)
    requires seen != [] && j < |seen| - 1
    ensures Conflicting(seen, i, j) <==> Conflicting(seen[..|seen| - 1], i, j)
    ensures Conflicting(seen, i, j) ==> ConflictOf(seen, i, j) == ConflictOf(seen[..|seen| - 1], i, j)
  {
    if 0 <= i < j {
      FirstPrefix(seen, i);
      FirstPrefix(seen, j);
    }
  }

  lemma ConflictsPrefix(seen: seq<Seen>, j: int)
    requires seen != [] && j < |seen| - 1
    ensures ConflictsAt(seen, j) <==> ConflictsAt(seen[..|seen| - 1], j)
  {
    hide Conflicting;
    var short := seen[..|seen| - 1];
    if i :| Conflicting(seen, i, j) {
      ConflictPrefix(seen, i, j);
    }
    if i :| Conflicting(short, i, j) {
      ConflictPrefix(seen, i, j);
    }
  }

  /** Warning k is about position j of what was seen. */
  ghost predicate WarnsOf(seen: seq<Seen>, c: Conflict, j: int) {
    exists i :: Conflicting(seen, i, j) && c == ConflictOf(seen, i, j)
  }

  lemma WarnsPrefix(seen: seq<Seen>, c: Conflict, j: int)
    requires seen != [] && j < |seen| - 1 && WarnsOf(seen[..|seen| - 1], c, j)
    ensures WarnsOf(seen, c, j)
  {
    var i :| Conflicting(seen[..|seen| - 1], i, j) && c == ConflictOf(seen[..|seen| - 1], i, j);
    ConflictPrefix(seen, i, j);
  }

  lemma WarningLast(seen: seq<Seen>, n: nat)
    requires n + 1 == |seen|
    ensures if ConflictsAt(seen, n)
            then exists c :: WarnsOf(seen, c, n) && Warnings(seen) == Warnings(seen[..n]) + [c]
            else Warnings(seen) == Warnings(seen[..n])
  {
    var x, prior := seen[n], FirstPolicy(seen[..n], seen[n].address, seen[n].afi);
    if prior.Some? && prior.value != x.policy {
      var c := Conflict(x.address, x.afi, prior.value, x.policy);
      ConflictLast(seen, n, c);
      assert WarnedLast(seen, c);
      assert WarnsOf(seen, c, n);
    } else {
      forall i ensures !Conflicting(seen, i, n) {
        if Conflicting(seen, i, n) {
          ConflictLast(seen, n, ConflictOf(seen, i, n));
          assert false;
        }
      }
    }
  }

  lemma {:induction false} WarnedAtIff(seen: seq<Seen>, j: int)
    ensures j in WarnedAt(seen) <==> ConflictsAt(seen, j)
    decreases |seen|
  {
    if seen != [] {
      var n := |seen| - 1;
      WarnedAtIff(seen[..n], j);
      ConflictsInRange(seen, j);
      ConflictsInRange(seen[..n], j);
      if j < n {
        ConflictsPrefix(seen, j);
      }
      hide ConflictsAt;
    } else {
      ConflictsInRange(seen, j);
    }
  }

  lemma {:induction false} WarnedAtAscends(seen: seq<Seen>)
    ensures forall k, l :: 0 <= k < l < |WarnedAt(seen)| ==> WarnedAt(seen)[k] < WarnedAt(seen)[l]
    ensures forall k :: 0 <= k < |WarnedAt(seen)| ==> 0 <= WarnedAt(seen)[k] < |seen|
    decreases |seen|
  {
    hide ConflictsAt;
    if seen != [] {
      WarnedAtAscends(seen[..|seen| - 1]);
    }
  }

  lemma {:induction false} WarningsPaired(seen: seq<Seen>)
    ensures |Warnings(seen)| == |WarnedAt(seen)|
    ensures forall k :: 0 <= k < |WarnedAt(seen)| ==> WarnsOf(seen, Warnings(seen)[k], WarnedAt(seen)[k])
    decreases |seen|
  {
    if seen != [] {
      var n := |seen| - 1;
      var short := seen[..n];
      WarningsPaired(short);
      WarnedAtAscends(short);
      WarningLast(seen, n);
      hide Warnings, ConflictsAt, WarnsOf;
      forall k | 0 <= k < |WarnedAt(short)| ensures WarnsOf(seen, Warnings(short)[k], WarnedAt(short)[k]) {
        WarnsPrefix(seen, Warnings(short)[k], WarnedAt(short)[k]);
      }
    }
  }

  /** Each conflicting occurrence is warned about once, in the order of the report, and nothing else is. */
  lemma WarnedOnceEach(seen: seq<Seen>)
    ensures |Warnings(seen)| == |WarnedAt(seen)|
    ensures forall k :: 0 <= k < |WarnedAt(seen)| ==> WarnsOf(seen, Warnings(seen)[k], WarnedAt(seen)[k])
    ensures forall k, l :: 0 <= k < l < |WarnedAt(seen)| ==> WarnedAt(seen)[k] < WarnedAt(seen)[l]
    ensures forall j :: j in WarnedAt(seen) <==> ConflictsAt(seen, j)
  {
    hide Warnings, WarnedAt, ConflictsAt, WarnsOf;
    WarningsPaired(seen);
    WarnedAtAscends(seen);
    forall j ensures j in WarnedAt(seen) <==> ConflictsAt(seen, j) {
      WarnedAtIff(seen, j);
    }
  }

  lemma ConflictsInRange(seen: seq<Seen>, j: int)
    ensures ConflictsAt(seen, j) ==> 0 < j < |seen|
  {
  }
}
