/** The capability matrix: three sources with precedence, and the preflight that reads it. */
module Capability {
  import opened Options

  datatype Status = Native | Translated | Skipped | Unsupported | Unknown | OtherStatus(text: string)

  datatype Source = Probe | Read | Apply

  /** A NED and a software version share one set of rows. */
  datatype Platform = Platform(nedId: string, swVersion: string)

  datatype Key = Key(platform: Platform, scope: string, name: string)

  datatype Row = Row(status: Status, detail: string, source: Source)

  const READ_ROW_NAME := "read"

  predicate Definite(s: Status) {
    s.Native? || s.Unsupported? || s.Skipped?
  }

  predicate ReadStatus(s: Status) {
    Definite(s) || s.Unknown?
  }

  function Cut(detail: string): string {
    if |detail| > 256 then detail[..256] else detail
  }

  /** Whether a stored row stands against a new observation. */
  predicate Stands(row: Row, status: Status, source: Source) {
    || (row.source.Apply? && row.status.Unsupported? && source.Probe?)
    || (source.Read? && status.Unknown? && row.source.Read? && Definite(row.status))
  }

  function Upserted(rows: map<Key, Row>, k: Key, status: Status, detail: string, source: Source): map<Key, Row> {
    if k in rows && Stands(rows[k], status, source) then rows else rows[k := Row(status, detail, source)]
  }

  /** An element of a report that is not an object is skipped. */
  datatype Element = Malformed | Element(scope: string, name: string, status: Status, detail: string)

  function StatusNamed(text: string): Status {
    if text == "native" then Native
    else if text == "translated" then Translated
    else if text == "skipped" then Skipped
    else if text == "unsupported" then Unsupported
    else if text == "unknown" then Unknown
    else OtherStatus(text)
  }

  /** An element of a read report, whose scope and status are stripped. */
  datatype Observed = NoObject | Observed(scope: string, status: string, detail: string)

  function Cleaned(strip: string -> string, o: Observed): Element {
    match o
    case NoObject => Malformed
    case Observed(scope, status, detail) => Element(strip(scope), READ_ROW_NAME, StatusNamed(strip(status)), detail)
  }

  function AllCleaned(strip: string -> string, report: seq<Observed>): seq<Element> {
    seq(|report|, i requires 0 <= i < |report| => Cleaned(strip, report[i]))
  }

  function Probed(rows: map<Key, Row>, p: Platform, elements: seq<Element>, n: nat): map<Key, Row>
    requires n <= |elements|
  {
    if n == 0 then rows
    else
      var before, e := Probed(rows, p, elements, n - 1), elements[n - 1];
      if e.Malformed? then before
      else Upserted(before, Key(p, e.scope, e.name), e.status, Cut(e.detail), Probe)
  }

  predicate Reports(e: Element) {
    e.Element? && e.scope != "" && ReadStatus(e.status)
  }

  function ReadIn(rows: map<Key, Row>, p: Platform, elements: seq<Element>, n: nat): map<Key, Row>
    requires n <= |elements|
  {
    if n == 0 then rows
    else
      var before, e := ReadIn(rows, p, elements, n - 1), elements[n - 1];
      if !Reports(e) then before
      else Upserted(before, Key(p, e.scope, READ_ROW_NAME), e.status, Cut(e.detail), Read)
  }

  function Rejected(rows: map<Key, Row>, p: Platform, scope: string, name: string, detail: string): map<Key, Row> {
    if p.nedId == "" then rows else Upserted(rows, Key(p, scope, name), Unsupported, Cut(detail), Apply)
  }

  predicate Clearable(rows: map<Key, Row>, p: Platform, scopes: set<string>, k: Key)
    requires k in rows
  {
    && p.nedId != "" && k.platform == p && rows[k].source.Apply?
    && k.scope in scopes && (rows[k].status.Unsupported? || rows[k].status.Skipped?)
  }

  /** The rows that are left, with the pending keys not yet looked at. */
  function Cleared(rows: map<Key, Row>, p: Platform, scopes: set<string>, pending: set<Key>): map<Key, Row> {
    map k | k in rows && (k in pending || !Clearable(rows, p, scopes, k)) :: rows[k]
  }

  /** The matrix as the recording functions change it. */
  class Matrix {
    var rows: map<Key, Row>

    constructor ()
      ensures rows == map[]
    {
      rows := map[];
    }

    method Upsert(k: Key, status: Status, detail: string, source: Source)
      modifies this
      ensures rows == Upserted(old(rows), k, status, detail, source)
    {
      if k !in rows {
        rows := rows[k := Row(status, detail, source)];
        return;
      }
      var row := rows[k];
      if row.source.Apply? && row.status.Unsupported? && source.Probe? {
        return;
      }
      if source.Read? && status.Unknown? && row.source.Read? && Definite(row.status) {
        return;
      }
      rows := rows[k := Row(status, detail, source)];
    }

    method RecordProbe(p: Platform, elements: seq<Element>) returns (count: nat)
      modifies this
      ensures rows == Probed(old(rows), p, elements, |elements|)
      ensures count == |set i | 0 <= i < |elements| && elements[i].Element?|
    {
      count := 0;
      for i := 0 to |elements|
        invariant rows == Probed(old(rows), p, elements, i)
        invariant count == |Objects(elements, i)|
      {
        ObjectsStep(elements, i);
        hide Objects, Upserted, Cut;
        if elements[i].Element? {
          var e := elements[i];
          Upsert(Key(p, e.scope, e.name), e.status, Cut(e.detail), Probe);
          count := count + 1;
        }
      }
    }

    method RecordRead(p: Platform, strip: string -> string, report: seq<Observed>) returns (count: nat)
      modifies this
      ensures rows == ReadIn(old(rows), p, AllCleaned(strip, report), |report|)
      ensures count == |set i | 0 <= i < |report| && Reports(Cleaned(strip, report[i]))|
    {
      count := 0;
      for i := 0 to |report|
        invariant rows == ReadIn(old(rows), p, AllCleaned(strip, report), i)
        invariant count == |Recorded(strip, report, i)|
      {
        ReadStep(old(rows), p, strip, report, i);
        hide ReadIn, Recorded, Upserted, StatusNamed, Cut, AllCleaned;
        if report[i].Observed? {
          var scope, status := strip(report[i].scope), StatusNamed(strip(report[i].status));
          if scope != "" && ReadStatus(status) {
            Upsert(Key(p, scope, READ_ROW_NAME), status, Cut(report[i].detail), Read);
            count := count + 1;
          }
        }
      }
    }

    method RecordRejection(p: Platform, scope: string, name: string, detail: string)
      modifies this
      ensures rows == Rejected(old(rows), p, scope, name, detail)
    {
      if p.nedId == "" {
        return;
      }
      Upsert(Key(p, scope, name), Unsupported, Cut(detail), Apply);
    }

    /** Delete the rejections of the scopes that have just committed cleanly. */
    method ClearRejections(p: Platform, scopes: set<string>) returns (cleared: nat)
      modifies this
      ensures rows == Cleared(old(rows), p, scopes, {})
      ensures cleared == |old(rows).Keys - rows.Keys|
    {
      cleared := 0;
      var keys := rows.Keys;
      ClearedStart(rows, p, scopes);
      while keys != {}
        invariant keys <= old(rows).Keys
        invariant rows == Cleared(old(rows), p, scopes, keys)
        invariant cleared == |old(rows).Keys - rows.Keys|
        decreases keys
      {
        var k :| k in keys;
        keys := keys - {k};
        ClearedStep(old(rows), p, scopes, keys, k);
        hide Cleared, Clearable;
        if Clearable(rows, p, scopes, k) {
          rows := rows - {k};
          cleared := cleared + 1;
        }
      }
    }
  }

  ghost function Objects(elements: seq<Element>, n: nat): set<int>
    requires n <= |elements|
  {
    set i | 0 <= i < n && elements[i].Element?
  }

  lemma ObjectsStep(elements: seq<Element>, i: nat)
    requires i < |elements|
    ensures |Objects(elements, i + 1)| == |Objects(elements, i)| + (if elements[i].Element? then 1 else 0)
  {
    assert Objects(elements, i + 1) == Objects(elements, i) + (if elements[i].Element? then {i} else {});
  }

  /** The elements among the first n of a read report that are recorded. */
  ghost function Recorded(strip: string -> string, report: seq<Observed>, n: nat): set<int>
    requires n <= |report|
  {
    set i | 0 <= i < n && Reports(Cleaned(strip, report[i]))
  }

  lemma ReadStep(rows: map<Key, Row>, p: Platform, strip: string -> string, report: seq<Observed>, i: nat)
    requires i < |report|
    ensures var elements, e := AllCleaned(strip, report), Cleaned(strip, report[i]);
      && |elements| == |report|
      && ReadIn(rows, p, elements, i + 1) == (
           if Reports(e) then Upserted(ReadIn(rows, p, elements, i), Key(p, e.scope, READ_ROW_NAME), e.status, Cut(e.detail), Read)
           else ReadIn(rows, p, elements, i))
      && |Recorded(strip, report, i + 1)| == |Recorded(strip, report, i)| + (if Reports(e) then 1 else 0)
  {
    hide Upserted, StatusNamed, Cut, Reports;
    var elements := AllCleaned(strip, report);
    assert elements[i] == Cleaned(strip, report[i]);
    hide AllCleaned, Cleaned;
    assert Recorded(strip, report, i + 1) == Recorded(strip, report, i) + (if Reports(Cleaned(strip, report[i])) then {i} else {});
  }

  lemma ClearedStart(rows: map<Key, Row>, p: Platform, scopes: set<string>)
    ensures rows == Cleared(rows, p, scopes, rows.Keys) && rows.Keys - rows.Keys == {}
  {
  }

  lemma ClearedStep(rows: map<Key, Row>, p: Platform, scopes: set<string>, keys: set<Key>, k: Key)
    requires k in rows && k !in keys
    ensures var now, next := Cleared(rows, p, scopes, keys + {k}), Cleared(rows, p, scopes, keys);
      && k in now
      && (Clearable(now, p, scopes, k) ==> next == now - {k} && rows.Keys - next.Keys == (rows.Keys - now.Keys) + {k})
      && (!Clearable(now, p, scopes, k) ==> next == now)
  {
  }

  // ---- a rejection stays until its scope is cleared ----

  datatype Event =
    | ProbeReport(platform: Platform, elements: seq<Element>)
    | ReadReport(platform: Platform, elements: seq<Element>)
    | Rejection(platform: Platform, scope: string, name: string, detail: string)
    | CleanCommit(platform: Platform, scopes: set<string>)

  function Next(rows: map<Key, Row>, e: Event): map<Key, Row> {
    match e
    case ProbeReport(p, elements) => Probed(rows, p, elements, |elements|)
    case ReadReport(p, elements) => ReadIn(rows, p, elements, |elements|)
    case Rejection(p, scope, name, detail) => Rejected(rows, p, scope, name, detail)
    case CleanCommit(p, scopes) => Cleared(rows, p, scopes, {})
  }

  function Run(rows: map<Key, Row>, events: seq<Event>): map<Key, Row>
    decreases |events|
  {
    if events == [] then rows else Run(Next(rows, events[0]), events[1..])
  }

  predicate Refused(rows: map<Key, Row>, k: Key) {
    k in rows && rows[k].status.Unsupported? && rows[k].source.Apply?
  }

  lemma {:induction false} ProbesKeep(rows: map<Key, Row>, p: Platform, elements: seq<Element>, n: nat, k: Key)
    requires n <= |elements| && Refused(rows, k)
    ensures Refused(Probed(rows, p, elements, n), k)
  {
    if n > 0 {
      ProbesKeep(rows, p, elements, n - 1, k);
    }
  }

  /** The report has a verdict on the scope of k, and k is named as read rows are. */
  ghost predicate Overwritten(p: Platform, elements: seq<Element>, n: nat, k: Key)
    requires n <= |elements|
  {
    k.platform == p && k.name == READ_ROW_NAME && exists i :: 0 <= i < n && Reports(elements[i]) && elements[i].scope == k.scope
  }

  lemma {:induction false} ReadsKeep(rows: map<Key, Row>, p: Platform, elements: seq<Element>, n: nat, k: Key)
    requires n <= |elements| && Refused(rows, k)
    ensures var after := ReadIn(rows, p, elements, n);
      k in after && if Overwritten(p, elements, n, k) then after[k].source.Read? else Refused(after, k)
  {
    if n > 0 {
      ReadsKeep(rows, p, elements, n - 1, k);
    }
  }

  ghost predicate Lifts(e: Event, k: Key) {
    || (e.CleanCommit? && e.platform == k.platform && e.platform.nedId != "" && k.scope in e.scopes)
    || (e.ReadReport? && Overwritten(e.platform, e.elements, |e.elements|, k))
  }

  /** A rejection is lifted exactly by a clean commit of its scope, or by a read report if it is named like one. */
  lemma RejectionStaysIff(rows: map<Key, Row>, e: Event, k: Key)
    requires Refused(rows, k)
    ensures Refused(Next(rows, e), k) <==> !Lifts(e, k)
  {
    match e
    case ProbeReport(p, elements) => ProbesKeep(rows, p, elements, |elements|, k);
    case ReadReport(p, elements) => ReadsKeep(rows, p, elements, |elements|, k);
    case _ =>
  }

  lemma {:induction false} RunKeepsRejection(rows: map<Key, Row>, events: seq<Event>, k: Key)
    requires Refused(rows, k)
    requires forall i :: 0 <= i < |events| ==> !Lifts(events[i], k)
    ensures Refused(Run(rows, events), k)
    decreases |events|
  {
    if events != [] {
      RejectionStaysIff(rows, events[0], k);
      RunKeepsRejection(Next(rows, events[0]), events[1..], k);
    }
  }

  // ---- preflight ----

  datatype Listed = Listed(scope: string, name: string, status: Status, detail: string)

  datatype Verdict = Verdict(status: Status, detail: string)

  datatype Finding = Finding(scope: string, element: string, status: Status, detail: string)

  const COMMUNITY := "community"
  const RM_SET := "rm-set"
  const RM_MATCH := "rm-match"
  const AS_PATH := "as-path"

  function Rank(s: Status): nat {
    match s
    case Translated => 1
    case Skipped => 2
    case Unsupported => 3
    case _ => 0
  }

  predicate Flags(s: Status) {
    s.Skipped? || s.Unsupported?
  }

  /** What a text is to `isdigit` and `int`, which do not agree on every digit character. */
  datatype Numeral = NotDigits | Number(n: nat) | NoInteger

  /** How the source reads texts: the kinds of members and community rows, stripping, and numerals. */
  datatype Texts = Texts(ofMember: string -> string, ofRow: string -> string, strip: string -> string, numeral: string -> Numeral)

  /** `_index_rows`: the first worst verdict of each community kind. */
  function KindIndex(rows: seq<Listed>, texts: Texts): map<string, Verdict> {
    if rows == [] then map[]
    else
      var before, r := KindIndex(rows[..|rows| - 1], texts), rows[|rows| - 1];
      var k := texts.ofRow(r.name);
      if r.scope == COMMUNITY && (k !in before || Rank(r.status) > Rank(before[k].status))
      then before[k := Verdict(r.status, r.detail)] else before
  }

  /** `_index_rows`: the verdict of each construct. */
  function ConstructIndex(rows: seq<Listed>): map<(string, string), Verdict> {
    if rows == [] then map[]
    else
      var before, r := ConstructIndex(rows[..|rows| - 1]), rows[|rows| - 1];
      if r.scope == COMMUNITY then before else before[(r.scope, r.name) := Verdict(r.status, r.detail)]
  }

  method IndexRows(rows: seq<Listed>, texts: Texts)
    returns (kind: map<string, Verdict>, construct: map<(string, string), Verdict>)
    ensures kind == KindIndex(rows, texts) && construct == ConstructIndex(rows)
  {
    kind, construct := map[], map[];
    for i := 0 to |rows|
      invariant kind == KindIndex(rows[..i], texts) && construct == ConstructIndex(rows[..i])
    {
      var r := rows[i];
      assert rows[..i + 1][..i] == rows[..i];
      if r.scope == COMMUNITY {
        var k := texts.ofRow(r.name);
        if k !in kind || Rank(r.status) > Rank(kind[k].status) {
          kind := kind[k := Verdict(r.status, r.detail)];
        }
      } else {
        construct := construct[(r.scope, r.name) := Verdict(r.status, r.detail)];
      }
    }
    assert rows[..|rows|] == rows;
  }

  /** The worst verdict among the candidate constructs of one key; the last of equals. */
  function BestOf(names: seq<string>, scope: string, construct: map<(string, string), Verdict>): Option<Finding> {
    if names == [] then None
    else
      var best, name := BestOf(names[..|names| - 1], scope, construct), names[|names| - 1];
      if (scope, name) in construct
         && Rank(construct[(scope, name)].status) >= (if best.Some? then Rank(best.value.status) else 0)
      then Some(Finding(scope, name, construct[(scope, name)].status, construct[(scope, name)].detail))
      else best
  }

  function Candidates(mapping: map<string, seq<string>>, key: string): seq<string> {
    if key in mapping then mapping[key] else []
  }

  function Flagged(best: Option<Finding>): seq<Finding> {
    if best.Some? && Flags(best.value.status) then [best.value] else []
  }

  function ConstructFindings(keys: seq<string>, mapping: map<string, seq<string>>, scope: string,
                             construct: map<(string, string), Verdict>): seq<Finding>
  {
    if keys == [] then []
    else
      ConstructFindings(keys[..|keys| - 1], mapping, scope, construct)
      + Flagged(BestOf(Candidates(mapping, keys[|keys| - 1]), scope, construct))
  }

  method WorstCandidate(names: seq<string>, scope: string, construct: map<(string, string), Verdict>)
    returns (best: Option<Finding>)
    ensures best == BestOf(names, scope, construct)
  {
    best := None;
    for j := 0 to |names|
      invariant best == BestOf(names[..j], scope, construct)
    {
      assert names[..j + 1][..j] == names[..j];
      if (scope, names[j]) in construct {
        var got := construct[(scope, names[j])];
        if Rank(got.status) >= (if best.Some? then Rank(best.value.status) else 0) {
          best := Some(Finding(scope, names[j], got.status, got.detail));
        }
      }
    }
    assert names[..|names|] == names;
  }

  /** `_check_constructs`. */
  method CheckConstructs(keys: seq<string>, mapping: map<string, seq<string>>, scope: string,
                         construct: map<(string, string), Verdict>)
    returns (out: seq<Finding>)
    ensures out == ConstructFindings(keys, mapping, scope, construct)
  {
    hide BestOf;
    out := [];
    for i := 0 to |keys|
      invariant out == ConstructFindings(keys[..i], mapping, scope, construct)
    {
      assert keys[..i + 1][..i] == keys[..i];
      var best := WorstCandidate(Candidates(mapping, keys[i]), scope, construct);
      if best.Some? && Flags(best.value.status) {
        out := out + [best.value];
      }
    }
    assert keys[..|keys|] == keys;
  }

  function MemberFindings(members: seq<string>, texts: Texts, kind: map<string, Verdict>): seq<Finding> {
    if members == [] then []
    else
      var m := members[|members| - 1];
      var k := texts.ofMember(m);
      MemberFindings(members[..|members| - 1], texts, kind)
      + (if k in kind && Flags(kind[k].status) then [Finding(COMMUNITY, m, kind[k].status, kind[k].detail)] else [])
  }

  const SET_KEY_CONSTRUCTS: map<string, seq<string>> := map[
    "community" := ["set community"],
    "community_additive" := ["set community"],
    "extcommunity_rt" := ["set extcommunity"],
    "extcommunity_soo" := ["set extcommunity"],
    "extcommunity_color" := ["set extcommunity color", "set extcommunity"],
    "comm_list_delete" := ["set comm-list delete"],
    "extcomm_list_delete" := ["set extcomm-list delete"],
    "metric_type" := ["set metric-type"],
    "tag" := ["set tag"],
    "level" := ["set level"],
    "large_community" := ["set large-community"]]

  const MATCH_KEY_CONSTRUCTS: map<string, seq<string>> := map[
    "route_type" := ["match route-type"],
    "local_preference" := ["match local-preference"],
    "length" := ["match length"],
    "large_community" := ["match large-community"]]

  datatype Request = Request(members: seq<string>, setKeys: seq<string>, matchKeys: seq<string>, asPaths: seq<string>)

  const NAMED_LIST := (AS_PATH, "named-list")

  /** The platform numbers its as-path lists. */
  predicate Numbers(construct: map<(string, string), Verdict>) {
    NAMED_LIST in construct && construct[NAMED_LIST].status.Unsupported?
  }

  predicate Homeless(n: Numeral) {
    !(n.Number? && 1 <= n.n <= 500)
  }

  function NameFindings(names: seq<string>, texts: Texts, detail: string): seq<Finding> {
    if names == [] then []
    else
      var name := texts.strip(names[|names| - 1]);
      NameFindings(names[..|names| - 1], texts, detail)
      + (if Homeless(texts.numeral(name)) then [Finding(AS_PATH, name, Unsupported, detail)] else [])
  }

  function AsPathFindings(names: seq<string>, texts: Texts, construct: map<(string, string), Verdict>): seq<Finding> {
    if Numbers(construct) then NameFindings(names, texts, construct[NAMED_LIST].detail) else []
  }

  function PreflightFindings(rows: seq<Listed>, texts: Texts, r: Request): seq<Finding> {
    MemberFindings(r.members, texts, KindIndex(rows, texts))
    + ConstructFindings(r.setKeys, SET_KEY_CONSTRUCTS, RM_SET, ConstructIndex(rows))
    + ConstructFindings(r.matchKeys, MATCH_KEY_CONSTRUCTS, RM_MATCH, ConstructIndex(rows))
    + AsPathFindings(r.asPaths, texts, ConstructIndex(rows))
  }

  /** A name that passes `isdigit` and has no integer value raises. */
  predicate Raises(rows: seq<Listed>, texts: Texts, r: Request) {
    Numbers(ConstructIndex(rows)) && exists i :: 0 <= i < |r.asPaths| && texts.numeral(texts.strip(r.asPaths[i])).NoInteger?
  }

  /** `_check_aspath_names`: None when it raises. */
  method CheckAsPathNames(names: seq<string>, texts: Texts, construct: map<(string, string), Verdict>)
    returns (out: Option<seq<Finding>>)
    ensures out.None? <==>
      Numbers(construct) && exists i :: 0 <= i < |names| && texts.numeral(texts.strip(names[i])).NoInteger?
    ensures out.Some? ==> out.value == AsPathFindings(names, texts, construct)
  {
    if !Numbers(construct) {
      return Some([]);
    }
    var findings, detail := [], construct[NAMED_LIST].detail;
    for i := 0 to |names|
      invariant forall k :: 0 <= k < i ==> !texts.numeral(texts.strip(names[k])).NoInteger?
      invariant findings == NameFindings(names[..i], texts, detail)
    {
      assert names[..i + 1][..i] == names[..i];
      var name := texts.strip(names[i]);
      if texts.numeral(name).NoInteger? {
        return None;
      }
      if Homeless(texts.numeral(name)) {
        findings := findings + [Finding(AS_PATH, name, Unsupported, detail)];
      }
    }
    assert names[..|names|] == names;
    out := Some(findings);
  }

  /** Where as-path lists are numbered, one such name is enough. */
  lemma DigitsWithoutIntegerRaise(texts: Texts, name: string, detail: string)
    requires texts.numeral(texts.strip(name)).NoInteger?
    ensures Raises([Listed(AS_PATH, NAMED_LIST.1, Unsupported, detail)], texts, Request([], [], [], [name]))
  {
    var row := Listed(AS_PATH, NAMED_LIST.1, Unsupported, detail);
    assert [row][..0] == [] && AS_PATH != COMMUNITY;
    assert ConstructIndex([row]) == map[NAMED_LIST := Verdict(Unsupported, detail)];
    assert [name][0] == name;
  }

  datatype Answer = Answer(fullySupported: bool, unsupported: seq<Finding>, coverageUnknown: bool)

  predicate CoverageMark(row: Listed) {
    row.scope == "coverage" && row.status.Unknown?
  }

  /** `preflight`: None when it raises. */
  method Preflight(rows: seq<Listed>, texts: Texts, r: Request) returns (answer: Option<Answer>)
    ensures answer.None? <==> Raises(rows, texts, r)
    ensures answer.Some? ==>
      && answer.value.unsupported == PreflightFindings(rows, texts, r)
      && (answer.value.fullySupported <==> answer.value.unsupported == [])
      && (answer.value.coverageUnknown <==> exists i :: 0 <= i < |rows| && CoverageMark(rows[i]))
  {
    var kind, construct := IndexRows(rows, texts);
    var findings := [];
    for i := 0 to |r.members|
      invariant findings == MemberFindings(r.members[..i], texts, kind)
    {
      assert r.members[..i + 1][..i] == r.members[..i];
      var k := texts.ofMember(r.members[i]);
      if k in kind && Flags(kind[k].status) {
        findings := findings + [Finding(COMMUNITY, r.members[i], kind[k].status, kind[k].detail)];
      }
    }
    assert r.members[..|r.members|] == r.members;
    var sets := CheckConstructs(r.setKeys, SET_KEY_CONSTRUCTS, RM_SET, construct);
    var matches := CheckConstructs(r.matchKeys, MATCH_KEY_CONSTRUCTS, RM_MATCH, construct);
    var names := CheckAsPathNames(r.asPaths, texts, construct);
    if names.None? {
      return None;
    }
    findings := findings + sets + matches + names.value;
    answer := Some(Answer(findings == [], findings, exists i :: 0 <= i < |rows| && CoverageMark(rows[i])));
  }

  // ---- what preflight reports ----

  /** A kind carries a verdict at least as bad as each of its rows, and the verdict of one of them. */
  lemma {:induction false} KindIsWorst(rows: seq<Listed>, texts: Texts, k: string)
    ensures k in KindIndex(rows, texts) <==> exists i :: OfKind(rows, texts, i, k)
    ensures forall i :: OfKind(rows, texts, i, k) ==> Rank(rows[i].status) <= Rank(KindIndex(rows, texts)[k].status)
    ensures k in KindIndex(rows, texts) ==>
      exists i :: OfKind(rows, texts, i, k) && KindIndex(rows, texts)[k] == Verdict(rows[i].status, rows[i].detail)
    decreases |rows|
  {
    if rows != [] {
      var n := |rows| - 1;
      KindIsWorst(rows[..n], texts, k);
      forall i | 0 <= i < n ensures OfKind(rows, texts, i, k) <==> OfKind(rows[..n], texts, i, k) {
      }
      if i :| OfKind(rows[..n], texts, i, k) && KindIndex(rows[..n], texts)[k] == Verdict(rows[i].status, rows[i].detail) {
        assert OfKind(rows, texts, i, k);
      }
      assert OfKind(rows, texts, n, k) <==> rows[n].scope == COMMUNITY && texts.ofRow(rows[n].name) == k;
    }
  }

  ghost predicate OfKind(rows: seq<Listed>, texts: Texts, i: int, k: string) {
    0 <= i < |rows| && rows[i].scope == COMMUNITY && texts.ofRow(rows[i].name) == k
  }

  lemma {:induction false} BestIsWorst(names: seq<string>, scope: string, construct: map<(string, string), Verdict>)
    ensures forall name :: name in names && (scope, name) in construct ==>
      BestOf(names, scope, construct).Some?
      && Rank(construct[(scope, name)].status) <= Rank(BestOf(names, scope, construct).value.status)
    ensures BestOf(names, scope, construct).Some? ==>
      var f := BestOf(names, scope, construct).value;
      f.element in names && (scope, f.element) in construct && construct[(scope, f.element)] == Verdict(f.status, f.detail)
    decreases |names|
  {
    if names != [] {
      BestIsWorst(names[..|names| - 1], scope, construct);
      assert names == names[..|names| - 1] + [names[|names| - 1]];
    }
  }

  /** A key is reported exactly when one of its candidate constructs is flagged, and as unsupported when one is. */
  lemma KeyReportedIff(names: seq<string>, scope: string, construct: map<(string, string), Verdict>)
    ensures Flagged(BestOf(names, scope, construct)) != [] <==>
      exists name :: name in names && (scope, name) in construct && Flags(construct[(scope, name)].status)
    ensures (exists name :: name in names && (scope, name) in construct && construct[(scope, name)].status.Unsupported?) <==>
      BestOf(names, scope, construct).Some? && BestOf(names, scope, construct).value.status.Unsupported?
  {
    BestIsWorst(names, scope, construct);
    hide BestOf;
  }

  /** The query result for a platform: each of its rows once, in any order. */
  ghost predicate Lists(rows: map<Key, Row>, p: Platform, listed: seq<Listed>) {
    && (forall i, j :: 0 <= i < j < |listed| ==> (listed[i].scope, listed[i].name) != (listed[j].scope, listed[j].name))
    && (forall i :: 0 <= i < |listed| ==> IsRow(rows, p, listed[i]))
    && (forall k :: k in rows && k.platform == p ==>
          exists i :: 0 <= i < |listed| && listed[i].scope == k.scope && listed[i].name == k.name)
  }

  ghost predicate IsRow(rows: map<Key, Row>, p: Platform, r: Listed) {
    && Key(p, r.scope, r.name) in rows
    && rows[Key(p, r.scope, r.name)].status == r.status && rows[Key(p, r.scope, r.name)].detail == r.detail
  }

  lemma {:induction false} ConstructListed(rows: map<Key, Row>, p: Platform, listed: seq<Listed>, i: nat)
    requires i < |listed| && listed[i].scope != COMMUNITY
    requires forall j :: 0 <= j < |listed| ==> IsRow(rows, p, listed[j])
    ensures (listed[i].scope, listed[i].name) in ConstructIndex(listed)
    ensures ConstructIndex(listed)[(listed[i].scope, listed[i].name)] == Verdict(listed[i].status, listed[i].detail)
    decreases |listed|
  {
    var n := |listed| - 1;
    if i < n {
      assert IsRow(rows, p, listed[i]) && IsRow(rows, p, listed[n]);
      ConstructListed(rows, p, listed[..n], i);
    }
  }

  lemma {:induction false} FindingsInclude(keys: seq<string>, mapping: map<string, seq<string>>, scope: string,
                                           construct: map<(string, string), Verdict>, f: Finding)
    ensures f in ConstructFindings(keys, mapping, scope, construct) <==>
      exists key :: key in keys && f in Flagged(BestOf(Candidates(mapping, key), scope, construct))
    decreases |keys|
  {
    if keys != [] {
      FindingsInclude(keys[..|keys| - 1], mapping, scope, construct, f);
      assert keys == keys[..|keys| - 1] + [keys[|keys| - 1]];
      hide BestOf, Flagged;
    }
  }

  lemma {:induction false} MembersInclude(members: seq<string>, texts: Texts, kind: map<string, Verdict>, m: string)
    requires m in members && texts.ofMember(m) in kind && Flags(kind[texts.ofMember(m)].status)
    ensures Finding(COMMUNITY, m, kind[texts.ofMember(m)].status, kind[texts.ofMember(m)].detail)
            in MemberFindings(members, texts, kind)
    decreases |members|
  {
    var n := |members| - 1;
    if m in members[..n] {
      MembersInclude(members[..n], texts, kind, m);
    } else {
      assert members == members[..n] + [members[n]];
    }
  }

  function TableOf(scope: string): map<string, seq<string>> {
    if scope == RM_SET then SET_KEY_CONSTRUCTS else if scope == RM_MATCH then MATCH_KEY_CONSTRUCTS else map[]
  }

  function KeysOf(r: Request, scope: string): seq<string> {
    if scope == RM_SET then r.setKeys else if scope == RM_MATCH then r.matchKeys else []
  }

  /** The request has a key that maps to the construct. */
  ghost predicate Asks(r: Request, scope: string, key: string, name: string) {
    key in KeysOf(r, scope) && name in Candidates(TableOf(scope), key)
  }

  /** The key is reported, through one of its candidate constructs. */
  ghost predicate Reported(findings: seq<Finding>, scope: string, key: string) {
    exists f :: f in findings && f.scope == scope && f.status.Unsupported? && f.element in Candidates(TableOf(scope), key)
  }

  lemma FindingsOfScope(listed: seq<Listed>, texts: Texts, r: Request, scope: string, f: Finding)
    requires f in ConstructFindings(KeysOf(r, scope), TableOf(scope), scope, ConstructIndex(listed))
    ensures f in PreflightFindings(listed, texts, r)
  {
    hide BestOf, Flagged, ConstructIndex, MemberFindings;
  }

  lemma {:induction false} BestScope(names: seq<string>, scope: string, construct: map<(string, string), Verdict>)
    ensures BestOf(names, scope, construct).Some? ==> BestOf(names, scope, construct).value.scope == scope
    decreases |names|
  {
    if names != [] {
      BestScope(names[..|names| - 1], scope, construct);
    }
  }

  lemma UnsupportedKeyFound(keys: seq<string>, mapping: map<string, seq<string>>, scope: string,
                            construct: map<(string, string), Verdict>, key: string, name: string)
    returns (f: Finding)
    requires key in keys && name in Candidates(mapping, key)
    requires (scope, name) in construct && construct[(scope, name)].status.Unsupported?
    ensures f in ConstructFindings(keys, mapping, scope, construct)
    ensures f.scope == scope && f.status.Unsupported? && f.element in Candidates(mapping, key)
  {
    var names := Candidates(mapping, key);
    KeyReportedIff(names, scope, construct);
    BestIsWorst(names, scope, construct);
    BestScope(names, scope, construct);
    f := BestOf(names, scope, construct).value;
    hide BestOf;
    FindingsInclude(keys, mapping, scope, construct, f);
  }

  lemma RefusedListed(rows: map<Key, Row>, p: Platform, listed: seq<Listed>, scope: string, name: string)
    requires Refused(rows, Key(p, scope, name)) && Lists(rows, p, listed) && scope != COMMUNITY
    ensures (scope, name) in ConstructIndex(listed) && ConstructIndex(listed)[(scope, name)].status.Unsupported?
  {
    var i :| 0 <= i < |listed| && listed[i].scope == Key(p, scope, name).scope && listed[i].name == Key(p, scope, name).name;
    assert IsRow(rows, p, listed[i]);
    ConstructListed(rows, p, listed, i);
  }

  /** A rejected construct is reported as unsupported to every request with a key that maps to it. */
  lemma RejectedConstructReported(rows: map<Key, Row>, p: Platform, listed: seq<Listed>, texts: Texts, r: Request,
                                  scope: string, key: string, name: string)
    requires Refused(rows, Key(p, scope, name)) && Lists(rows, p, listed) && Asks(r, scope, key, name)
    ensures Reported(PreflightFindings(listed, texts, r), scope, key)
  {
    assert scope != COMMUNITY;
    hide TableOf, KeysOf, Lists, PreflightFindings, Refused;
    RefusedListed(rows, p, listed, scope, name);
    var f := UnsupportedKeyFound(KeysOf(r, scope), TableOf(scope), scope, ConstructIndex(listed), key, name);
    FindingsOfScope(listed, texts, r, scope, f);
  }

  /** A rejected community list is reported to every request with a member of its kind. */
  lemma RejectedCommunityReported(rows: map<Key, Row>, p: Platform, listed: seq<Listed>, texts: Texts, r: Request,
                                  m: string, name: string)
    requires Refused(rows, Key(p, COMMUNITY, name)) && Lists(rows, p, listed)
    requires m in r.members && texts.ofMember(m) == texts.ofRow(name)
    ensures exists f :: f in PreflightFindings(listed, texts, r) && f.scope == COMMUNITY && f.element == m && f.status.Unsupported?
  {
    var k, kind := texts.ofRow(name), KindIndex(listed, texts);
    assert Key(p, COMMUNITY, name) in rows;
    var i :| 0 <= i < |listed| && listed[i].scope == COMMUNITY && listed[i].name == name;
    assert IsRow(rows, p, listed[i]) && OfKind(listed, texts, i, k);
    KindIsWorst(listed, texts, k);
    MembersInclude(r.members, texts, kind, m);
    assert Finding(COMMUNITY, m, kind[k].status, kind[k].detail) in PreflightFindings(listed, texts, r);
  }

  /**
   The promise over runs: a construct rejected at a commit is reported unsupported to every later request that
   maps to it, whatever probes, reads and rejections come in between, until a clean commit of its scope.
   */
  lemma RejectionReportedUntilCleared(start: map<Key, Row>, before: seq<Event>, p: Platform, scope: string, name: string,
      detail: string, after: seq<Event>, listed: seq<Listed>, texts: Texts, r: Request, key: string)
    requires p.nedId != "" && Asks(r, scope, key, name)
    requires forall i :: 0 <= i < |after| ==> !Lifts(after[i], Key(p, scope, name))
    requires Lists(Run(Next(Run(start, before), Rejection(p, scope, name, detail)), after), p, listed)
    ensures Reported(PreflightFindings(listed, texts, r), scope, key)
  {
    hide Asks, Lists, PreflightFindings, Reported, Run, Lifts;
    var rejected := Next(Run(start, before), Rejection(p, scope, name, detail));
    RunKeepsRejection(rejected, after, Key(p, scope, name));
    RejectedConstructReported(Run(rejected, after), p, listed, texts, r, scope, key, name);
  }

  lemma CommunityReportedUntilCleared(start: map<Key, Row>, before: seq<Event>, p: Platform, name: string, detail: string,
      after: seq<Event>, listed: seq<Listed>, texts: Texts, r: Request, m: string)
    requires p.nedId != "" && m in r.members && texts.ofMember(m) == texts.ofRow(name)
    requires forall i :: 0 <= i < |after| ==> !Lifts(after[i], Key(p, COMMUNITY, name))
    requires Lists(Run(Next(Run(start, before), Rejection(p, COMMUNITY, name, detail)), after), p, listed)
    ensures exists f :: f in PreflightFindings(listed, texts, r) && f.scope == COMMUNITY && f.element == m && f.status.Unsupported?
  {
    hide Lists, PreflightFindings, Run, Lifts;
    var rejected := Next(Run(start, before), Rejection(p, COMMUNITY, name, detail));
    RunKeepsRejection(rejected, after, Key(p, COMMUNITY, name));
    RejectedCommunityReported(Run(rejected, after), p, listed, texts, r, m, name);
  }

  // ---- when preflight reports nothing ----

  lemma {:induction false} NamesClearIff(names: seq<string>, texts: Texts, detail: string)
    ensures NameFindings(names, texts, detail) == [] <==>
      forall name :: name in names ==> !Homeless(texts.numeral(texts.strip(name)))
    decreases |names|
  {
    if names != [] {
      NamesClearIff(names[..|names| - 1], texts, detail);
      assert names == names[..|names| - 1] + [names[|names| - 1]];
      hide Homeless;
    }
  }

  lemma {:induction false} MembersClearIff(members: seq<string>, texts: Texts, kind: map<string, Verdict>)
    ensures MemberFindings(members, texts, kind) == [] <==>
      forall m :: m in members && texts.ofMember(m) in kind ==> !Flags(kind[texts.ofMember(m)].status)
    decreases |members|
  {
    if members != [] {
      MembersClearIff(members[..|members| - 1], texts, kind);
      assert members == members[..|members| - 1] + [members[|members| - 1]];
      hide Flags;
    }
  }

  /** A candidate construct of the key is flagged. */
  ghost predicate KeyFlagged(mapping: map<string, seq<string>>, scope: string, construct: map<(string, string), Verdict>, key: string) {
    exists name :: name in Candidates(mapping, key) && (scope, name) in construct && Flags(construct[(scope, name)].status)
  }

  lemma KeyClearIff(mapping: map<string, seq<string>>, scope: string, construct: map<(string, string), Verdict>, key: string)
    ensures Flagged(BestOf(Candidates(mapping, key), scope, construct)) == [] <==> !KeyFlagged(mapping, scope, construct, key)
  {
    KeyReportedIff(Candidates(mapping, key), scope, construct);
    hide BestOf, Flagged, Candidates, Flags;
  }

  ghost predicate NoneFlagged(keys: seq<string>, mapping: map<string, seq<string>>, scope: string,
                              construct: map<(string, string), Verdict>)
  {
    forall key :: key in keys ==> !KeyFlagged(mapping, scope, construct, key)
  }

  lemma NoneFlaggedLast(keys: seq<string>, mapping: map<string, seq<string>>, scope: string,
                        construct: map<(string, string), Verdict>)
    requires keys != []
    ensures NoneFlagged(keys, mapping, scope, construct) <==>
      && NoneFlagged(keys[..|keys| - 1], mapping, scope, construct)
      && !KeyFlagged(mapping, scope, construct, keys[|keys| - 1])
  {
    hide KeyFlagged;
    forall key ensures key in keys <==> key in keys[..|keys| - 1] || key == keys[|keys| - 1] {
      assert keys == keys[..|keys| - 1] + [keys[|keys| - 1]];
    }
  }

  lemma {:induction false} KeysClearIff(keys: seq<string>, mapping: map<string, seq<string>>, scope: string,
                                        construct: map<(string, string), Verdict>)
    ensures ConstructFindings(keys, mapping, scope, construct) == [] <==> NoneFlagged(keys, mapping, scope, construct)
    decreases |keys|
  {
    if keys != [] {
      hide BestOf, Flagged, KeyFlagged, NoneFlagged, Candidates;
      KeysClearIff(keys[..|keys| - 1], mapping, scope, construct);
      KeyClearIff(mapping, scope, construct, keys[|keys| - 1]);
      NoneFlaggedLast(keys, mapping, scope, construct);
    }
  }

  /** A community row of the member's kind is flagged. */
  ghost predicate MemberFlagged(rows: seq<Listed>, texts: Texts, m: string) {
    exists i :: OfKind(rows, texts, i, texts.ofMember(m)) && Flags(rows[i].status)
  }

  lemma KindFlaggedIff(rows: seq<Listed>, texts: Texts, k: string)
    ensures (k in KindIndex(rows, texts) && Flags(KindIndex(rows, texts)[k].status)) <==>
      exists i :: OfKind(rows, texts, i, k) && Flags(rows[i].status)
  {
    KindIsWorst(rows, texts, k);
    hide KindIndex, OfKind;
  }

  /**
   The whole request is fully supported exactly when no community row of a member's kind is flagged, no candidate
   construct of a key is, and, where as-path lists are numbered, every as-path name is a number from 1 to 500.
   */
  lemma FullySupportedIff(rows: seq<Listed>, texts: Texts, r: Request)
    ensures PreflightFindings(rows, texts, r) == [] <==>
      && (forall m :: m in r.members ==> !MemberFlagged(rows, texts, m))
      && NoneFlagged(r.setKeys, SET_KEY_CONSTRUCTS, RM_SET, ConstructIndex(rows))
      && NoneFlagged(r.matchKeys, MATCH_KEY_CONSTRUCTS, RM_MATCH, ConstructIndex(rows))
      && (Numbers(ConstructIndex(rows)) ==> forall name :: name in r.asPaths ==> !Homeless(texts.numeral(texts.strip(name))))
  {
    var kind, construct := KindIndex(rows, texts), ConstructIndex(rows);
    MembersClearIff(r.members, texts, kind);
    forall m ensures (texts.ofMember(m) in kind && Flags(kind[texts.ofMember(m)].status)) <==> MemberFlagged(rows, texts, m) {
      KindFlaggedIff(rows, texts, texts.ofMember(m));
    }
    KeysClearIff(r.setKeys, SET_KEY_CONSTRUCTS, RM_SET, construct);
    KeysClearIff(r.matchKeys, MATCH_KEY_CONSTRUCTS, RM_MATCH, construct);
    if Numbers(construct) {
      NamesClearIff(r.asPaths, texts, construct[NAMED_LIST].detail);
    }
    hide KindIndex, ConstructIndex, MemberFlagged, NoneFlagged, ConstructFindings, MemberFindings, NameFindings, Homeless, Flags;
  }

  // ---- rejections nobody asks for ----

  /** Some key of the scope's table asks for the construct. */
  ghost predicate Candidate(scope: string, name: string) {
    exists key :: name in Candidates(TableOf(scope), key)
  }

  /** The two indexes are the same but for one construct. */
  ghost predicate AgreeBut(a: map<(string, string), Verdict>, b: map<(string, string), Verdict>, k: (string, string)) {
    forall c :: c != k ==> (c in a <==> c in b) && (c in a ==> a[c] == b[c])
  }

  lemma {:induction false} BestAgrees(names: seq<string>, scope: string, k: (string, string),
                                      a: map<(string, string), Verdict>, b: map<(string, string), Verdict>)
    requires AgreeBut(a, b, k) && (k.0 == scope ==> k.1 !in names)
    ensures BestOf(names, scope, a) == BestOf(names, scope, b)
    decreases |names|
  {
    if names != [] {
      assert names[|names| - 1] in names;
      BestAgrees(names[..|names| - 1], scope, k, a, b);
    }
  }

  lemma {:induction false} FindingsAgree(keys: seq<string>, scope: string, k: (string, string),
                                         a: map<(string, string), Verdict>, b: map<(string, string), Verdict>)
    requires AgreeBut(a, b, k) && !Candidate(k.0, k.1)
    ensures ConstructFindings(keys, TableOf(scope), scope, a) == ConstructFindings(keys, TableOf(scope), scope, b)
    decreases |keys|
  {
    if keys != [] {
      FindingsAgree(keys[..|keys| - 1], scope, k, a, b);
      BestAgrees(Candidates(TableOf(scope), keys[|keys| - 1]), scope, k, a, b);
      hide BestOf, TableOf;
    }
  }

  /** The rows at one key only. */
  predicate AllAt(rows: seq<Listed>, scope: string, name: string) {
    forall i :: 0 <= i < |rows| ==> rows[i].scope == scope && rows[i].name == name
  }

  lemma {:induction false} IndexSkips(before: seq<Listed>, rows: seq<Listed>, texts: Texts, scope: string, name: string)
    requires AllAt(rows, scope, name) && scope != COMMUNITY
    ensures KindIndex(before + rows, texts) == KindIndex(before, texts)
    ensures AgreeBut(ConstructIndex(before + rows), ConstructIndex(before), (scope, name))
    decreases |rows|
  {
    if rows == [] {
      assert before + rows == before;
    } else {
      IndexSkips(before, rows[..|rows| - 1], texts, scope, name);
      assert (before + rows)[..|before + rows| - 1] == before + rows[..|rows| - 1];
    }
  }

  lemma {:induction false} IndexFollows(a: seq<Listed>, b: seq<Listed>, after: seq<Listed>, texts: Texts, k: (string, string))
    requires KindIndex(a, texts) == KindIndex(b, texts) && AgreeBut(ConstructIndex(a), ConstructIndex(b), k)
    ensures KindIndex(a + after, texts) == KindIndex(b + after, texts)
    ensures AgreeBut(ConstructIndex(a + after), ConstructIndex(b + after), k)
    decreases |after|
  {
    if after == [] {
      assert a + after == a && b + after == b;
    } else {
      IndexFollows(a, b, after[..|after| - 1], texts, k);
      assert (a + after)[..|a + after| - 1] == a + after[..|after| - 1];
      assert (b + after)[..|b + after| - 1] == b + after[..|after| - 1];
    }
  }

  lemma SameFindings(a: seq<Listed>, b: seq<Listed>, texts: Texts, r: Request, k: (string, string))
    requires KindIndex(a, texts) == KindIndex(b, texts) && AgreeBut(ConstructIndex(a), ConstructIndex(b), k)
    requires !Candidate(k.0, k.1) && k != NAMED_LIST
    ensures PreflightFindings(a, texts, r) == PreflightFindings(b, texts, r)
  {
    FindingsAgree(r.setKeys, RM_SET, k, ConstructIndex(a), ConstructIndex(b));
    FindingsAgree(r.matchKeys, RM_MATCH, k, ConstructIndex(a), ConstructIndex(b));
    hide ConstructFindings, MemberFindings, NameFindings, ConstructIndex, KindIndex, Candidate;
  }

  /** Whatever a construct nobody asks for is listed as, or whether it is, every request gets the same findings. */
  lemma UnaskedUnreported(before: seq<Listed>, rows: seq<Listed>, rows': seq<Listed>, after: seq<Listed>, texts: Texts,
                          r: Request, scope: string, name: string)
    requires AllAt(rows, scope, name) && AllAt(rows', scope, name)
    requires scope != COMMUNITY && (scope, name) != NAMED_LIST && !Candidate(scope, name)
    ensures PreflightFindings(before + rows + after, texts, r) == PreflightFindings(before + rows' + after, texts, r)
  {
    var k := (scope, name);
    IndexSkips(before, rows, texts, scope, name);
    IndexSkips(before, rows', texts, scope, name);
    hide ConstructIndex, KindIndex, Candidate, PreflightFindings;
    IndexFollows(before + rows, before + rows', after, texts, k);
    SameFindings(before + rows + after, before + rows' + after, texts, r, k);
  }

  lemma AskedHeard(texts: Texts, scope: string, name: string, detail: string, key: string) returns (r: Request)
    requires (scope == RM_SET || scope == RM_MATCH) && name in Candidates(TableOf(scope), key)
    ensures PreflightFindings([Listed(scope, name, Unsupported, detail)], texts, r) != []
  {
    var row := Listed(scope, name, Unsupported, detail);
    r := Request([], if scope == RM_SET then [key] else [], if scope == RM_SET then [] else [key], []);
    assert key in KeysOf(r, scope);
    assert [row][..0] == [];
    assert ConstructIndex([row]) == map[(scope, name) := Verdict(Unsupported, detail)];
    hide TableOf, KeysOf, ConstructIndex, PreflightFindings;
    var f := UnsupportedKeyFound(KeysOf(r, scope), TableOf(scope), scope, ConstructIndex([row]), key, name);
    FindingsOfScope([row], texts, r, scope, f);
  }

  lemma NothingListedNothingFound(texts: Texts, r: Request)
    ensures PreflightFindings([], texts, r) == []
  {
    hide PreflightFindings;
    FullySupportedIff([], texts, r);
  }

  /** A rejected route-map construct is heard by some request exactly when some key asks for it. */
  lemma ConstructHeardIff(texts: Texts, scope: string, name: string, detail: string)
    requires scope == RM_SET || scope == RM_MATCH
    ensures Candidate(scope, name) <==>
      exists r :: PreflightFindings([Listed(scope, name, Unsupported, detail)], texts, r) != PreflightFindings([], texts, r)
  {
    hide TableOf, PreflightFindings;
    var row, none: seq<Listed> := Listed(scope, name, Unsupported, detail), [];
    if key :| name in Candidates(TableOf(scope), key) {
      var r := AskedHeard(texts, scope, name, detail, key);
      NothingListedNothingFound(texts, r);
    } else {
      assert none + [row] + none == [row] && none + none + none == none;
      forall r ensures PreflightFindings([row], texts, r) == PreflightFindings(none, texts, r) {
        UnaskedUnreported(none, [row], none, none, texts, r, scope, name);
      }
    }
  }

  lemma AsPathNoCandidate()
    ensures !Candidate(RM_MATCH, "match as-path")
  {
    var name := "match as-path";
    assert name[6] == 'a';
    assert "match route-type"[6] == 'r' && "match local-preference"[6] == 'l' && "match length"[6] == 'l'
      && "match large-community"[6] == 'l';
  }

  /**
   A rejected `match as-path` is recorded under a name that no key asks for: listings that differ in that row only
   give every request the same findings.
   */
  lemma AsPathMatchUnreported(before: seq<Listed>, rows: seq<Listed>, rows': seq<Listed>, after: seq<Listed>, texts: Texts,
                              r: Request)
    requires AllAt(rows, RM_MATCH, "match as-path") && AllAt(rows', RM_MATCH, "match as-path")
    ensures PreflightFindings(before + rows + after, texts, r) == PreflightFindings(before + rows' + after, texts, r)
  {
    AsPathNoCandidate();
    UnaskedUnreported(before, rows, rows', after, texts, r, RM_MATCH, "match as-path");
  }
}
