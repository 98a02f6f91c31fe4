/** From a device's rejection to a later preflight: redaction, attribution, the matrix and the findings. */
module RejectionFlow {
  import opened Options
  import opened Capability
  import opened Redaction

  const REDACTED := "[redacted]"

  /** `_diagnostic_message`: what is left of a rejection's text. */
  function Diagnostic(a: Alphabet, names: seq<string>, message: string): string {
    var fragment := Fragment(a, TABLES, names, message);
    if fragment == "" then REDACTED else fragment
  }

  ghost predicate Readable(a: Alphabet, names: seq<string>) {
    Sane(a) && a.lower(REDACTED) == REDACTED && Allowlist(TABLES, names)
  }

  /** The first three words of a text of two words are the text. */
  predicate Whole(words: string -> string) {
    words("set community") == "set community" && words("match large-community") == "match large-community"
  }

  // ---- nothing is read off the placeholder ----

  lemma MissingCharacter(s: string, t: string, c: char)
    requires c in t && c !in s
    ensures !Contains(s, t)
  {
    var k :| 0 <= k < |t| && t[k] == c;
    forall i | 0 <= i <= |s| ensures !StartsAt(s, t, i) {
      if i + |t| <= |s| {
        assert s[i..i + |t|][k] == s[i + k];
      }
    }
  }

  lemma PathTokenMarked(i: nat)
    requires i < |TABLES.paths|
    ensures '-' in TABLES.paths[i].text || ':' in TABLES.paths[i].text
  {
    assert |TABLES.paths| == 8;
    assert "ipv4-address"[4] == '-' && "ipv6-address"[4] == '-' && "parent-binding"[6] == '-' && "encap-tag"[5] == '-';
    assert ":vrf"[0] == ':' && ":kind"[0] == ':' && ":description"[0] == ':' && ":enabled"[0] == ':';
  }

  lemma {:induction false} NoToken(table: seq<Entry>, s: string)
    requires forall i :: 0 <= i < |table| ==> '-' in table[i].text || ':' in table[i].text
    requires '-' !in s && ':' !in s
    ensures ByToken(table, s).None?
  {
    if table != [] {
      MissingCharacter(s, table[0].text, if '-' in table[0].text then '-' else ':');
      NoToken(table[1..], s);
    }
  }

  lemma PlaceholderSilent(a: Alphabet, words: string -> string)
    requires a.lower(REDACTED) == REDACTED
    ensures InterfaceAttribution(a, TABLES, REDACTED).None? && PolicyAttribution(a, TABLES, words, REDACTED).None?
  {
    assert COMMAND[7] == ':';
    MissingCharacter(REDACTED, COMMAND, ':');
    NoCommand(a, REDACTED, 0);
    forall i | 0 <= i < |TABLES.paths| ensures '-' in TABLES.paths[i].text || ':' in TABLES.paths[i].text {
      PathTokenMarked(i);
    }
    NoToken(TABLES.paths, REDACTED);
  }

  lemma NothingSilent(a: Alphabet, words: string -> string)
    requires Sane(a)
    ensures InterfaceAttribution(a, TABLES, "").None? && PolicyAttribution(a, TABLES, words, "").None?
  {
    TablesWellFormed();
    assert PlainText("");
    NothingHasNoCommand(a);
    NoTokenInNothing(TABLES.paths);
  }

  /** The parsers answer the same on what is left as on the fragment. */
  lemma DiagnosticReads(a: Alphabet, names: seq<string>, words: string -> string, message: string)
    requires Readable(a, names)
    ensures var text, fragment := Diagnostic(a, names, message), Fragment(a, TABLES, names, message);
      && InterfaceAttribution(a, TABLES, text) == InterfaceAttribution(a, TABLES, fragment)
      && PolicyAttribution(a, TABLES, words, text) == PolicyAttribution(a, TABLES, words, fragment)
  {
    PlaceholderSilent(a, words);
    NothingSilent(a, words);
    hide InterfaceAttribution, PolicyAttribution, Fragment;
  }

  // ---- every name that is read back is one preflight looks up ----

  const AS_PATH_MATCH := Attribution(RM_MATCH, "match as-path")

  /** The scopes of the route-policy constructs. */
  predicate PolicyScope(scope: string) {
    scope == RM_SET || scope == RM_MATCH || scope == COMMUNITY
  }

  /**
   The attribution is to a construct some key asks for, to a community list, or the one name nobody asks for, and it is
   not named like a read row.
   */
  ghost predicate Resolves(at: Attribution) {
    && (Candidate(at.scope, at.name) || at.scope == COMMUNITY || at == AS_PATH_MATCH)
    && PolicyScope(at.scope) && at.name != READ_ROW_NAME && at.name != ""
  }

  lemma Asked(scope: string, key: string, name: string)
    requires key in TableOf(scope) && name in TableOf(scope)[key]
    ensures Candidate(scope, name)
  {
    assert name in Candidates(TableOf(scope), key);
  }

  lemma SetNamesAsked()
    ensures Candidate(RM_SET, "set extcommunity color") && Candidate(RM_SET, "set extcommunity")
    ensures Candidate(RM_SET, "set comm-list delete") && Candidate(RM_SET, "set extcomm-list delete")
    ensures Candidate(RM_SET, "set metric-type") && Candidate(RM_SET, "set large-community")
    ensures Candidate(RM_SET, "set tag") && Candidate(RM_SET, "set level") && Candidate(RM_SET, "set community")
  {
    hide Candidate;
    assert ["set extcommunity color", "set extcommunity"][0] == "set extcommunity color";
    assert ["set extcommunity color", "set extcommunity"][1] == "set extcommunity";
    Asked(RM_SET, "extcommunity_color", "set extcommunity color");
    Asked(RM_SET, "extcommunity_color", "set extcommunity");
    Asked(RM_SET, "comm_list_delete", "set comm-list delete");
    Asked(RM_SET, "extcomm_list_delete", "set extcomm-list delete");
    Asked(RM_SET, "metric_type", "set metric-type");
    Asked(RM_SET, "large_community", "set large-community");
    Asked(RM_SET, "tag", "set tag");
    Asked(RM_SET, "level", "set level");
    Asked(RM_SET, "community", "set community");
  }

  lemma MatchNamesAsked()
    ensures Candidate(RM_MATCH, "match route-type") && Candidate(RM_MATCH, "match local-preference")
    ensures Candidate(RM_MATCH, "match length") && Candidate(RM_MATCH, "match large-community")
  {
    hide Candidate;
    assert RM_MATCH != RM_SET;
    Asked(RM_MATCH, "route_type", "match route-type");
    Asked(RM_MATCH, "local_preference", "match local-preference");
    Asked(RM_MATCH, "length", "match length");
    Asked(RM_MATCH, "large_community", "match large-community");
  }

  lemma EntryResolves(i: nat)
    requires i < |REJECTION_CONSTRUCTS|
    ensures Resolves(Attribution(REJECTION_CONSTRUCTS[i].scope, REJECTION_CONSTRUCTS[i].name))
  {
    SetNamesAsked();
    MatchNamesAsked();
    hide Candidate;
    assert i < 15 && |REJECTION_CONSTRUCTS[i].name| > |READ_ROW_NAME|;
  }

  lemma {:induction false} ListedResolves(n: nat, low: string)
    requires n <= |REJECTION_CONSTRUCTS|
    requires ByPrefix(REJECTION_CONSTRUCTS[n..], low).Some?
    ensures Resolves(ByPrefix(REJECTION_CONSTRUCTS[n..], low).value)
    decreases |REJECTION_CONSTRUCTS| - n
  {
    hide Resolves;
    var table := REJECTION_CONSTRUCTS;
    if n < |table| {
      assert table[n..][0] == table[n] && table[n..][1..] == table[n + 1..];
      if Begins(table[n].text, low) {
        EntryResolves(n);
      } else {
        ListedResolves(n + 1, low);
      }
    }
  }

  lemma {:induction false} EntryFound(table: seq<Entry>, i: nat, low: string)
    requires i < |table| && Begins(table[i].text, low)
    ensures ByPrefix(table, low).Some?
  {
    if i > 0 {
      EntryFound(table[1..], i - 1, low);
    }
  }

  /** The construct names that no entry of the parser begins. */
  predicate Unlisted(n: string) {
    n == "set community" || n == "match large-community"
  }

  lemma SetCandidateListed(key: string, i: nat)
    requires key in SET_KEY_CONSTRUCTS && i < |SET_KEY_CONSTRUCTS[key]|
    ensures var n := SET_KEY_CONSTRUCTS[key][i];
      Unlisted(n) || exists k :: 0 <= k < |REJECTION_CONSTRUCTS| && Begins(REJECTION_CONSTRUCTS[k].text, n)
  {
    var table := REJECTION_CONSTRUCTS;
    assert Begins(table[0].text, "set extcommunity color") && Begins(table[1].text, "set extcommunity");
    assert Begins(table[2].text, "set comm-list delete") && Begins(table[3].text, "set extcomm-list delete");
    assert Begins(table[4].text, "set metric-type") && Begins(table[5].text, "set large-community");
    assert Begins(table[6].text, "set tag") && Begins(table[7].text, "set level");
    hide Begins;
  }

  lemma MatchCandidateListed(key: string, i: nat)
    requires key in MATCH_KEY_CONSTRUCTS && i < |MATCH_KEY_CONSTRUCTS[key]|
    ensures var n := MATCH_KEY_CONSTRUCTS[key][i];
      Unlisted(n) || exists k :: 0 <= k < |REJECTION_CONSTRUCTS| && Begins(REJECTION_CONSTRUCTS[k].text, n)
  {
    var table := REJECTION_CONSTRUCTS;
    assert Begins(table[8].text, "match route-type") && Begins(table[9].text, "match local-preference");
    assert Begins(table[10].text, "match length");
    hide Begins;
  }

  lemma LookupListed(n: string)
    requires n in PREFLIGHT_CONSTRUCTS
    ensures Unlisted(n) || ByPrefix(REJECTION_CONSTRUCTS, n).Some?
  {
    hide Begins, Unlisted, ByPrefix;
    var sets, matches := SET_KEY_CONSTRUCTS, MATCH_KEY_CONSTRUCTS;
    if n in CandidateNames(sets) {
      var key :| key in sets && n in sets[key];
      var i :| 0 <= i < |sets[key]| && sets[key][i] == n;
      SetCandidateListed(key, i);
    } else {
      var key :| key in matches && n in matches[key];
      var i :| 0 <= i < |matches[key]| && matches[key][i] == n;
      MatchCandidateListed(key, i);
    }
    if k :| 0 <= k < |REJECTION_CONSTRUCTS| && Begins(REJECTION_CONSTRUCTS[k].text, n) {
      EntryFound(REJECTION_CONSTRUCTS, k, n);
    }
  }

  lemma CommandNoConstruct(i: nat)
    requires i < |IFACE_CMD_CONSTRUCTS|
    ensures var n := IFACE_CMD_CONSTRUCTS[i].text; !Begins("set ", n) && !Begins("match ", n)
  {
    assert |IFACE_CMD_CONSTRUCTS| == 7;
    assert "set "[0] == 's' && "match "[0] == 'm' && "set "[1] == 'e';
    assert "ip address"[0] == 'i' && "ipv6 address"[0] == 'i' && "vrf"[0] == 'v' && "ip vrf"[0] == 'i';
    assert "description"[0] == 'd' && "shutdown"[0] == 's' && "shutdown"[1] == 'h' && "no shutdown"[0] == 'n';
  }

  /** A kept identifier that reads as a route-map construct is in the parser's table, or one of the two it leaves out. */
  lemma KeptListed(n: string)
    requires n in Names(TABLES) && (Begins("set ", n) || Begins("match ", n))
    ensures Unlisted(n) || ByPrefix(REJECTION_CONSTRUCTS, n).Some?
  {
    hide Unlisted, ByPrefix;
    var rejections, commands := TABLES.rejections, TABLES.commands;
    if n in TABLES.constructs {
      LookupListed(n);
    } else if e :| e in rejections && e.text == n {
      var i :| 0 <= i < |rejections| && rejections[i] == e;
      EntryFound(rejections, i, n);
    } else if e :| e in commands && e.text == n {
      var i :| 0 <= i < |commands| && commands[i] == e;
      CommandNoConstruct(i);
    }
  }

  lemma UnlistedScope(n: string)
    requires Unlisted(n)
    ensures n == "set community" ==> Begins("set ", n)
    ensures n == "match large-community" ==> !Begins("set ", n) && Begins("match ", n)
  {
    assert "match large-community"[0] == 'm' && "set "[0] == 's';
    assert "match large-community"[..6] == "match " && "set community"[..4] == "set ";
  }

  /** The route-policy parser on an identifier. */
  function OfIdentifier(words: string -> string, n: string): Option<Attribution> {
    var listed := ByPrefix(REJECTION_CONSTRUCTS, n);
    if listed.Some? then listed
    else if Begins("set ", n) then Some(Attribution(RM_SET, words(n)))
    else if Begins("match ", n) then Some(Attribution(RM_MATCH, words(n)))
    else None
  }

  lemma IdentifierRead(a: Alphabet, words: string -> string, n: string)
    requires Sane(a) && Identifier(n)
    ensures PolicyAttribution(a, TABLES, words, COMMAND + " " + n) == OfIdentifier(words, n)
  {
    FragmentCommand(a, n);
    assert a.lower(n) == n;
    hide Command, ByPrefix, Sane, Begins, Identifier;
  }

  lemma UnlistedResolves(words: string -> string, n: string)
    requires Whole(words) && Unlisted(n) && ByPrefix(REJECTION_CONSTRUCTS, n).None?
    ensures OfIdentifier(words, n).Some? && Resolves(OfIdentifier(words, n).value)
  {
    hide ByPrefix, Candidate, Begins;
    SetNamesAsked();
    MatchNamesAsked();
    UnlistedScope(n);
    assert |n| > |READ_ROW_NAME|;
  }

  lemma KeptResolves(a: Alphabet, words: string -> string, n: string)
    requires Sane(a) && Whole(words) && n in Names(TABLES)
    ensures var at := PolicyAttribution(a, TABLES, words, COMMAND + " " + n); at.Some? ==> Resolves(at.value)
  {
    hide Sane, Whole, Names, PolicyAttribution, ByPrefix, Candidate, Begins, Identifier, Unlisted, Resolves;
    NamesIdentified(n);
    IdentifierRead(a, words, n);
    var table := REJECTION_CONSTRUCTS;
    assert table[0..] == table;
    if ByPrefix(table, n).Some? {
      ListedResolves(0, n);
    } else if Begins("set ", n) || Begins("match ", n) {
      KeptListed(n);
      UnlistedResolves(words, n);
    }
  }

  /** Whatever the device said, a construct read off what is left of it is one that preflight can look up. */
  lemma KeptNameResolves(a: Alphabet, names: seq<string>, words: string -> string, message: string)
    requires Readable(a, names) && Whole(words)
    ensures var at := PolicyAttribution(a, TABLES, words, Diagnostic(a, names, message)); at.Some? ==> Resolves(at.value)
  {
    var fragment := Fragment(a, TABLES, names, message);
    DiagnosticReads(a, names, words, message);
    NothingSilent(a, words);
    match Command(a, message, 0) {
      case Some(command) =>
        var low := a.lower(command);
        KeptIsLongest(names, low);
        if Kept(names, low).Some? {
          KeptResolves(a, words, Kept(names, low).value);
        }
      case None =>
        if ByToken(TABLES.paths, a.lower(message)).Some? {
          TablesWellFormed();
          TokenStable(TABLES.paths, a.lower(message));
          TokenNamesNoCommand(fragment);
          NoCommand(a, fragment, 0);
        }
    }
    hide Resolves, Readable, Whole, PolicyAttribution, Diagnostic;
  }

  // ---- the interface parser ----

  const INTERFACE_IP := "interface_ip"
  const INTERFACE_ATTRIBUTE := "interface_attribute"

  /** The attribution is to one half of the interface module, and it is not named like a read row. */
  predicate NamesInterface(at: Attribution) {
    (at.scope == INTERFACE_IP || at.scope == INTERFACE_ATTRIBUTE) && at.name != READ_ROW_NAME
  }

  lemma CommandNames(i: nat)
    requires i < |IFACE_CMD_CONSTRUCTS|
    ensures NamesInterface(Attribution(IFACE_CMD_CONSTRUCTS[i].scope, IFACE_CMD_CONSTRUCTS[i].name))
  {
    assert i < 7 && |IFACE_CMD_CONSTRUCTS[i].name| != |READ_ROW_NAME|;
  }

  lemma PathNames(i: nat)
    requires i < |IFACE_PATH_CONSTRUCTS|
    ensures NamesInterface(Attribution(IFACE_PATH_CONSTRUCTS[i].scope, IFACE_PATH_CONSTRUCTS[i].name))
  {
    assert i < 8 && IFACE_PATH_CONSTRUCTS[i].name[0] != 'r';
  }

  lemma {:induction false} PrefixIn(table: seq<Entry>, low: string) returns (i: nat)
    requires ByPrefix(table, low).Some?
    ensures i < |table| && ByPrefix(table, low).value == Attribution(table[i].scope, table[i].name)
  {
    if Begins(table[0].text, low) {
      i := 0;
    } else {
      i := PrefixIn(table[1..], low);
      i := i + 1;
    }
  }

  /** For every text, the interface parser names one half of the module or nothing. */
  lemma InterfaceNamed(a: Alphabet, text: string)
    ensures var at := InterfaceAttribution(a, TABLES, text); at.Some? ==> NamesInterface(at.value)
  {
    hide NamesInterface;
    var at := InterfaceAttribution(a, TABLES, text);
    match Command(a, text, 0) {
      case Some(command) =>
        if at.Some? {
          var i := PrefixIn(TABLES.commands, a.lower(command));
          CommandNames(i);
        }
      case None =>
        if at.Some? {
          TokenStable(TABLES.paths, a.lower(text));
          var e := ByToken(TABLES.paths, a.lower(text)).value;
          var i :| 0 <= i < |IFACE_PATH_CONSTRUCTS| && IFACE_PATH_CONSTRUCTS[i] == e;
          PathNames(i);
        }
    }
  }

  // ---- what the adapter does to the matrix ----

  /** How the adapter reads texts: the redaction's alphabet and allowlist, and the first three words of a command. */
  datatype Reader = Reader(alphabet: Alphabet, names: seq<string>, words: string -> string)

  ghost predicate Good(reader: Reader) {
    Readable(reader.alphabet, reader.names) && Whole(reader.words)
  }

  function Left(reader: Reader, message: string): string {
    Diagnostic(reader.alphabet, reader.names, message)
  }

  /** `_record_ordinary_capability`: the route-policy parser, and the interface parser when that names nothing. */
  function Attributed(reader: Reader, message: string): Option<Attribution> {
    var policy := PolicyAttribution(reader.alphabet, TABLES, reader.words, Left(reader, message));
    if policy.Some? && policy.value.name != "" then policy
    else InterfaceAttribution(reader.alphabet, TABLES, Left(reader, message))
  }

  /** The capability scopes of a device-intent container; the merged interface container has two. */
  function ScopesOf(container: string): set<string> {
    if container == "snmp" then {"snmp"}
    else if container == "static-route" then {"static_route"}
    else if container == "logging" then {"logging"}
    else if container == "svi" then {"svi"}
    else if container == "subinterface" then {"subinterface"}
    else if container == "vlan" then {"vlan"}
    else if container == "bfd" then {"bfd"}
    else if container == "mtu" then {"interface_mtu"}
    else if container == "l2-sap" then {"l2_sap"}
    else if container == "isis" then {"isis"}
    else if container == "bgp" then {"bgp"}
    else if container == "route-policy" then {"route_policy"}
    else if container == "ospf" then {"ospf"}
    else if container == "switchport" then {"switchport"}
    else if container == "lag" then {"lag"}
    else if container == "interface" then {INTERFACE_ATTRIBUTE, INTERFACE_IP}
    else {}
  }

  function CommitScopes(containers: set<string>): set<string> {
    set container, scope | container in containers && scope in ScopesOf(container) :: scope
  }

  datatype Act =
    | Probes(platform: Platform, elements: seq<Element>)
    | ReadsReported(platform: Platform, strip: string -> string, report: seq<Observed>)
    | Rejects(platform: Platform, message: string)
    | Commits(platform: Platform, containers: set<string>)

  /** The event of the matrix; a rejection that names nothing records nothing. */
  function EventOf(reader: Reader, act: Act): Event {
    match act
    case Probes(p, elements) => ProbeReport(p, elements)
    case ReadsReported(p, strip, report) => ReadReport(p, AllCleaned(strip, report))
    case Rejects(p, message) =>
      (match Attributed(reader, message)
       case Some(at) => Rejection(p, at.scope, at.name, Left(reader, message))
       case None => ProbeReport(p, []))
    case Commits(p, containers) => CleanCommit(p, CommitScopes(containers))
  }

  function Events(reader: Reader, acts: seq<Act>): seq<Event> {
    seq(|acts|, i requires 0 <= i < |acts| => EventOf(reader, acts[i]))
  }

  /** Every rejection the adapter records is a resolved route-policy construct or one half of the interface module. */
  lemma AttributedNames(reader: Reader, message: string)
    requires Good(reader) && Attributed(reader, message).Some?
    ensures var at := Attributed(reader, message).value;
      if PolicyScope(at.scope) then Resolves(at) else NamesInterface(at)
  {
    KeptNameResolves(reader.alphabet, reader.names, reader.words, message);
    InterfaceNamed(reader.alphabet, Left(reader, message));
    ScopesApart();
    hide Good, PolicyAttribution, InterfaceAttribution, Diagnostic, Candidate;
  }

  lemma ScopesApart()
    ensures !PolicyScope(INTERFACE_IP) && !PolicyScope(INTERFACE_ATTRIBUTE)
  {
    assert |INTERFACE_IP| == 12 && |INTERFACE_ATTRIBUTE| == 19;
  }

  // ---- read rows and rejections never meet ----

  /** No rejection is stored under the name of the read rows. */
  ghost predicate Separate(rows: map<Key, Row>) {
    forall k :: k in rows && rows[k].source.Apply? ==> k.name != READ_ROW_NAME
  }

  lemma {:induction false} ProbesSeparate(rows: map<Key, Row>, p: Platform, elements: seq<Element>, n: nat)
    requires Separate(rows) && n <= |elements|
    ensures Separate(Probed(rows, p, elements, n))
  {
    if n > 0 {
      ProbesSeparate(rows, p, elements, n - 1);
    }
  }

  lemma {:induction false} ReadsSeparate(rows: map<Key, Row>, p: Platform, elements: seq<Element>, n: nat)
    requires Separate(rows) && n <= |elements|
    ensures Separate(ReadIn(rows, p, elements, n))
  {
    if n > 0 {
      ReadsSeparate(rows, p, elements, n - 1);
    }
  }

  lemma ActSeparate(reader: Reader, rows: map<Key, Row>, act: Act)
    requires Good(reader) && Separate(rows)
    ensures Separate(Next(rows, EventOf(reader, act)))
  {
    match act
    case Probes(p, elements) => ProbesSeparate(rows, p, elements, |elements|);
    case ReadsReported(p, strip, report) => ReadsSeparate(rows, p, AllCleaned(strip, report), |report|);
    case Rejects(p, message) =>
      if Attributed(reader, message).Some? {
        AttributedNames(reader, message);
      }
      hide Good, Attributed, Left, Candidate;
    case Commits(_, _) =>
  }

  /** In every matrix the adapter reaches, no rejection has the name of the read rows, so no read report touches one. */
  lemma {:induction false} ReadRowsNeverCollide(reader: Reader, rows: map<Key, Row>, acts: seq<Act>)
    requires Good(reader) && Separate(rows)
    ensures Separate(Run(rows, Events(reader, acts)))
    decreases |acts|
  {
    hide Good, Separate;
    if acts != [] {
      ActSeparate(reader, rows, acts[0]);
      assert Events(reader, acts)[1..] == Events(reader, acts[1..]);
      ReadRowsNeverCollide(reader, Next(rows, EventOf(reader, acts[0])), acts[1..]);
    }
  }

  // ---- what lifts a rejection ----

  lemma PolicyNeverCleared(container: string, scope: string)
    requires PolicyScope(scope)
    ensures scope !in ScopesOf(container)
  {
    assert RM_SET[0] == 'r' && |RM_SET| == 6 && RM_MATCH[0] == 'r' && |RM_MATCH| == 8 && |COMMUNITY| == 9 && COMMUNITY[0] == 'c';
    assert |INTERFACE_IP| == 12 && |INTERFACE_ATTRIBUTE| == 19 && "l2_sap"[0] == 'l';
  }

  lemma InterfaceClearedIff(container: string, scope: string)
    requires scope == INTERFACE_IP || scope == INTERFACE_ATTRIBUTE
    ensures scope in ScopesOf(container) <==> container == "interface"
  {
    assert |INTERFACE_IP| == 12 && |INTERFACE_ATTRIBUTE| == 19;
    assert INTERFACE_IP[0] == 'i' && "static_route"[0] == 's' && "subinterface"[0] == 's' && "route_policy"[0] == 'r';
  }

  /** The act is a clean commit of the interface container on the platform. */
  predicate CommitsInterface(act: Act, p: Platform) {
    act.Commits? && act.platform == p && "interface" in act.containers
  }

  /** A recorded route-policy rejection is lifted by nothing the adapter does. */
  lemma PolicyNeverLifted(reader: Reader, act: Act, k: Key)
    requires PolicyScope(k.scope) && k.name != READ_ROW_NAME
    ensures !Lifts(EventOf(reader, act), k)
  {
    if act.Commits? {
      forall container ensures k.scope !in ScopesOf(container) {
        PolicyNeverCleared(container, k.scope);
      }
    }
    hide ScopesOf, Attributed, Left, PolicyScope;
  }

  /** A recorded interface rejection is lifted exactly by a clean commit of the interface container. */
  lemma InterfaceLiftedIff(reader: Reader, act: Act, k: Key)
    requires (k.scope == INTERFACE_IP || k.scope == INTERFACE_ATTRIBUTE) && k.name != READ_ROW_NAME && k.platform.nedId != ""
    ensures Lifts(EventOf(reader, act), k) <==> CommitsInterface(act, k.platform)
  {
    if act.Commits? {
      forall container ensures k.scope in ScopesOf(container) <==> container == "interface" {
        InterfaceClearedIff(container, k.scope);
      }
      hide ScopesOf;
      assert k.scope in ScopesOf("interface");
      assert k.scope in CommitScopes(act.containers) <==> "interface" in act.containers;
    }
    hide ScopesOf, Attributed, Left;
  }

  // ---- from the message to a later request ----

  /** Every request with the key is told. */
  ghost predicate Told(listed: seq<Listed>, texts: Texts, scope: string, key: string) {
    forall r :: key in KeysOf(r, scope) ==> Reported(PreflightFindings(listed, texts, r), scope, key)
  }

  /** Every request with a member of the list's kind is told. */
  ghost predicate KindTold(listed: seq<Listed>, texts: Texts, name: string) {
    forall r: Request, m :: m in r.members && texts.ofMember(m) == texts.ofRow(name) ==> MemberTold(listed, texts, r, m)
  }

  ghost predicate MemberTold(listed: seq<Listed>, texts: Texts, r: Request, m: string) {
    exists f :: f in PreflightFindings(listed, texts, r) && f.scope == COMMUNITY && f.element == m && f.status.Unsupported?
  }

  /** A device rejected something on a platform, in a matrix with any history, and acts of the adapter followed. */
  datatype Story = Story(start: map<Key, Row>, platform: Platform, message: string, after: seq<Act>)
  {
    ghost function Matrix(reader: Reader): map<Key, Row> {
      Run(Next(start, EventOf(reader, Rejects(platform, message))), Events(reader, after))
    }
  }

  lemma {:induction false} RefusedStays(reader: Reader, rows: map<Key, Row>, acts: seq<Act>, k: Key)
    requires Refused(rows, k) && forall i :: 0 <= i < |acts| ==> !Lifts(EventOf(reader, acts[i]), k)
    ensures Refused(Run(rows, Events(reader, acts)), k)
  {
    RunKeepsRejection(rows, Events(reader, acts), k);
  }

  lemma RejectionRecorded(reader: Reader, story: Story, at: Attribution)
    requires story.platform.nedId != "" && Attributed(reader, story.message) == Some(at)
    ensures Refused(Next(story.start, EventOf(reader, Rejects(story.platform, story.message))),
                    Key(story.platform, at.scope, at.name))
  {
    hide Attributed, Left;
  }

  /** Whatever follows, a recorded route-policy rejection stays in the matrix for ever. */
  lemma PolicyRejectionStays(reader: Reader, story: Story, at: Attribution)
    requires Good(reader) && story.platform.nedId != "" && Attributed(reader, story.message) == Some(at) && PolicyScope(at.scope)
    ensures Refused(story.Matrix(reader), Key(story.platform, at.scope, at.name))
  {
    var k := Key(story.platform, at.scope, at.name);
    AttributedNames(reader, story.message);
    hide Good, Attributed, Left, Candidate, Lifts, Refused, EventOf, Next;
    forall i | 0 <= i < |story.after| ensures !Lifts(EventOf(reader, story.after[i]), k) {
      PolicyNeverLifted(reader, story.after[i], k);
    }
    RejectionRecorded(reader, story, at);
    RefusedStays(reader, Next(story.start, EventOf(reader, Rejects(story.platform, story.message))), story.after, k);
  }

  /** A recorded interface rejection stays as long as the interface container is not committed cleanly on its platform. */
  lemma InterfaceRejectionStays(reader: Reader, story: Story, at: Attribution)
    requires Good(reader) && story.platform.nedId != "" && Attributed(reader, story.message) == Some(at) && !PolicyScope(at.scope)
    requires forall i :: 0 <= i < |story.after| ==> !CommitsInterface(story.after[i], story.platform)
    ensures Refused(story.Matrix(reader), Key(story.platform, at.scope, at.name))
  {
    var k := Key(story.platform, at.scope, at.name);
    AttributedNames(reader, story.message);
    hide Good, Attributed, Left, Candidate, Lifts, Refused, EventOf, Next;
    forall i | 0 <= i < |story.after| ensures !Lifts(EventOf(reader, story.after[i]), k) {
      InterfaceLiftedIff(reader, story.after[i], k);
    }
    RejectionRecorded(reader, story, at);
    RefusedStays(reader, Next(story.start, EventOf(reader, Rejects(story.platform, story.message))), story.after, k);
  }

  /** Every request with a key that asks for the construct is told. */
  ghost predicate ConstructTold(listed: seq<Listed>, texts: Texts, scope: string, name: string) {
    forall key :: name in Candidates(TableOf(scope), key) ==> Told(listed, texts, scope, key)
  }

  lemma RefusedTold(rows: map<Key, Row>, p: Platform, scope: string, name: string, listed: seq<Listed>, texts: Texts)
    requires Refused(rows, Key(p, scope, name)) && Lists(rows, p, listed)
    ensures ConstructTold(listed, texts, scope, name)
  {
    hide Lists, Refused, PreflightFindings, Reported, TableOf, KeysOf, Candidates;
    forall key | name in Candidates(TableOf(scope), key) ensures Told(listed, texts, scope, key) {
      forall r | key in KeysOf(r, scope) ensures Reported(PreflightFindings(listed, texts, r), scope, key) {
        RejectedConstructReported(rows, p, listed, texts, r, scope, key, name);
      }
    }
  }

  lemma ListTold(rows: map<Key, Row>, p: Platform, name: string, listed: seq<Listed>, texts: Texts)
    requires Refused(rows, Key(p, COMMUNITY, name)) && Lists(rows, p, listed)
    ensures KindTold(listed, texts, name)
  {
    hide Lists, Refused, PreflightFindings;
    forall r: Request, m | m in r.members && texts.ofMember(m) == texts.ofRow(name) ensures MemberTold(listed, texts, r, m) {
      RejectedCommunityReported(rows, p, listed, texts, r, m, name);
    }
  }

  /**
   The promise from end to end. A device rejects a route-policy construct in its own words. What is left of the message is
   attributed and recorded, and the adapter goes on: probes, read reports, other rejections, clean commits of any
   containers. Every later request with a key that asks for the construct, or with a member of the rejected list's kind, is
   told; and some key asks for it unless it is the as-path match.
   */
  lemma RejectionTold(reader: Reader, story: Story, at: Attribution, listed: seq<Listed>, texts: Texts)
    requires Good(reader) && story.platform.nedId != "" && Attributed(reader, story.message) == Some(at) && PolicyScope(at.scope)
    requires Lists(story.Matrix(reader), story.platform, listed)
    ensures at.scope == COMMUNITY ==> KindTold(listed, texts, at.name)
    ensures at.scope != COMMUNITY ==> ConstructTold(listed, texts, at.scope, at.name)
    ensures at.scope != COMMUNITY ==> (Candidate(at.scope, at.name) <==> at != AS_PATH_MATCH)
  {
    hide Good, Attributed, Story.Matrix, Lists, ConstructTold, KindTold, Candidate, Refused;
    AttributedNames(reader, story.message);
    AsPathNoCandidate();
    PolicyRejectionStays(reader, story, at);
    if at.scope == COMMUNITY {
      ListTold(story.Matrix(reader), story.platform, at.name, listed, texts);
    } else {
      RefusedTold(story.Matrix(reader), story.platform, at.scope, at.name, listed, texts);
    }
  }

  /** Of the names in the parser's table, preflight looks up all but the as-path match. */
  lemma ParserNameAskedIff(i: nat)
    requires i < |REJECTION_CONSTRUCTS| && REJECTION_CONSTRUCTS[i].scope != COMMUNITY
    ensures Candidate(REJECTION_CONSTRUCTS[i].scope, REJECTION_CONSTRUCTS[i].name) <==>
      REJECTION_CONSTRUCTS[i].name != "match as-path"
  {
    EntryResolves(i);
    AsPathNoCandidate();
    hide Candidate;
    assert i < 15;
  }
}
