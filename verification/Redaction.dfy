/** Attributing a device rejection to a construct, and redacting it without changing the attribution. */
module Redaction {
  import opened Options
  import Capability

  /** Whitespace and case folding, which the source leaves to its string type. */
  datatype Alphabet = Alphabet(space: char -> bool, lower: string -> string)

  /** The characters of the command identifiers and path tokens in the tables. */
  predicate Plain(c: char) {
    'a' <= c <= 'z' || '0' <= c <= '9' || c == '-' || c == ':'
  }

  predicate PlainText(s: string) {
    forall i :: 0 <= i < |s| ==> Plain(s[i]) || s[i] == ' '
  }

  ghost predicate Sane(a: Alphabet) {
    && a.space(' ') && a.space('\n')
    && (forall c :: Plain(c) ==> !a.space(c))
    && (forall s :: PlainText(s) ==> a.lower(s) == s)
  }

  // ---- the rejected command of a message ----

  const COMMAND := "command:"

  predicate StartsAt(s: string, t: string, i: nat) {
    i + |t| <= |s| && s[i..i + |t|] == t
  }

  /** The index of the first character from i on that is no whitespace, or the end. */
  function SkipSpace(a: Alphabet, s: string, i: nat): (j: nat)
    requires i <= |s|
    ensures i <= j <= |s| && (j < |s| ==> !a.space(s[j]))
    decreases |s| - i
  {
    if i < |s| && a.space(s[i]) then SkipSpace(a, s, i + 1) else i
  }

  function LineEnd(s: string, i: nat): (j: nat)
    requires i <= |s|
    ensures i <= j <= |s|
    decreases |s| - i
  {
    if i < |s| && s[i] != '\n' then LineEnd(s, i + 1) else i
  }

  function TrimEnd(a: Alphabet, s: string): string {
    if s != [] && a.space(s[|s| - 1]) then TrimEnd(a, s[..|s| - 1]) else s
  }

  /**
   The stripped text that `command:\s*(.+)` captures after the marker ending at i. Behind nothing but
   whitespace the pattern gives characters back until the capture is a blank, which strips to nothing.
   */
  function Captured(a: Alphabet, s: string, i: nat): Option<string>
    requires i <= |s|
  {
    var j := SkipSpace(a, s, i);
    if j < |s| then Some(TrimEnd(a, s[j..LineEnd(s, j)]))
    else if exists k :: i <= k < |s| && s[k] != '\n' then Some("")
    else None
  }

  /** The leftmost match from i on. */
  function Command(a: Alphabet, s: string, i: nat): Option<string>
    requires i <= |s|
    decreases |s| - i
  {
    if StartsAt(s, COMMAND, i) && Captured(a, s, i + |COMMAND|).Some? then Captured(a, s, i + |COMMAND|)
    else if i < |s| then Command(a, s, i + 1)
    else None
  }

  // ---- the tables and the parsers ----

  datatype Entry = Entry(scope: string, name: string, text: string)

  datatype Attribution = Attribution(scope: string, name: string)

  predicate Begins(text: string, low: string) {
    text <= low
  }

  /** The first entry whose text begins the command. */
  function ByPrefix(table: seq<Entry>, low: string): Option<Attribution> {
    if table == [] then None
    else if Begins(table[0].text, low) then Some(Attribution(table[0].scope, table[0].name))
    else ByPrefix(table[1..], low)
  }

  predicate Contains(s: string, t: string) {
    exists i :: 0 <= i <= |s| && StartsAt(s, t, i)
  }

  /** The first entry whose text occurs in the message. */
  function ByToken(table: seq<Entry>, low: string): Option<Entry> {
    if table == [] then None
    else if Contains(low, table[0].text) then Some(table[0])
    else ByToken(table[1..], low)
  }

  datatype Tables = Tables(rejections: seq<Entry>, commands: seq<Entry>, paths: seq<Entry>, constructs: set<string>)

  /** `parse_rejected_iface_construct`. */
  function InterfaceAttribution(a: Alphabet, t: Tables, message: string): Option<Attribution> {
    match Command(a, message, 0)
    case Some(command) => ByPrefix(t.commands, a.lower(command))
    case None =>
      match ByToken(t.paths, a.lower(message))
      case Some(e) => Some(Attribution(e.scope, e.name))
      case None => None
  }

  /** `parse_rejected_construct`; the name of an unlisted construct is made of the first three words. */
  function PolicyAttribution(a: Alphabet, t: Tables, words: string -> string, message: string): Option<Attribution> {
    match Command(a, message, 0)
    case None => None
    case Some(command) =>
      var low := a.lower(command);
      var listed := ByPrefix(t.rejections, low);
      if command == "" then None
      else if listed.Some? then listed
      else if Begins("set ", low) then Some(Attribution("rm-set", words(command)))
      else if Begins("match ", low) then Some(Attribution("rm-match", words(command)))
      else None
  }

  /** The identifiers a redacted rejection may keep. */
  function Names(t: Tables): set<string> {
    (set e | e in t.rejections :: e.text) + (set e | e in t.commands :: e.text) + t.constructs
  }

  /** They are tried longest first. */
  ghost predicate Allowlist(t: Tables, names: seq<string>) {
    && (forall n :: n in names <==> n in Names(t))
    && (forall i, j :: 0 <= i < j < |names| ==> |names[i]| >= |names[j]|)
  }

  function Kept(names: seq<string>, low: string): Option<string> {
    if names == [] then None else if Begins(names[0], low) then Some(names[0]) else Kept(names[1..], low)
  }

  /** `allowlisted_rejection_fragment`. */
  function Fragment(a: Alphabet, t: Tables, names: seq<string>, message: string): string {
    match Command(a, message, 0)
    case Some(command) =>
      (match Kept(names, a.lower(command)) case Some(name) => COMMAND + " " + name case None => "")
    case None =>
      (match ByToken(t.paths, a.lower(message)) case Some(e) => e.text case None => "")
  }

  // ---- what the tables must satisfy ----

  /** A kept identifier reads back as the command it names. */
  predicate Identifier(s: string) {
    s != "" && PlainText(s) && s[0] != ' ' && s[|s| - 1] != ' '
  }

  /** A kept path token has no colon behind its first character, so it is not mistaken for a command. */
  predicate Token(s: string) {
    s != "" && PlainText(s) && forall i :: 1 <= i < |s| ==> s[i] != ':'
  }

  lemma TokenNamesNoCommand(s: string)
    requires Token(s)
    ensures !Contains(s, COMMAND)
  {
    forall i | 0 <= i <= |s| ensures !StartsAt(s, COMMAND, i) {
      if i + |COMMAND| <= |s| {
        assert s[i..i + |COMMAND|][7] == s[i + 7] != COMMAND[7];
      }
    }
  }

  ghost predicate WellFormed(t: Tables) {
    && (forall n :: n in Names(t) ==> Identifier(n))
    && (forall i :: 0 <= i < |t.paths| ==> Token(t.paths[i].text))
  }

  // ---- the fragment reads back ----

  lemma {:induction false} TrimEndKeeps(a: Alphabet, s: string)
    requires s == "" || !a.space(s[|s| - 1])
    ensures TrimEnd(a, s) == s
  {
  }

  lemma {:induction false} LineEndOf(s: string, i: nat)
    requires i <= |s| && forall k :: i <= k < |s| ==> s[k] != '\n'
    ensures LineEnd(s, i) == |s|
    decreases |s| - i
  {
    if i < |s| {
      LineEndOf(s, i + 1);
    }
  }

  lemma FragmentCommand(a: Alphabet, name: string)
    requires Sane(a) && Identifier(name)
    ensures Command(a, COMMAND + " " + name, 0) == Some(name)
  {
    var s, n := COMMAND + " " + name, |COMMAND|;
    assert s[0..n] == COMMAND;
    assert s[n] == ' ' && s[n + 1] == name[0] && Plain(name[0]);
    assert SkipSpace(a, s, n) == n + 1;
    forall k | n + 1 <= k < |s| ensures s[k] != '\n' {
      assert s[k] == name[k - n - 1];
    }
    LineEndOf(s, n + 1);
    assert s[n + 1..|s|] == name;
    assert Plain(name[|name| - 1]);
    TrimEndKeeps(a, name);
  }

  lemma {:induction false} NoCommand(a: Alphabet, s: string, i: nat)
    requires i <= |s| && !Contains(s, COMMAND)
    ensures Command(a, s, i).None?
    decreases |s| - i
  {
    assert !StartsAt(s, COMMAND, i);
    if i < |s| {
      NoCommand(a, s, i + 1);
    }
  }

  // ---- the same entries match ----

  lemma {:induction false} KeptIsLongest(names: seq<string>, low: string)
    requires forall i, j :: 0 <= i < j < |names| ==> |names[i]| >= |names[j]|
    ensures Kept(names, low).None? <==> forall n :: n in names ==> !Begins(n, low)
    ensures Kept(names, low).Some? ==>
      Kept(names, low).value in names && Begins(Kept(names, low).value, low)
      && forall n :: n in names && Begins(n, low) ==> |n| <= |Kept(names, low).value|
  {
    if names != [] {
      KeptIsLongest(names[1..], low);
      forall n ensures n in names <==> n == names[0] || n in names[1..] {
      }
      forall n | n in names[1..] ensures |n| <= |names[0]| {
        var i :| 0 <= i < |names[1..]| && names[1..][i] == n;
        assert names[i + 1] == n;
      }
    }
  }

  lemma PrefixOfPrefix(p: string, q: string, s: string)
    requires p <= s && q <= s && |p| <= |q|
    ensures p <= q
  {
  }

  /** Two commands begun by the same entries get the same attribution. */
  lemma {:induction false} SamePrefixes(table: seq<Entry>, low: string, low': string)
    requires forall e :: e in table ==> (Begins(e.text, low) <==> Begins(e.text, low'))
    ensures ByPrefix(table, low) == ByPrefix(table, low')
  {
    if table != [] {
      assert table[0] in table;
      SamePrefixes(table[1..], low, low');
    }
  }

  /** The kept identifier is begun by exactly the listed texts that begin the command. */
  lemma KeptSamePrefixes(t: Tables, names: seq<string>, low: string, table: seq<Entry>)
    requires Allowlist(t, names) && Kept(names, low).Some?
    requires forall e :: e in table ==> e.text in Names(t)
    ensures ByPrefix(table, Kept(names, low).value) == ByPrefix(table, low)
  {
    KeptIsLongest(names, low);
    var kept := Kept(names, low).value;
    forall e | e in table ensures Begins(e.text, low) <==> Begins(e.text, kept) {
      if Begins(e.text, low) {
        PrefixOfPrefix(e.text, kept, low);
      }
    }
    SamePrefixes(table, kept, low);
  }

  lemma {:induction false} NoneBegins(table: seq<Entry>, low: string)
    requires forall e :: e in table ==> !Begins(e.text, low)
    ensures ByPrefix(table, low).None?
  {
    if table != [] {
      assert table[0] in table;
      NoneBegins(table[1..], low);
    }
  }

  lemma ContainsTransitive(s: string, t: string, u: string)
    requires Contains(s, t) && Contains(t, u)
    ensures Contains(s, u)
  {
    var i :| 0 <= i <= |s| && StartsAt(s, t, i);
    var j :| 0 <= j <= |t| && StartsAt(t, u, j);
    forall k | 0 <= k < |u| ensures s[i + j + k] == u[k] {
      assert u[k] == t[j..j + |u|][k] == t[j + k] == s[i..i + |t|][j + k];
    }
    assert s[i + j..i + j + |u|] == u;
    assert StartsAt(s, u, i + j);
  }

  /** The first token found in a message is also the first one found in that token. */
  lemma {:induction false} TokenStable(table: seq<Entry>, low: string)
    requires ByToken(table, low).Some?
    ensures ByToken(table, ByToken(table, low).value.text) == ByToken(table, low)
    ensures Contains(low, ByToken(table, low).value.text) && ByToken(table, low).value in table
  {
    var found := ByToken(table, low).value;
    if Contains(low, table[0].text) {
      assert StartsAt(found.text, found.text, 0);
    } else {
      TokenStable(table[1..], low);
      if Contains(found.text, table[0].text) {
        ContainsTransitive(low, found.text, table[0].text);
      }
    }
  }

  lemma {:induction false} NoTokenInNothing(table: seq<Entry>)
    requires forall i :: 0 <= i < |table| ==> table[i].text != ""
    ensures ByToken(table, "").None?
  {
    if table != [] {
      NoTokenInNothing(table[1..]);
    }
  }

  // ---- redaction preserves attribution ----

  lemma NothingHasNoCommand(a: Alphabet)
    ensures Command(a, "", 0).None?
  {
  }

  /** For every message the interface parser answers the same on the fragment as on the message. */
  lemma InterfaceAttributionKept(a: Alphabet, t: Tables, names: seq<string>, message: string)
    requires Sane(a) && WellFormed(t) && Allowlist(t, names)
    ensures InterfaceAttribution(a, t, Fragment(a, t, names, message)) == InterfaceAttribution(a, t, message)
  {
    var fragment := Fragment(a, t, names, message);
    NothingHasNoCommand(a);
    NoTokenInNothing(t.paths);
    assert PlainText("");
    match Command(a, message, 0) {
      case Some(command) =>
        var low := a.lower(command);
        KeptIsLongest(names, low);
        forall e | e in t.commands ensures e.text in Names(t) {
        }
        if Kept(names, low).Some? {
          FragmentCommand(a, Kept(names, low).value);
          KeptSamePrefixes(t, names, low, t.commands);
        } else {
          NoneBegins(t.commands, low);
        }
      case None =>
        if ByToken(t.paths, a.lower(message)).Some? {
          TokenStable(t.paths, a.lower(message));
          TokenNamesNoCommand(fragment);
          NoCommand(a, fragment, 0);
        }
    }
  }

  /** What a kept identifier and the command it began are attributed to. */
  lemma KeptAttribution(a: Alphabet, t: Tables, names: seq<string>, words: string -> string, message: string, command: string)
    requires Sane(a) && WellFormed(t) && Allowlist(t, names)
    requires Command(a, message, 0) == Some(command) && Kept(names, a.lower(command)).Some?
    ensures var before, after := PolicyAttribution(a, t, words, message),
                                 PolicyAttribution(a, t, words, COMMAND + " " + Kept(names, a.lower(command)).value);
      && (ListedConstruct(a, t, message) ==> after == before)
      && (after.Some? && command != "" ==> before.Some? && before.value.scope == after.value.scope)
  {
    var low := a.lower(command);
    KeptIsLongest(names, low);
    var kept := Kept(names, low).value;
    FragmentCommand(a, kept);
    KeptSamePrefixes(t, names, low, t.rejections);
    assert a.lower(kept) == kept && kept != "";
    PrefixChain("set ", kept, low);
    PrefixChain("match ", kept, low);
    hide Command, Kept, ByPrefix, Allowlist, WellFormed, Sane, Begins, Identifier;
  }

  lemma PrefixChain(p: string, q: string, s: string)
    requires Begins(q, s)
    ensures Begins(p, q) ==> Begins(p, s)
  {
  }

  lemma BlankKeepsNothing(a: Alphabet, t: Tables, names: seq<string>)
    requires Sane(a) && WellFormed(t) && Allowlist(t, names)
    ensures Kept(names, a.lower("")).None?
  {
    assert PlainText("");
    KeptIsLongest(names, "");
    forall n | n in names ensures !Begins(n, "") {
      assert Identifier(n);
    }
  }

  /** The route-policy parser answers the same whenever a listed construct matched, and never changes the scope. */
  lemma PolicyAttributionKept(a: Alphabet, t: Tables, names: seq<string>, words: string -> string, message: string)
    requires Sane(a) && WellFormed(t) && Allowlist(t, names)
    ensures var before, after := PolicyAttribution(a, t, words, message),
                                 PolicyAttribution(a, t, words, Fragment(a, t, names, message));
      && (ListedConstruct(a, t, message) ==> after == before)
      && (after.Some? ==> before.Some? && before.value.scope == after.value.scope)
  {
    NothingHasNoCommand(a);
    match Command(a, message, 0) {
      case Some(command) =>
        BlankKeepsNothing(a, t, names);
        if Kept(names, a.lower(command)).Some? {
          KeptAttribution(a, t, names, words, message, command);
        } else {
          KeptIsLongest(names, a.lower(command));
          forall e | e in t.rejections ensures e.text in Names(t) {
          }
          NoneBegins(t.rejections, a.lower(command));
        }
        hide Command, Kept, ByPrefix, Allowlist, WellFormed, Sane, Begins;
      case None =>
        if ByToken(t.paths, a.lower(message)).Some? {
          TokenStable(t.paths, a.lower(message));
          TokenNamesNoCommand(Fragment(a, t, names, message));
          NoCommand(a, Fragment(a, t, names, message), 0);
        }
        hide Command, ByToken, Sane;
    }
  }

  /** The message names a command that a table entry begins. */
  predicate ListedConstruct(a: Alphabet, t: Tables, message: string) {
    var command := Command(a, message, 0);
    command.Some? && command.value != "" && ByPrefix(t.rejections, a.lower(command.value)).Some?
  }

  // ---- the tables of the source ----

  const REJECTION_CONSTRUCTS: seq<Entry> := [
    Entry("rm-set", "set extcommunity color", "set extcommunity color"),
    Entry("rm-set", "set extcommunity", "set extcommunity"),
    Entry("rm-set", "set comm-list delete", "set comm-list"),
    Entry("rm-set", "set extcomm-list delete", "set extcomm-list"),
    Entry("rm-set", "set metric-type", "set metric-type"),
    Entry("rm-set", "set large-community", "set large-community"),
    Entry("rm-set", "set tag", "set tag"),
    Entry("rm-set", "set level", "set level"),
    Entry("rm-match", "match route-type", "match route-type"),
    Entry("rm-match", "match local-preference", "match local-preference"),
    Entry("rm-match", "match length", "match length"),
    Entry("rm-match", "match as-path", "match as-path"),
    Entry("community", "ip community-list standard", "ip community-list standard"),
    Entry("community", "ip community-list expanded", "ip community-list expanded"),
    Entry("community", "ip large-community-list", "ip large-community-list")]

  const IFACE_CMD_CONSTRUCTS: seq<Entry> := [
    Entry("interface_ip", "ip address", "ip address"),
    Entry("interface_ip", "ipv6 address", "ipv6 address"),
    Entry("interface_ip", "vrf", "vrf"),
    Entry("interface_ip", "vrf", "ip vrf"),
    Entry("interface_attribute", "description", "description"),
    Entry("interface_attribute", "shutdown", "shutdown"),
    Entry("interface_attribute", "shutdown", "no shutdown")]

  const IFACE_PATH_CONSTRUCTS: seq<Entry> := [
    Entry("interface_ip", "ipv4-address", "ipv4-address"),
    Entry("interface_ip", "ipv6-address", "ipv6-address"),
    Entry("interface_ip", "vrf", ":vrf"),
    Entry("interface_ip", "kind", ":kind"),
    Entry("interface_ip", "parent-binding", "parent-binding"),
    Entry("interface_ip", "encap-tag", "encap-tag"),
    Entry("interface_attribute", "description", ":description"),
    Entry("interface_attribute", "enabled", ":enabled")]

  function CandidateNames(mapping: map<string, seq<string>>): set<string> {
    set key, name | key in mapping && name in mapping[key] :: name
  }

  /** The construct names preflight can look up. */
  const PREFLIGHT_CONSTRUCTS: set<string> :=
    CandidateNames(Capability.SET_KEY_CONSTRUCTS) + CandidateNames(Capability.MATCH_KEY_CONSTRUCTS)

  const TABLES := Tables(REJECTION_CONSTRUCTS, IFACE_CMD_CONSTRUCTS, IFACE_PATH_CONSTRUCTS, PREFLIGHT_CONSTRUCTS)

  lemma SetIdentifiers()
    ensures Identifier("set extcommunity color") && Identifier("set extcommunity") && Identifier("set comm-list")
    ensures Identifier("set extcomm-list") && Identifier("set metric-type") && Identifier("set large-community")
    ensures Identifier("set tag") && Identifier("set level") && Identifier("set community")
  {
  }

  lemma DeleteIdentifiers()
    ensures Identifier("set comm-list delete") && Identifier("set extcomm-list delete")
  {
  }

  lemma MatchIdentifiers()
    ensures Identifier("match route-type") && Identifier("match local-preference") && Identifier("match length")
    ensures Identifier("match as-path") && Identifier("match large-community")
  {
  }

  lemma CommunityIdentifiers()
    ensures Identifier("ip community-list standard") && Identifier("ip community-list expanded")
    ensures Identifier("ip large-community-list")
  {
  }

  lemma InterfaceIdentifiers()
    ensures Identifier("ip address") && Identifier("ipv6 address") && Identifier("vrf") && Identifier("ip vrf")
    ensures Identifier("description") && Identifier("shutdown") && Identifier("no shutdown")
  {
  }

  lemma PathTokens()
    ensures Token("ipv4-address") && Token("ipv6-address") && Token(":vrf") && Token(":kind")
    ensures Token("parent-binding") && Token("encap-tag") && Token(":description") && Token(":enabled")
  {
  }

  lemma RejectionIdentified(i: nat)
    requires i < |REJECTION_CONSTRUCTS|
    ensures Identifier(REJECTION_CONSTRUCTS[i].text)
  {
    SetIdentifiers();
    MatchIdentifiers();
    CommunityIdentifiers();
    hide Identifier;
    assert i < 15;
  }

  lemma CommandIdentified(i: nat)
    requires i < |IFACE_CMD_CONSTRUCTS|
    ensures Identifier(IFACE_CMD_CONSTRUCTS[i].text)
  {
    InterfaceIdentifiers();
    hide Identifier;
    assert i < 7;
  }

  lemma SetCandidateIdentified(key: string, i: nat)
    requires key in Capability.SET_KEY_CONSTRUCTS && i < |Capability.SET_KEY_CONSTRUCTS[key]|
    ensures Identifier(Capability.SET_KEY_CONSTRUCTS[key][i])
  {
    SetIdentifiers();
    DeleteIdentifiers();
    hide Identifier;
  }

  lemma MatchCandidateIdentified(key: string, i: nat)
    requires key in Capability.MATCH_KEY_CONSTRUCTS && i < |Capability.MATCH_KEY_CONSTRUCTS[key]|
    ensures Identifier(Capability.MATCH_KEY_CONSTRUCTS[key][i])
  {
    MatchIdentifiers();
    hide Identifier;
  }

  lemma ConstructIdentified(n: string)
    requires n in PREFLIGHT_CONSTRUCTS
    ensures Identifier(n)
  {
    hide Identifier;
    var sets, matches := Capability.SET_KEY_CONSTRUCTS, Capability.MATCH_KEY_CONSTRUCTS;
    if n in CandidateNames(sets) {
      var key :| key in sets && n in sets[key];
      var i :| 0 <= i < |sets[key]| && sets[key][i] == n;
      SetCandidateIdentified(key, i);
    } else {
      var key :| key in matches && n in matches[key];
      var i :| 0 <= i < |matches[key]| && matches[key][i] == n;
      MatchCandidateIdentified(key, i);
    }
  }

  lemma NamesIdentified(n: string)
    ensures n in Names(TABLES) ==> Identifier(n)
  {
    hide Identifier;
    var rejections, commands := TABLES.rejections, TABLES.commands;
    if n in TABLES.constructs {
      ConstructIdentified(n);
    } else if e :| e in rejections && e.text == n {
      var i :| 0 <= i < |rejections| && rejections[i] == e;
      RejectionIdentified(i);
    } else if e :| e in commands && e.text == n {
      var i :| 0 <= i < |commands| && commands[i] == e;
      CommandIdentified(i);
    }
  }

  /** The tables satisfy what the two promises ask of them. */
  lemma TablesWellFormed()
    ensures WellFormed(TABLES)
  {
    hide Identifier, Names;
    forall n | n in Names(TABLES) ensures Identifier(n) {
      NamesIdentified(n);
    }
    PathTokens();
    hide Token;
    forall i | 0 <= i < |TABLES.paths| ensures Token(TABLES.paths[i].text) {
      assert |TABLES.paths| == 8;
    }
  }

  /** Redaction preserves attribution, with the tables as they are. */
  lemma RedactionKeepsAttribution(a: Alphabet, names: seq<string>, words: string -> string, message: string)
    requires Sane(a) && Allowlist(TABLES, names)
    ensures var fragment := Fragment(a, TABLES, names, message);
      && InterfaceAttribution(a, TABLES, fragment) == InterfaceAttribution(a, TABLES, message)
      && var before, after := PolicyAttribution(a, TABLES, words, message), PolicyAttribution(a, TABLES, words, fragment);
      && (ListedConstruct(a, TABLES, message) ==> after == before)
      && (after.Some? ==> before.Some? && before.value.scope == after.value.scope)
  {
    hide WellFormed, Allowlist, Sane, Fragment, InterfaceAttribution, PolicyAttribution, ListedConstruct;
    TablesWellFormed();
    InterfaceAttributionKept(a, TABLES, names, message);
    PolicyAttributionKept(a, TABLES, names, words, message);
  }
}
