/**
 What the audit_logs columns give back for the values written into them, and how
 the logger prepares an entry before hashing it. Column types are those of the
 migrations: uuid, varchar(n), text, inet, timestamptz.
 */
module AuditColumns {
  import opened Base
  import opened JsonText
  import opened AuditHash

  function LowerHex(c: char): char {
    if 'A' <= c <= 'F' then (c as int + 32) as char else c
  }

  function LowerAll(s: string): string {
    seq(|s|, i requires 0 <= i < |s| => LowerHex(s[i]))
  }

  predicate HexGroup(g: string) {
    |g| == 4 && forall i :: 0 <= i < 4 ==> HexValue(g[i]) != None
  }

  /** What follows a group: a hyphen between two groups is skipped, wherever it stands. */
  function AfterGroup(s: string, groups: nat): string
    requires |s| >= 4
  {
    if groups > 1 && |s| > 4 && s[4] == '-' then s[5..] else s[4..]
  }

  /** Canonical output has a hyphen after the groups that have 7 to 4 groups left to count, themselves included. */
  function Hyphen(groups: nat): string {
    if 4 <= groups <= 7 then "-" else ""
  }

  /** Reads the given number of groups of four hex digits and writes them canonically. */
  function UuidGroups(s: string, groups: nat): Option<string> {
    if groups == 0 then (if s == "" then Some("") else None)
    else if |s| < 4 || !HexGroup(s[..4]) then None
    else UuidGroup(s[..4], groups, UuidGroups(AfterGroup(s, groups), groups - 1))
  }

  /** A group before the groups that follow it. */
  function UuidGroup(group: string, groups: nat, rest: Option<string>): Option<string> {
    if rest.None? then None else Some(LowerAll(group) + (Hyphen(groups) + rest.value))
  }

  /** The text a uuid column returns for an input text: lower case, hyphens at 8-4-4-4-12. */
  function UuidText(s: string): Option<string> {
    if |s| >= 2 && s[0] == '{' && s[|s| - 1] == '}' then UuidGroups(s[1..|s| - 1], 8) else UuidGroups(s, 8)
  }

  /** varchar(n): excess characters are an error unless they are all spaces, which are cut. */
  function VarcharText(n: nat, s: string): Option<string> {
    if '\0' in s then None
    else if |s| <= n then Some(s)
    else if forall i :: n <= i < |s| ==> s[i] == ' ' then Some(s[..n])
    else None
  }

  function PlainText(s: string): Option<string> {
    if '\0' in s then None else Some(s)
  }

  /** nilIfEmpty on the way in, NULL to "" on the way out. */
  function Nullable(s: string, column: string -> Option<string>): Option<string> {
    if s == "" then Some("") else column(s)
  }

  /** An inserted row as it is read back; None when some column refuses its value. */
  function StoredAs(inet: string -> Option<string>, e: Entry): (r: Option<Entry>)
    ensures r.Some? ==> r.value.hashPrev == e.hashPrev && r.value.seqNo == e.seqNo
  {
    var uid, rid := Nullable(e.userID, UuidText), Nullable(e.resourceID, UuidText);
    var act, rtype := VarcharText(100, e.action), VarcharText(100, e.resourceType);
    var etype, status := VarcharText(50, e.eventType), VarcharText(20, e.status);
    var ip, ua := Nullable(e.ipAddress, inet), Nullable(e.userAgent, PlainText);
    var region, meta, hash := Nullable(e.regionCode, s => VarcharText(2, s)), PlainText(e.metadata), PlainText(e.hashPrev);
    if uid.None? || rid.None? || act.None? || rtype.None? || etype.None? || status.None?
       || ip.None? || ua.None? || region.None? || meta.None? || hash.None? then None
    else Some(Entry(e.id, e.seqNo, TruncMicro(e.eventTime), uid.value, act.value, rtype.value, rid.value, etype.value,
                    status.value, ip.value, ua.value, region.value, meta.value, hash.value))
  }

  /** The defaults and the time truncation of AppendChainNoTx. */
  function Prepare(e: Entry, now: int): Entry {
    e.(eventType := if e.eventType == "" then "action" else e.eventType,
       status := if e.status == "" then "success" else e.status,
       metadata := if e.metadata == "" then "{}" else e.metadata,
       eventTime := TruncMicro(if e.eventTime == 0 then now else e.eventTime))
  }

  /** A netip.Addr: 32 bits, or 128 with perhaps a zone. */
  datatype Addr = Addr(is6: bool, bits: nat, zoned: bool)

  /** netip.ParseAddr, and Addr.String for addresses without a zone. */
  datatype Net = Net(parse: string -> Option<Addr>, text: Addr -> string)

  /** IPv4-mapped IPv6 is taken as IPv4. */
  function Unmap(a: Addr): Addr {
    if a.is6 && a.bits / 0x1_0000_0000 == 0xFFFF then Addr(false, a.bits % 0x1_0000_0000, false) else a
  }

  /** PrefixFrom drops the zone; the prefix covers every bit. */
  function PrefixText(net: Net, a: Addr): string {
    net.text(a.(zoned := false)) + (if a.is6 then "/128" else "/32")
  }

  function BeforeComma(s: string): string {
    if s == "" || s[0] == ',' then "" else [s[0]] + BeforeComma(s[1..])
  }

  predicate IsSpace(c: char) {
    c in " \t\n\U{0B}\U{0C}\r\U{85}\U{A0}\U{1680}\U{2028}\U{2029}\U{202F}\U{205F}\U{3000}" || '\U{2000}' <= c <= '\U{200A}'
  }

  function TrimSpace(s: string): string
    decreases |s|
  {
    if s == "" then ""
    else if IsSpace(s[0]) then TrimSpace(s[1..])
    else if IsSpace(s[|s| - 1]) then TrimSpace(s[..|s| - 1])
    else s
  }

  /** The address of an entry's IP field; None when the field is dropped. */
  function LoggedAddr(net: Net, ip: string): Option<Addr> {
    if ip == "" then None
    else match net.parse(TrimSpace(BeforeComma(ip)))
      case None => None
      case Some(a) => if a.bits == 0 && !a.zoned then None else Some(Unmap(a))
  }

  function CanonicalIP(net: Net, ip: string): string {
    match LoggedAddr(net, ip)
    case None => ""
    case Some(a) => PrefixText(net, a)
  }

  function PrepareForLog(net: Net, e: Entry, now: int): Entry {
    var p := Prepare(e, now);
    p.(ipAddress := CanonicalIP(net, e.ipAddress))
  }

  /**
   What an appended entry records of the one that was passed: every field as it is, but for
   three defaults for empty texts, and the time, or the clock's, cut to microseconds.
   */
  predicate Records(w: Entry, e: Entry, now: int) {
    && w.userID == e.userID && w.action == e.action && w.resourceType == e.resourceType && w.resourceID == e.resourceID
    && w.userAgent == e.userAgent && w.regionCode == e.regionCode
    && w.eventType == (if e.eventType == "" then "action" else e.eventType)
    && w.status == (if e.status == "" then "success" else e.status)
    && w.metadata == (if e.metadata == "" then "{}" else e.metadata)
    && w.eventTime % 1000 == 0 && w.eventTime <= (if e.eventTime == 0 then now else e.eventTime) < w.eventTime + 1000
  }

  /** What Log records of an address: IPv4 as it is or out of its IPv6 form, anything else as it is, in the column's form; nothing of what does not parse or is unspecified. */
  lemma AddressIsRecorded(net: Net, ip: string)
    requires ip != ""
    ensures var first := net.parse(TrimSpace(BeforeComma(ip)));
      CanonicalIP(net, ip) ==
      if first.None? || (first.value.bits == 0 && !first.value.zoned) then ""
      else if !first.value.is6 then net.text(Addr(false, first.value.bits, false)) + "/32"
      else if 0xFFFF_0000_0000 <= first.value.bits < 0x1_0000_0000_0000
      then net.text(Addr(false, first.value.bits - 0xFFFF_0000_0000, false)) + "/32"
      else net.text(Addr(true, first.value.bits, false)) + "/128"
  {
  }

  /** Six zero words and then one that is not: netip prints the last two words in hex, inet prints them as a dotted quad. */
  predicate ShownDotted(a: Addr) {
    a.is6 && 0x1_0000 <= a.bits < 0x1_0000_0000
  }

  /** The inet column takes every prefix that netip prints, and returns its text unchanged unless it shows the address as a dotted quad. */
  ghost predicate InetSpec(net: Net, inet: string -> Option<string>) {
    forall a: Addr :: inet(PrefixText(net, a)).Some? && (inet(PrefixText(net, a)) == Some(PrefixText(net, a)) <==> !ShownDotted(a))
  }

  /** canonicalIP does what it is for, a text that the inet column returns unchanged or none at all, for every address not shown as a dotted quad. */
  lemma CanonicalIPKeptIff(net: Net, inet: string -> Option<string>, ip: string)
    requires InetSpec(net, inet)
    ensures Nullable(CanonicalIP(net, ip), inet).Some?
    ensures Nullable(CanonicalIP(net, ip), inet) == Some(CanonicalIP(net, ip))
      <==> LoggedAddr(net, ip).None? || !ShownDotted(LoggedAddr(net, ip).value)
  {
    if LoggedAddr(net, ip).Some? {
      var a := LoggedAddr(net, ip).value;
      assert |PrefixText(net, a)| > 0;
      assert inet(PrefixText(net, a)) == Some(PrefixText(net, a)) <==> !ShownDotted(a);
    }
  }

  /** Only the first element of a forwarded list counts, whatever follows it. */
  lemma {:induction false} CanonicalIPFirstOnly(net: Net, first: string, rest: string)
    requires ',' !in first && first != ""
    ensures CanonicalIP(net, first + "," + rest) == CanonicalIP(net, first)
  {
    BeforeCommaFirst(first, rest);
    BeforeCommaAll(first);
  }

  /** The elements of a forwarded list: the texts between its commas. */
  function Elements(ip: string): (e: seq<string>)
    ensures e != [] && e[0] == BeforeComma(ip)
    decreases |ip|
  {
    var first := BeforeComma(ip);
    BeforeCommaPrefix(ip);
    if |first| == |ip| then [first] else [first] + Elements(ip[|first| + 1..])
  }

  lemma {:induction false} BeforeCommaPrefix(s: string)
    ensures BeforeComma(s) <= s && (|BeforeComma(s)| < |s| ==> s[|BeforeComma(s)|] == ',')
  {
    if s != "" && s[0] != ',' {
      BeforeCommaPrefix(s[1..]);
    }
  }

  /** An element that parses to an address other than the unspecified one. */
  predicate Usable(net: Net, element: string) {
    match net.parse(TrimSpace(element))
    case None => false
    case Some(a) => a.bits != 0 || a.zoned
  }

  /** What the comment on canonicalIP promises: the first usable address of the list, in the column's form. */
  function FirstUsable(net: Net, elements: seq<string>): string {
    if elements == [] then ""
    else if Usable(net, elements[0]) then PrefixText(net, Unmap(net.parse(TrimSpace(elements[0])).value))
    else FirstUsable(net, elements[1..])
  }

  lemma {:induction false} FirstUsableIsNone(net: Net, elements: seq<string>)
    ensures FirstUsable(net, elements) == "" <==> forall i :: 0 <= i < |elements| ==> !Usable(net, elements[i])
  {
    if elements != [] {
      FirstUsableIsNone(net, elements[1..]);
      if Usable(net, elements[0]) {
        assert |FirstUsable(net, elements)| > 0;
      } else {
        assert forall i :: 0 < i < |elements| ==> elements[i] == elements[1..][i - 1];
      }
    }
  }

  /** The code keeps the promise exactly when the first element is usable, or none is. */
  lemma FirstUsableSurvivesIff(net: Net, ip: string)
    requires ip != ""
    ensures CanonicalIP(net, ip) == FirstUsable(net, Elements(ip)) <==>
      Usable(net, Elements(ip)[0]) || forall i :: 0 <= i < |Elements(ip)| ==> !Usable(net, Elements(ip)[i])
  {
    FirstUsableIsNone(net, Elements(ip));
  }

  lemma TwoElements(first: string, second: string)
    requires ',' !in first && ',' !in second
    ensures Elements(first + "," + second) == [first, second]
  {
    var ip := first + "," + second;
    BeforeCommaFirst(first, second);
    BeforeCommaAll(second);
    assert ip[|first| + 1..] == second;
  }

  /** An unusable element hides the address after it. */
  lemma FirstHidesSecond(net: Net, first: string, second: string)
    requires ',' !in first && ',' !in second && !Usable(net, first) && Usable(net, second)
    ensures CanonicalIP(net, first + "," + second) == ""
    ensures FirstUsable(net, Elements(first + "," + second)) == PrefixText(net, Unmap(net.parse(TrimSpace(second)).value))
  {
    TwoElements(first, second);
    BeforeCommaFirst(first, second);
    assert [first, second][1..] == [second];
  }

  const UNKNOWN := "unknown"
  const ADDRESS := "203.0.113.9"

  lemma Trimmed(s: string)
    requires s != "" && !IsSpace(s[0]) && !IsSpace(s[|s| - 1])
    ensures TrimSpace(s) == s && TrimSpace([' '] + s) == s
  {
    assert ([' '] + s)[1..] == s;
  }

  lemma Letters()
    ensures !IsSpace('u') && !IsSpace('n') && !IsSpace('2') && !IsSpace('9') && IsSpace(' ')
  {
  }

  lemma NoCommas()
    ensures ',' !in UNKNOWN && ',' !in ADDRESS
  {
  }

  /** A list that some proxies send: its only address is dropped. */
  lemma UnknownHidesAddress(net: Net, a: Addr)
    requires net.parse(UNKNOWN) == None && net.parse(ADDRESS) == Some(a) && a.bits != 0
    ensures CanonicalIP(net, UNKNOWN + "," + ([' '] + ADDRESS)) == ""
    ensures FirstUsable(net, Elements(UNKNOWN + "," + ([' '] + ADDRESS))) == PrefixText(net, Unmap(a))
  {
    Letters();
    NoCommas();
    Trimmed(UNKNOWN);
    Trimmed(ADDRESS);
    FirstHidesSecond(net, UNKNOWN, [' '] + ADDRESS);
  }

  lemma {:induction false} BeforeCommaFirst(first: string, rest: string)
    requires ',' !in first
    ensures BeforeComma(first + "," + rest) == first
  {
    var s := first + "," + rest;
    if first != "" {
      assert s[1..] == first[1..] + "," + rest;
      BeforeCommaFirst(first[1..], rest);
    }
  }

  lemma {:induction false} BeforeCommaAll(s: string)
    requires ',' !in s
    ensures BeforeComma(s) == s
  {
    if s != "" {
      BeforeCommaAll(s[1..]);
    }
  }

  /** Every hashed column of the entry comes back as it was written: the caller's side of read-back verification. */
  predicate ColumnsKeep(inet: string -> Option<string>, e: Entry) {
    var r := StoredAs(inet, e);
    r.Some? && SameRecord(e, r.value)
  }

  predicate LowerGroup(g: string) {
    |g| == 4 && forall i :: 0 <= i < 4 ==> g[i] in HEX
  }

  /** Lower-case groups of four with hyphens in the canonical places. */
  predicate CanonicalGroups(s: string, groups: nat) {
    if groups == 0 then s == ""
    else OpensCanonically(s, groups) && CanonicalGroups(s[4 + |Hyphen(groups)|..], groups - 1)
  }

  predicate OpensCanonically(s: string, groups: nat) {
    var n := 4 + |Hyphen(groups)|;
    |s| >= n && LowerGroup(s[..4]) && s[4..n] == Hyphen(groups)
  }

  lemma LowerHexKept(c: char)
    ensures HexValue(c) != None && LowerHex(c) == c <==> c in HEX
    ensures c in HEX ==> c != '-' && c != '{'
  {
    assert c in HEX <==> '0' <= c <= '9' || 'a' <= c <= 'f';
  }

  lemma LowerGroupKept(g: string)
    ensures HexGroup(g) && LowerAll(g) == g <==> LowerGroup(g)
  {
    forall i | 0 <= i < |g| ensures HexValue(g[i]) != None && LowerAll(g)[i] == g[i] <==> g[i] in HEX {
      LowerHexKept(g[i]);
    }
  }

  lemma GroupsStartWithHex(s: string, groups: nat)
    requires groups > 0 && |s| >= 4 && HexGroup(s[..4])
    ensures s[0] != '-' && LowerAll(s[..4])[0] != '-' && LowerAll(s[..4])[0] != '{'
  {
    assert HexValue(s[..4][0]) != None;
  }

  lemma CanonicalStart(s: string, groups: nat)
    requires groups > 0 && CanonicalGroups(s, groups)
    ensures s != "" && s[0] != '-' && s[0] != '{'
  {
    assert s[..4][0] in HEX;
    LowerHexKept(s[0]);
  }

  lemma AfterCanonicalGroup(s: string, groups: nat, rest: string)
    requires |s| >= 4 && s == s[..4] + (Hyphen(groups) + rest)
    requires groups > 1 ==> rest != "" && rest[0] != '-'
    requires groups == 1 ==> rest == ""
    ensures AfterGroup(s, groups) == rest
  {
    assert s[4..] == Hyphen(groups) + rest;
    if Hyphen(groups) == "-" {
      assert s[4] == '-' && s[5..] == rest;
    } else if groups > 1 {
      assert s[4] == rest[0];
    }
  }

  lemma ThreeParts(a: string, b: string, c: string)
    ensures var s := a + (b + c);
      s[..|a|] == a && s[|a|..|a| + |b|] == b && s[|a| + |b|..] == c
  {
  }

  lemma CutInThree(s: string, m: nat, n: nat)
    requires m <= n <= |s|
    ensures s == s[..m] + (s[m..n] + s[n..])
  {
  }

  lemma ReadStart(s: string, groups: nat, t: string)
    requires UuidGroups(s, groups) == Some(t)
    ensures if groups == 0 then t == "" else t != "" && t[0] != '-' && t[0] != '{'
  {
    if groups > 0 {
      GroupsStartWithHex(s, groups);
      assert t[0] == LowerAll(s[..4])[0];
    }
  }

  /** What reading a kept text group by group says of it. */
  lemma KeptGroupParts(s: string, groups: nat, t: string)
    requires groups > 0 && |s| >= 4 && HexGroup(s[..4]) && s == LowerAll(s[..4]) + (Hyphen(groups) + t)
    requires if groups == 1 then t == "" else t != "" && t[0] != '-'
    ensures LowerGroup(s[..4]) && |s| == 4 + |Hyphen(groups)| + |t|
    ensures s[4..4 + |Hyphen(groups)|] == Hyphen(groups) && s[4 + |Hyphen(groups)|..] == t && AfterGroup(s, groups) == t
  {
    ThreeParts(LowerAll(s[..4]), Hyphen(groups), t);
    LowerGroupKept(s[..4]);
    AfterCanonicalGroup(s, groups, t);
  }

  lemma CanonicalFromParts(s: string, groups: nat, t: string)
    requires groups > 0 && |s| >= 4 && LowerGroup(s[..4]) && |s| == 4 + |Hyphen(groups)| + |t|
    requires s[4..4 + |Hyphen(groups)|] == Hyphen(groups) && s[4 + |Hyphen(groups)|..] == t && CanonicalGroups(t, groups - 1)
    ensures CanonicalGroups(s, groups)
  {
  }

  lemma ReadParts(s: string, groups: nat) returns (t: string)
    requires groups > 0 && UuidGroups(s, groups) == Some(s)
    ensures |s| >= 4 && HexGroup(s[..4]) && UuidGroups(AfterGroup(s, groups), groups - 1) == Some(t)
    ensures s == LowerAll(s[..4]) + (Hyphen(groups) + t)
  {
    t := UuidGroups(AfterGroup(s, groups), groups - 1).value;
  }

  lemma {:induction false} KeptGroupsAreCanonical(s: string, groups: nat)
    requires UuidGroups(s, groups) == Some(s)
    ensures CanonicalGroups(s, groups)
  {
    if groups > 0 {
      var t := ReadParts(s, groups);
      ReadStart(AfterGroup(s, groups), groups - 1, t);
      KeptGroupParts(s, groups, t);
      KeptGroupsAreCanonical(t, groups - 1);
      CanonicalFromParts(s, groups, t);
    }
  }

  predicate GroupsKept(s: string, groups: nat) {
    UuidGroups(s, groups) == Some(s)
  }

  /** A lower-case group, its hyphen, and the rest, which is what is read next. */
  predicate GroupThen(s: string, groups: nat, rest: string) {
    |s| >= 4 && LowerGroup(s[..4]) && s == s[..4] + (Hyphen(groups) + rest) && AfterGroup(s, groups) == rest
  }

  lemma CanonicalParts(s: string, groups: nat) returns (rest: string)
    requires groups > 0 && CanonicalGroups(s, groups)
    ensures GroupThen(s, groups, rest) && CanonicalGroups(rest, groups - 1)
  {
    var n := 4 + |Hyphen(groups)|;
    rest := s[n..];
    if groups > 1 {
      CanonicalStart(rest, groups - 1);
    }
    CutInThree(s, 4, n);
    AfterCanonicalGroup(s, groups, rest);
  }

  lemma GroupKept(s: string, groups: nat, rest: string)
    requires groups > 0 && GroupThen(s, groups, rest)
    ensures GroupsKept(rest, groups - 1) ==> GroupsKept(s, groups)
  {
    LowerGroupKept(s[..4]);
  }

  /** Induction over groups: what holds of nothing, and of a text whenever it holds of its rest, holds of every canonical text. */
  lemma {:induction false} GroupInduction(canonical: (string, nat) -> bool, holds: (string, nat) -> bool, rest: (string, nat) -> string,
                                          s: string, groups: nat)
    requires canonical(s, groups)
    requires forall t :: canonical(t, 0) ==> holds(t, 0)
    requires forall t, n: nat :: n > 0 && canonical(t, n) ==> canonical(rest(t, n), n - 1) && (holds(rest(t, n), n - 1) ==> holds(t, n))
    ensures holds(s, groups)
    decreases groups
  {
    if groups > 0 {
      GroupInduction(canonical, holds, rest, rest(s, groups), groups - 1);
    }
  }

  /** What is read after a group, if there is one. */
  function AfterFirst(s: string, groups: nat): string {
    if |s| < 4 then "" else AfterGroup(s, groups)
  }

  lemma CanonicalGroupsAreKept(s: string, groups: nat)
    requires CanonicalGroups(s, groups)
    ensures GroupsKept(s, groups)
  {
    forall t, n: nat | n > 0 && CanonicalGroups(t, n)
      ensures CanonicalGroups(AfterFirst(t, n), n - 1) && (GroupsKept(AfterFirst(t, n), n - 1) ==> GroupsKept(t, n))
    {
      var rest := CanonicalParts(t, n);
      GroupKept(t, n, rest);
    }
    GroupInduction(CanonicalGroups, GroupsKept, AfterFirst, s, groups);
  }

  /** A uuid column returns exactly the canonical spellings unchanged; braces, capitals and missing hyphens are rewritten. */
  lemma UuidKeptIff(s: string)
    ensures UuidText(s) == Some(s) <==> CanonicalGroups(s, 8)
  {
    if |s| >= 2 && s[0] == '{' && s[|s| - 1] == '}' {
      BracesGo(s);
    } else {
      GroupsKeptIff(s, 8);
    }
  }

  lemma GroupsKeptIff(s: string, groups: nat)
    ensures GroupsKept(s, groups) <==> CanonicalGroups(s, groups)
  {
    if CanonicalGroups(s, groups) {
      CanonicalGroupsAreKept(s, groups);
    }
    if GroupsKept(s, groups) {
      KeptGroupsAreCanonical(s, groups);
    }
  }

  lemma BracesGo(s: string)
    requires |s| >= 2 && s[0] == '{' && s[|s| - 1] == '}'
    ensures UuidText(s) != Some(s) && !CanonicalGroups(s, 8)
  {
    if CanonicalGroups(s, 8) {
      CanonicalStart(s, 8);
    }
    var inner := s[1..|s| - 1];
    if UuidGroups(inner, 8).Some? {
      ReadStart(inner, 8, UuidGroups(inner, 8).value);
    }
  }

  predicate Fits(n: nat, s: string) {
    |s| <= n && '\0' !in s
  }

  lemma VarcharKeptIff(n: nat, s: string)
    ensures VarcharText(n, s) == Some(s) <==> Fits(n, s)
  {
  }

  /** A varchar column takes a text when at most spaces go beyond its length, and cuts only those. */
  lemma VarcharTakes(n: nat, s: string)
    ensures VarcharText(n, s).Some? <==> '\0' !in s && forall i :: n <= i < |s| ==> s[i] == ' '
    ensures VarcharText(n, s).Some? ==> VarcharText(n, s).value == if |s| <= n then s else s[..n]
  {
  }

  /** A uuid column takes a canonical text in braces too, and returns it without them. */
  lemma BracesAreCut(s: string)
    requires CanonicalGroups(s, 8)
    ensures UuidText("{" + s + "}") == Some(s)
  {
    var braced := "{" + s + "}";
    assert braced[1..|braced| - 1] == s;
    GroupsKeptIff(s, 8);
  }

  /** What strings.TrimSpace takes for a space. */
  lemma SpacesAre(c: char)
    ensures IsSpace(c) <==>
      c as int in {9, 10, 11, 12, 13, 32, 0x85, 0xA0, 0x1680, 0x2028, 0x2029, 0x202F, 0x205F, 0x3000} || 0x2000 <= c as int <= 0x200A
  {
  }

  predicate AllSpaces(s: string) {
    forall i :: 0 <= i < |s| ==> IsSpace(s[i])
  }

  predicate TightEnds(s: string) {
    s == "" || (!IsSpace(s[0]) && !IsSpace(s[|s| - 1]))
  }

  lemma {:induction false} TrimmedIsTight(s: string)
    ensures TightEnds(TrimSpace(s))
    decreases |s|
  {
    if s == "" {
    } else if IsSpace(s[0]) {
      TrimmedIsTight(s[1..]);
    } else if IsSpace(s[|s| - 1]) {
      TrimmedIsTight(s[..|s| - 1]);
    }
  }

  predicate CutsSpaces(s: string, i: nat, j: nat) {
    i <= j <= |s| && AllSpaces(s[..i]) && AllSpaces(s[j..])
  }

  lemma CutsFirst(s: string, i: nat, j: nat)
    requires s != "" && IsSpace(s[0]) && CutsSpaces(s[1..], i, j)
    ensures CutsSpaces(s, i + 1, j + 1) && s[1..][i..j] == s[i + 1..j + 1]
  {
    assert s[j + 1..] == s[1..][j..];
    var head := s[..i + 1];
    forall k | 0 <= k <= i ensures IsSpace(head[k]) {
      assert k > 0 ==> s[k] == s[1..][..i][k - 1];
    }
  }

  lemma CutsLast(s: string, i: nat, j: nat)
    requires s != "" && IsSpace(s[|s| - 1]) && CutsSpaces(s[..|s| - 1], i, j)
    ensures CutsSpaces(s, i, j) && s[..|s| - 1][i..j] == s[i..j]
  {
    assert s[..i] == s[..|s| - 1][..i];
    var tail := s[j..];
    forall k | 0 <= k < |tail| ensures IsSpace(tail[k]) {
      assert k < |s| - j - 1 ==> s[j + k] == s[..|s| - 1][j..][k];
    }
  }

  lemma {:induction false} TrimIsSlice(s: string) returns (i: nat, j: nat)
    ensures CutsSpaces(s, i, j) && TrimSpace(s) == s[i..j]
    decreases |s|
  {
    i, j := 0, |s|;
    if s != "" && IsSpace(s[0]) {
      i, j := TrimIsSlice(s[1..]);
      CutsFirst(s, i, j);
      i, j := i + 1, j + 1;
    } else if s != "" && IsSpace(s[|s| - 1]) {
      i, j := TrimIsSlice(s[..|s| - 1]);
      CutsLast(s, i, j);
    }
  }

  /** Trimming cuts all the spaces at both ends, and nothing else. */
  lemma TrimCutsSpaces(s: string) returns (left: string, right: string)
    ensures s == left + TrimSpace(s) + right && AllSpaces(left) && AllSpaces(right)
    ensures TrimSpace(s) != "" ==> !IsSpace(TrimSpace(s)[0]) && !IsSpace(TrimSpace(s)[|TrimSpace(s)| - 1])
  {
    TrimmedIsTight(s);
    var i, j := TrimIsSlice(s);
    left, right := s[..i], s[j..];
  }

  predicate UuidsCanonical(e: Entry) {
    (e.userID == "" || CanonicalGroups(e.userID, 8)) && (e.resourceID == "" || CanonicalGroups(e.resourceID, 8))
  }

  predicate TextsFit(e: Entry) {
    && Fits(100, e.action) && Fits(100, e.resourceType) && Fits(50, e.eventType) && Fits(20, e.status)
    && Fits(2, e.regionCode) && Fits(|e.userAgent|, e.userAgent) && Fits(|e.metadata|, e.metadata)
    && Fits(|e.hashPrev|, e.hashPrev)
  }

  predicate UuidsRead(e: Entry) {
    Nullable(e.userID, UuidText) == Some(e.userID) && Nullable(e.resourceID, UuidText) == Some(e.resourceID)
  }

  predicate TextsRead(e: Entry) {
    && VarcharText(100, e.action) == Some(e.action) && VarcharText(100, e.resourceType) == Some(e.resourceType)
    && VarcharText(50, e.eventType) == Some(e.eventType) && VarcharText(20, e.status) == Some(e.status)
    && Nullable(e.userAgent, PlainText) == Some(e.userAgent)
    && Nullable(e.regionCode, s => VarcharText(2, s)) == Some(e.regionCode)
    && PlainText(e.metadata) == Some(e.metadata) && PlainText(e.hashPrev) == Some(e.hashPrev)
  }

  /** An entry survives when each of its columns returns the value written. */
  lemma ColumnsKeepEach(inet: string -> Option<string>, e: Entry)
    ensures ColumnsKeep(inet, e) <==> UuidsRead(e) && TextsRead(e) && Nullable(e.ipAddress, inet) == Some(e.ipAddress)
  {
  }

  lemma UuidColumnIff(s: string)
    ensures Nullable(s, UuidText) == Some(s) <==> s == "" || CanonicalGroups(s, 8)
  {
    UuidKeptIff(s);
  }

  lemma UuidsReadIff(e: Entry)
    ensures UuidsRead(e) <==> UuidsCanonical(e)
  {
    UuidColumnIff(e.userID);
    UuidColumnIff(e.resourceID);
  }

  lemma TextsReadIff(e: Entry)
    ensures TextsRead(e) <==> TextsFit(e)
  {
    VarcharKeptIff(100, e.action);
    VarcharKeptIff(100, e.resourceType);
    VarcharKeptIff(50, e.eventType);
    VarcharKeptIff(20, e.status);
    VarcharKeptIff(2, e.regionCode);
  }

  /** When an entry survives the columns, in terms of its fields alone. */
  lemma ColumnsKeepIff(inet: string -> Option<string>, e: Entry)
    ensures ColumnsKeep(inet, e) <==> UuidsCanonical(e) && TextsFit(e) && (e.ipAddress == "" || inet(e.ipAddress) == Some(e.ipAddress))
  {
    ColumnsKeepEach(inet, e);
    UuidsReadIff(e);
    TextsReadIff(e);
  }

  /**
   Two stored rows with one v1 text: a bar may stand in the action, or between the action and
   the resource type and so in the latter. Whoever may store one and has the room may store both.
   */
  lemma StoredBarMoves(inet: string -> Option<string>, e: Entry, x: string, y: string, z: string, prev: string)
    ensures var e1, e2 := e.(action := x + "|" + y, resourceType := z), e.(action := x, resourceType := y + "|" + z);
      && PreimageV1(e1, prev) == PreimageV1(e2, prev) && !SameRecord(e1, e2)
      && (ColumnsKeep(inet, e1) && |y| + 1 + |z| <= 100 <==> ColumnsKeep(inet, e2) && |x| + 1 + |y| <= 100)
  {
    var e1, e2 := e.(action := x + "|" + y, resourceType := z), e.(action := x, resourceType := y + "|" + z);
    var before, after := [e.userID], [e.resourceID, e.eventType, e.status];
    assert V1Fields(e1) == before + [x + "|" + y, z] + after && V1Fields(e2) == before + [x, y + "|" + z] + after;
    BarMoves(before, x, y, z, after);
    ColumnsKeepIff(inet, e1);
    ColumnsKeepIff(inet, e2);
    TextsFitAlike(e, x, y, z);
    assert e1.action != e2.action;
  }

  lemma TextsFitAlike(e: Entry, x: string, y: string, z: string)
    ensures TextsFit(e.(action := x + "|" + y, resourceType := z)) && |y| + 1 + |z| <= 100
      <==> TextsFit(e.(action := x, resourceType := y + "|" + z)) && |x| + 1 + |y| <= 100
  {
  }

  /** So every stored row has such pairs beside it, and where one of a pair links under v1 the other links in its place. */
  lemma StoredV1IsAmbiguous(env: Env, inet: string -> Option<string>, e: Entry, x: string, y: string, z: string, prev: string)
    requires ColumnsKeep(inet, e) && '\0' !in x && '\0' !in y && '\0' !in z && |x| + 1 + |y| <= 100 && |y| + 1 + |z| <= 100
    ensures var e1, e2 := e.(action := x + "|" + y, resourceType := z), e.(action := x, resourceType := y + "|" + z);
      && ColumnsKeep(inet, e1) && ColumnsKeep(inet, e2) && !SameRecord(e1, e2)
      && (LinksV1(env, e1, prev) <==> LinksV1(env, e2, prev))
  {
    StoredBarMoves(inet, e, x, y, z, prev);
    ColumnsKeepIff(inet, e);
    ColumnsKeepIff(inet, e.(action := x + "|" + y, resourceType := z));
  }
}
