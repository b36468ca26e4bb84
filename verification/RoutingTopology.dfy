/** The explanation of the generated routing order, and the inspection of a domain under it. */
module RoutingTopology {
  import opened Prelude
  import opened Text
  import opened Desired
  import opened Rules
  import opened Policy
  import opened Wildcard

  // ------------------------------------------------------------------
  // Domain matchers

  datatype DomainMatcher = Exact(value: string) | Suffix(value: string) | Keyword(value: string) | Pattern(value: string) | CatchAll

  /** UTF-8. */
  function Encode(c: char): seq<byte> {
    var n := c as int;
    if n < 0x80 then [n]
    else if n < 0x800 then [0xC0 + n / 0x40, 0x80 + n % 0x40]
    else if n < 0x1_0000 then [0xE0 + n / 0x1000, 0x80 + n / 0x40 % 0x40, 0x80 + n % 0x40]
    else [0xF0 + n / 0x4_0000, 0x80 + n / 0x1000 % 0x40, 0x80 + n / 0x40 % 0x40, 0x80 + n % 0x40]
  }

  function Bytes(s: string): seq<byte> {
    if s == [] then [] else Encode(s[0]) + Bytes(s[1..])
  }

  /** The bytes are as many as the length in bytes says. */
  lemma {:induction false} BytesLength(s: string)
    ensures |Bytes(s)| == ByteLength(s)
  {
    if s != [] {
      BytesLength(s[1..]);
    }
  }

  /** The meaning of a matcher: a suffix covers whole labels, a pattern is a glob. */
  ghost predicate Covers(m: DomainMatcher, domain: string) {
    match m
    case Exact(value) => domain == value
    case Suffix(value) => exists k :: 0 <= k < |Split(domain, '.')| && Split(domain, '.')[k..] == Split(value, '.')
    case Keyword(value) => exists a, b :: domain == a + value + b
    case Pattern(value) => GlobText(value, domain)
    case CatchAll => true
  }

  /** `?` stands for one character, `*` for any text, every other character for itself. */
  ghost predicate GlobText(pattern: string, text: string) {
    if pattern == [] then text == []
    else if pattern[0] == '*' then exists k :: 0 <= k <= |text| && GlobText(pattern[1..], text[k..])
    else text != [] && (pattern[0] == '?' || pattern[0] == text[0]) && GlobText(pattern[1..], text[1..])
  }

  predicate PlainText(s: string) {
    forall i :: 0 <= i < |s| ==> s[i] < '\U{80}'
  }

  lemma {:induction false} PlainBytes(s: string, k: nat)
    requires PlainText(s) && k <= |s|
    ensures |Bytes(s)| == |s| && Bytes(s)[k..] == Bytes(s[k..])
    ensures k < |s| ==> Bytes(s)[k] == s[k] as int
  {
    if s == [] {
    } else if k == 0 {
      PlainBytes(s[1..], 0);
      assert s[0..] == s && Bytes(s)[0..] == Bytes(s);
    } else {
      PlainBytes(s[1..], k - 1);
      assert s[1..][k - 1..] == s[k..];
      assert Bytes(s) == [s[0] as int] + Bytes(s[1..]);
      assert Bytes(s)[k..] == Bytes(s[1..])[k - 1..];
    }
  }

  /** On plain text, matching the bytes is matching the characters, whatever the pattern is. */
  lemma {:induction false} GlobOfBytes(pattern: string, text: string)
    requires PlainText(text)
    ensures Glob(Bytes(pattern), Bytes(text)) <==> GlobText(pattern, text)
    decreases |pattern|
  {
    hide Encode;
    PlainBytes(text, 0);
    if pattern != [] {
      var c, rest := pattern[0], Bytes(pattern[1..]);
      EncodeFirst(c);
      if c == '*' {
        assert Bytes(pattern) == [STAR] + rest && Bytes(pattern)[1..] == rest;
        forall k | 0 <= k <= |text| ensures Glob(rest, Bytes(text)[k..]) <==> GlobText(pattern[1..], text[k..]) {
          PlainBytes(text, k);
          GlobOfBytes(pattern[1..], text[k..]);
        }
      } else if c < '\U{80}' {
        assert Bytes(pattern) == [c as int] + rest && Bytes(pattern)[1..] == rest;
        if text != [] {
          PlainBytes(text, 1);
          GlobOfBytes(pattern[1..], text[1..]);
        }
      } else {
        assert Bytes(pattern)[0] == Encode(c)[0];
      }
    }
  }

  lemma EncodeFirst(c: char)
    ensures Encode(c) != [] && (if c < '\U{80}' then Encode(c) == [c as int] else Encode(c)[0] >= 0xC0)
  {
  }

  predicate EndsWith(s: string, end: string) {
    |end| <= |s| && s[|s| - |end|..] == end
  }

  predicate OccursAt(s: string, part: string, i: int) {
    0 <= i <= |s| - |part| && s[i..i + |part|] == part
  }

  predicate Contains(s: string, part: string) {
    exists i :: 0 <= i <= |s| && OccursAt(s, part, i)
  }

  lemma SuffixIsLabelSuffix(value: string, domain: string)
    ensures domain == value || EndsWith(domain, "." + value) <==> Covers(Suffix(value), domain)
  {
    hide Split, EndsWith;
    if domain == value {
      assert Split(domain, '.')[0..] == Split(domain, '.');
    } else if EndsWith(domain, "." + value) {
      EndCoversLabels(value, domain);
    } else if Covers(Suffix(value), domain) {
      LabelsAreEnd(value, domain);
    }
  }

  lemma EndCoversLabels(value: string, domain: string)
    requires EndsWith(domain, "." + value)
    ensures Covers(Suffix(value), domain)
  {
    hide Split;
    var n := |domain| - |value| - 1;
    assert domain == domain[..n] + ['.'] + value;
    SplitConcat(domain[..n], value, '.');
    var k := |Split(domain[..n], '.')|;
    assert Split(domain, '.')[k..] == Split(value, '.');
  }

  lemma LabelsAreEnd(value: string, domain: string)
    requires Covers(Suffix(value), domain)
    ensures domain == value || EndsWith(domain, "." + value)
  {
    hide Split, Join;
    var labels := Split(domain, '.');
    var k :| 0 <= k < |labels| && labels[k..] == Split(value, '.');
    JoinSplit(domain, '.');
    JoinSplit(value, '.');
    if k == 0 {
      assert labels[0..] == labels;
    } else {
      JoinConcat(labels[..k], labels[k..], '.');
      assert labels[..k] + labels[k..] == labels;
      var front := Join(labels[..k], '.');
      assert domain == front + ['.'] + value;
      assert domain[|front|..] == "." + value;
    }
  }

  lemma ContainsMeans(value: string, domain: string)
    ensures Contains(domain, value) <==> Covers(Keyword(value), domain)
  {
    if Contains(domain, value) {
      var i :| 0 <= i <= |domain| && OccursAt(domain, value, i);
      assert domain == domain[..i] + value + domain[i + |value|..];
    }
    if Covers(Keyword(value), domain) {
      var a, b :| domain == a + value + b;
      assert OccursAt(domain, value, |a|);
    }
  }

  predicate ValidLabel(part: string) {
    && part != [] && ByteLength(part) <= 63 && part[0] != '-' && part[|part| - 1] != '-'
    && forall i :: 0 <= i < |part| ==> AsciiAlphanumeric(part[i]) || part[i] == '-'
  }

  predicate ValidDomain(domain: string) {
    domain != [] && ByteLength(domain) <= 253 && forall i :: 0 <= i < |Split(domain, '.')| ==> ValidLabel(Split(domain, '.')[i])
  }

  /** A label of a host name: letters, digits and inner hyphens, up to 63 of them. */
  predicate HostLabel(part: string) {
    1 <= |part| <= 63 && part[0] != '-' && part[|part| - 1] != '-'
    && forall i :: 0 <= i < |part| ==> 'a' <= part[i] <= 'z' || 'A' <= part[i] <= 'Z' || '0' <= part[i] <= '9' || part[i] == '-'
  }

  lemma {:induction false} PlainLength(s: string)
    requires PlainText(s)
    ensures ByteLength(s) == |s|
  {
    if s != [] {
      PlainLength(s[1..]);
    }
  }

  lemma HostLabelIsValid(part: string)
    ensures ValidLabel(part) <==> HostLabel(part)
  {
    if HostLabel(part) || ValidLabel(part) {
      assert PlainText(part);
      PlainLength(part);
    }
  }

  lemma {:induction false} PlainJoin(parts: seq<string>)
    requires forall i :: 0 <= i < |parts| ==> HostLabel(parts[i])
    ensures PlainText(Join(parts, '.'))
  {
    if |parts| > 1 {
      PlainJoin(parts[1..]);
    }
  }

  lemma NoDotInLabel(parts: seq<string>)
    requires forall i :: 0 <= i < |parts| ==> HostLabel(parts[i])
    ensures forall x :: x in parts ==> '.' !in x
  {
  }

  /** The valid domains are exactly the sequences of host labels joined by dots, of at most 253 characters. */
  lemma ValidDomainMeans(domain: string)
    ensures ValidDomain(domain) <==>
              |domain| <= 253
              && exists parts :: parts != [] && Join(parts, '.') == domain && forall i :: 0 <= i < |parts| ==> HostLabel(parts[i])
  {
    hide Split, Join, ValidLabel, HostLabel;
    if ValidDomain(domain) {
      var parts := Split(domain, '.');
      JoinSplit(domain, '.');
      forall i | 0 <= i < |parts| ensures HostLabel(parts[i]) {
        HostLabelIsValid(parts[i]);
      }
      PlainJoin(parts);
      PlainLength(domain);
    }
    if |domain| <= 253 {
      if parts :| parts != [] && Join(parts, '.') == domain && forall i :: 0 <= i < |parts| ==> HostLabel(parts[i]) {
        NoDotInLabel(parts);
        SplitJoin(parts, '.');
        PlainJoin(parts);
        PlainLength(domain);
        forall i | 0 <= i < |parts| ensures ValidLabel(parts[i]) {
          HostLabelIsValid(parts[i]);
        }
        NotEmptyJoin(parts);
      }
    }
  }

  lemma NotEmptyJoin(parts: seq<string>)
    requires parts != [] && HostLabel(parts[0])
    ensures Join(parts, '.') != []
  {
  }

  lemma ValidDomainChars(domain: string, c: char)
    requires ValidDomain(domain) && c in domain
    ensures AsciiAlphanumeric(c) || c == '-' || c == '.'
  {
    hide Split;
    if c != '.' {
      CharsAreInParts(domain, '.', c);
      var part :| part in Split(domain, '.') && c in part;
      var i :| 0 <= i < |Split(domain, '.')| && Split(domain, '.')[i] == part;
      assert ValidLabel(part);
    }
  }

  lemma {:induction false} NoStarByte(s: string)
    requires forall c :: c in s ==> AsciiAlphanumeric(c) || c == '-' || c == '.'
    ensures STAR !in Bytes(s)
  {
    if s != [] {
      assert s[0] in s && forall c :: c in s[1..] ==> c in s;
      NoStarByte(s[1..]);
    }
  }

  method MatcherMatches(m: DomainMatcher, domain: string) returns (r: bool)
    requires ValidDomain(domain)
    ensures r <==> Covers(m, domain)
  {
    hide ValidDomain, Split, Glob, GlobText, Bytes;
    match m {
      case Exact(value) => r := domain == value;
      case Suffix(value) =>
        SuffixIsLabelSuffix(value, domain);
        r := domain == value || EndsWith(domain, "." + value);
      case Keyword(value) =>
        ContainsMeans(value, domain);
        r := Contains(domain, value);
      case Pattern(value) =>
        forall c | c in domain ensures AsciiAlphanumeric(c) || c == '-' || c == '.' {
          ValidDomainChars(domain, c);
        }
        NoStarByte(domain);
        assert PlainText(domain) by {
          assert forall i :: 0 <= i < |domain| ==> domain[i] in domain;
        }
        GlobOfBytes(value, domain);
        r := WildcardMatches(Bytes(value), Bytes(domain));
      case CatchAll => r := true;
    }
  }

  /** The matcher a line stands for; without one it depends on runtime data. */
  function LineMatcher(line: string): Option<DomainMatcher> {
    var fields := Fields(line);
    var kind := fields[0];
    var value := if |fields| > 1 then Lower(fields[1]) else [];
    if kind == "DOMAIN" && value != [] then Some(Exact(value))
    else if kind == "DOMAIN-SUFFIX" && value != [] then Some(Suffix(value))
    else if kind == "DOMAIN-KEYWORD" && value != [] then Some(Keyword(value))
    else if kind == "DOMAIN-WILDCARD" && value != [] then Some(Pattern(value))
    else if kind == MATCH then Some(CatchAll)
    else None
  }

  /** The value of a line, its second field. */
  function LineValue(line: string): string {
    if |Fields(line)| > 1 then Lower(Fields(line)[1]) else []
  }

  /** The line says by itself which domains it covers. */
  ghost predicate Readable(line: string) {
    var kind := Fields(line)[0];
    kind == "MATCH" || (LineValue(line) != [] && kind in {"DOMAIN", "DOMAIN-SUFFIX", "DOMAIN-KEYWORD", "DOMAIN-WILDCARD"})
  }

  /** What a line says about a domain, read off its text. */
  ghost predicate LineCovers(line: string, domain: string) {
    var kind, value := Fields(line)[0], LineValue(line);
    || kind == "MATCH"
    || (value != [] && kind == "DOMAIN" && domain == value)
    || (value != [] && kind == "DOMAIN-SUFFIX"
        && exists k :: 0 <= k < |Split(domain, '.')| && Split(domain, '.')[k..] == Split(value, '.'))
    || (value != [] && kind == "DOMAIN-KEYWORD" && exists a, b :: domain == a + value + b)
    || (value != [] && kind == "DOMAIN-WILDCARD" && GlobText(value, domain))
  }

  /** The matcher of a line covers exactly the domains that its text says. */
  lemma LineMatcherMeans(line: string, domain: string)
    ensures LineMatcher(line).Some? <==> Readable(line)
    ensures LineMatcher(line).Some? ==> (Covers(LineMatcher(line).value, domain) <==> LineCovers(line, domain))
    ensures LineCovers(line, domain) ==> Readable(line)
  {
    hide Fields, Split, Lower, GlobText;
  }

  function Supported(lines: seq<string>): seq<DomainMatcher> {
    if lines == [] then []
    else
      var n := |lines| - 1;
      match LineMatcher(lines[n])
      case Some(m) => Supported(lines[..n]) + [m]
      case None => Supported(lines[..n])
  }

  predicate AnyUnsupported(lines: seq<string>) {
    exists i :: 0 <= i < |lines| && LineMatcher(lines[i]).None?
  }

  /** Some line depends on runtime data. */
  ghost predicate Undecided(lines: seq<string>) {
    exists i :: 0 <= i < |lines| && !Readable(lines[i])
  }

  lemma UnsupportedIsUndecided(lines: seq<string>)
    ensures AnyUnsupported(lines) <==> Undecided(lines)
  {
    hide LineMatcher, Readable, LineCovers;
    forall i | 0 <= i < |lines| ensures LineMatcher(lines[i]).Some? <==> Readable(lines[i]) {
      LineMatcherMeans(lines[i], []);
    }
  }

  method DomainMatchers(lines: seq<string>) returns (matchers: seq<DomainMatcher>, unsupported: bool)
    ensures matchers == Supported(lines) && unsupported == AnyUnsupported(lines)
    ensures (forall domain :: AnyCovers(matchers, domain) <==> Answers(lines, domain)) && (unsupported <==> Undecided(lines))
  {
    hide LineMatcher, Undecided, Answers, AnyCovers;
    forall domain ensures AnyCovers(Supported(lines), domain) <==> Answers(lines, domain) {
      SupportedAnswers(lines, domain);
    }
    UnsupportedIsUndecided(lines);
    matchers, unsupported := [], false;
    for i := 0 to |lines|
      invariant matchers == Supported(lines[..i])
      invariant unsupported <==> exists k :: 0 <= k < i && LineMatcher(lines[k]).None?
    {
      assert lines[..i + 1][..i] == lines[..i];
      match LineMatcher(lines[i]) {
        case Some(m) => matchers := matchers + [m];
        case None => unsupported := true;
      }
    }
    assert lines[..|lines|] == lines;
  }

  /** Some line certainly covers the domain. */
  ghost predicate Answers(lines: seq<string>, domain: string) {
    exists i :: 0 <= i < |lines| && LineCovers(lines[i], domain)
  }

  ghost predicate AnyCovers(matchers: seq<DomainMatcher>, domain: string) {
    exists m :: m in matchers && Covers(m, domain)
  }

  lemma {:induction false} SupportedMembers(lines: seq<string>, m: DomainMatcher)
    ensures m in Supported(lines) <==> exists i :: 0 <= i < |lines| && LineMatcher(lines[i]) == Some(m)
  {
    hide LineMatcher;
    if lines != [] {
      var n := |lines| - 1;
      SupportedMembers(lines[..n], m);
      assert LineMatcher(lines[n]) == Some(m) ==> m in Supported(lines);
      if m in Supported(lines[..n]) {
        var i :| 0 <= i < n && LineMatcher(lines[..n][i]) == Some(m);
        assert LineMatcher(lines[i]) == Some(m);
      }
      if i :| 0 <= i < |lines| && LineMatcher(lines[i]) == Some(m) {
        if i < n {
          assert lines[..n][i] == lines[i];
        }
      }
    }
  }

  lemma SupportedAnswers(lines: seq<string>, domain: string)
    ensures AnyCovers(Supported(lines), domain) <==> Answers(lines, domain)
  {
    hide LineMatcher, Covers, Supported, Readable, LineCovers;
    if AnyCovers(Supported(lines), domain) {
      var m :| m in Supported(lines) && Covers(m, domain);
      SupportedMembers(lines, m);
      var i :| 0 <= i < |lines| && LineMatcher(lines[i]) == Some(m);
      LineMatcherMeans(lines[i], domain);
    }
    if Answers(lines, domain) {
      var i :| 0 <= i < |lines| && LineCovers(lines[i], domain);
      LineMatcherMeans(lines[i], domain);
      SupportedMembers(lines, LineMatcher(lines[i]).value);
    }
  }

  // ------------------------------------------------------------------
  // Compilation keeps every answer

  lemma DestinationIsUpper(kind: string)
    requires kind in CLASSICAL_DESTINATION
    ensures NoLowercase(kind) && kind != MATCH && kind != "RULE-SET"
  {
  }

  lemma SourceIsUpper(kind: string)
    requires kind in CLASSICAL_SOURCE
    ensures NoLowercase(kind) && kind != MATCH && kind != "RULE-SET"
  {
  }

  lemma ProcessIsUpper(kind: string)
    requires kind in CLASSICAL_PROCESS
    ensures NoLowercase(kind) && kind != MATCH && kind != "RULE-SET"
  {
  }

  lemma ClassicalIsUpper(kind: string)
    requires ClassicalKind(kind)
    ensures NoLowercase(kind) && kind != MATCH && kind != "RULE-SET"
  {
    hide NoLowercase;
    if kind in CLASSICAL_DESTINATION {
      DestinationIsUpper(kind);
    } else if kind in CLASSICAL_SOURCE {
      SourceIsUpper(kind);
    } else {
      ProcessIsUpper(kind);
    }
  }

  lemma ValidLineKind(line: string)
    requires ValidLine(line)
    ensures ClassicalKind(Fields(line)[0])
  {
    hide ClassicalKind, NoResolveKind, ByteLength, HasControl, Trim, Split;
  }

  /** Valid lines that differ only in case stand for the same matcher. */
  lemma SameLowerSameMatcher(a: string, b: string)
    requires ValidLine(a) && ValidLine(b) && Lower(a) == Lower(b)
    ensures LineMatcher(a) == LineMatcher(b)
  {
    hide ValidLine, ClassicalKind, Split, Trim, Lower;
    ValidLineKind(a);
    ValidLineKind(b);
    LowerFields(a);
    LowerFields(b);
    var fa, fb := Fields(a), Fields(b);
    assert |fa| == |fb| && Lower(fa[0]) == Lower(fb[0]) && (|fa| > 1 ==> Lower(fa[1]) == Lower(fb[1]));
    ClassicalIsUpper(fa[0]);
    ClassicalIsUpper(fb[0]);
    LowerInjective(fa[0], fb[0]);
  }

  lemma LowerFields(line: string)
    ensures Fields(Lower(line)) == LowerAll(Fields(line))
  {
    hide Split, Trim, Lower;
    LowerSplit(line);
    var parts := Split(line, ',');
    forall i | 0 <= i < |parts| ensures Trim(Lower(parts[i])) == Lower(Trim(parts[i])) {
      TrimLower(parts[i]);
    }
  }

  /** Valid lines that differ only in case say the same. */
  lemma SameLowerSameCover(a: string, b: string, domain: string)
    requires ValidLine(a) && ValidLine(b) && Lower(a) == Lower(b)
    ensures (LineCovers(a, domain) <==> LineCovers(b, domain)) && (Readable(a) <==> Readable(b))
  {
    hide ValidLine, LineMatcher, Covers, Readable, LineCovers, Lower;
    SameLowerSameMatcher(a, b);
    LineMatcherMeans(a, domain);
    LineMatcherMeans(b, domain);
  }

  /** The case-insensitive filter changes neither what certainly matches nor whether something is uncertain. */
  lemma FilterKeepsAnswers(lines: seq<string>, domain: string)
    requires forall x :: x in lines ==> ValidLine(x)
    ensures Answers(FirstOccurrences(lines), domain) <==> Answers(lines, domain)
    ensures Undecided(FirstOccurrences(lines)) <==> Undecided(lines)
  {
    hide ValidLine, Readable, LineCovers, FirstOccurrences, Lower;
    var kept := FirstOccurrences(lines);
    forall i | 0 <= i < |kept| ensures exists k :: 0 <= k < |lines| && lines[k] == kept[i] {
      FirstOccurrencesRepresent(lines, kept[i]);
    }
    forall k | 0 <= k < |lines|
      ensures exists i :: 0 <= i < |kept| && (LineCovers(kept[i], domain) <==> LineCovers(lines[k], domain)) && (Readable(kept[i]) <==> Readable(lines[k]))
    {
      FirstOccurrencesRepresent(lines, lines[k]);
      var y :| y in kept && Lower(y) == Lower(lines[k]);
      FirstOccurrencesRepresent(lines, y);
      SameLowerSameCover(y, lines[k], domain);
      var i :| 0 <= i < |kept| && kept[i] == y;
      assert LineCovers(kept[i], domain) <==> LineCovers(lines[k], domain);
    }
  }

  /** A compiled payload, read back line by line, answers like all its layers together. */
  lemma CompilationKeepsAnswers(entries: seq<RuleEntry>, local: string, sources: seq<RuleSetSource>, domain: string)
    requires CompiledPayload(entries, local, sources).Some?
    ensures var lines := Lines(CompiledPayload(entries, local, sources).value);
            var layers := Layers(entries, local, sources).value;
            && (Answers(lines, domain) <==> Answers(layers, domain))
            && (Undecided(lines) <==> Undecided(layers))
  {
    hide ValidLine, Answers, Undecided, FirstOccurrences, Join, Lines, Layers;
    CompiledLines(entries, local, sources);
    FilterKeepsAnswers(Layers(entries, local, sources).value, domain);
  }

  /** A compiled payload covers a domain exactly if a line of some entry, of the local payload or of some source does, and is
      undecided exactly if one of them is. */
  lemma CompilationAnswersParts(entries: seq<RuleEntry>, local: string, sources: seq<RuleSetSource>, domain: string)
    requires CompiledPayload(entries, local, sources).Some?
    ensures var lines := Lines(CompiledPayload(entries, local, sources).value);
            && (Answers(lines, domain) <==> exists o, line :: LineFrom(entries, local, sources, o, line) && LineCovers(line, domain))
            && (Undecided(lines) <==> exists o, line :: LineFrom(entries, local, sources, o, line) && !Readable(line))
  {
    hide ValidLine, FirstOccurrences, Lines, Layers, LineFrom, LineCovers, Readable, Lower, Ascending;
    var lines := Lines(CompiledPayload(entries, local, sources).value);
    CompiledLines(entries, local, sources);
    CompiledPayloadMeans(entries, local, sources);
    var origins :| PayloadFrom(entries, local, sources, lines, origins);
    forall o, line | LineFrom(entries, local, sources, o, line)
      ensures exists k :: 0 <= k < |lines| && (LineCovers(lines[k], domain) <==> LineCovers(line, domain)) && (Readable(lines[k]) <==> Readable(line))
    {
      assert Represented(lines, origins, o, line);
      var k :| 0 <= k < |lines| && Lower(lines[k]) == Lower(line);
      OriginLineValid(entries, local, sources, o, line);
      OriginLineValid(entries, local, sources, origins[k], lines[k]);
      SameLowerSameCover(lines[k], line, domain);
      assert LineCovers(lines[k], domain) <==> LineCovers(line, domain);
    }
    forall k | 0 <= k < |lines| ensures LineFrom(entries, local, sources, origins[k], lines[k]) {
    }
  }

  // ------------------------------------------------------------------
  // The topology

  datatype TopologyState = Ready | Dynamic | Unresolved

  datatype TargetKind = ToDirect | ToReject | ToPool | ToProfile | ToFallback | Unavailable

  datatype RuntimeResolution = RuntimeResolution(id: string, available: bool, adapterPresent: bool)

  datatype Availability = Availability(adapters: set<string>, runtimes: map<string, RuntimeResolution>)

  datatype PathSource = FromProvider(slug: string) | FromRule(id: string) | ImplicitFallback

  datatype TopologyPath = TopologyPath(
    order: nat, source: PathSource, matcher: string, entryCount: nat, target: string, targetKind: TargetKind,
    profile: Option<string>, runtime: Option<string>, state: TopologyState, matchers: seq<DomainMatcher>, unsupported: bool)

  datatype TopologyPool = TopologyPool(id: string, kind: PoolKind, state: TopologyState)

  datatype Topology = Topology(paths: seq<TopologyPath>, pools: map<string, TopologyPool>)

  datatype Inputs = Inputs(
    ruleSets: seq<RoutingRuleSet>, policy: ClientPolicy, profiles: seq<Profile>, entries: map<string, seq<RuleEntry>>,
    sources: map<string, seq<RuleSetSource>>, availability: Availability)

  /** Enabled pools by ID; a later pool replaces an earlier one of the same ID. */
  function EnabledPools(pools: seq<TransportPool>): map<string, TransportPool> {
    if pools == [] then map[]
    else
      var n := |pools| - 1;
      if pools[n].enabled then EnabledPools(pools[..n])[pools[n].id := pools[n]] else EnabledPools(pools[..n])
  }

  predicate Dangling(input: Inputs, member: PoolMember) {
    match member
    case ByProfile(name) => !Available(input.profiles, name)
    case ByPool(id) => id !in EnabledPools(input.policy.pools)
    case ByCapability(capability) => !Offers(input.profiles, capability)
    case _ => false
  }

  function DescribePool(input: Inputs, pool: TransportPool): TopologyPool {
    var unresolved := exists i :: 0 <= i < |pool.members| && Dangling(input, pool.members[i]);
    TopologyPool(pool.id, pool.kind, if unresolved || pool.members == [] then Unresolved else Dynamic)
  }

  function DescribePools(input: Inputs): map<string, TopologyPool> {
    var pools := EnabledPools(input.policy.pools);
    map id | id in pools :: DescribePool(input, pools[id])
  }

  function FindProfile(profiles: seq<Profile>, name: string): (r: Option<Profile>)
    ensures r.Some? ==> r.value in profiles && r.value.name == name
    ensures r.None? ==> forall p :: p in profiles ==> p.name != name
  {
    if profiles == [] then None
    else if profiles[0].name == name then Some(profiles[0])
    else
      assert profiles == [profiles[0]] + profiles[1..];
      FindProfile(profiles[1..], name)
  }

  lemma {:induction false} FindProfileIsFirst(profiles: seq<Profile>, name: string) returns (i: nat)
    requires FindProfile(profiles, name).Some?
    ensures i < |profiles| && FindProfile(profiles, name) == Some(profiles[i])
    ensures forall k :: 0 <= k < i ==> profiles[k].name != name
  {
    if profiles[0].name == name {
      i := 0;
    } else {
      var n := FindProfileIsFirst(profiles[1..], name);
      i := n + 1;
      assert forall k :: 0 < k < |profiles| ==> profiles[k] == profiles[1..][k - 1];
    }
  }

  lemma {:induction false} EnabledPoolIsLast(pools: seq<TransportPool>, id: string) returns (i: nat)
    requires id in EnabledPools(pools)
    ensures i < |pools| && EnabledPools(pools)[id] == pools[i] && pools[i].enabled && pools[i].id == id
    ensures forall k :: i < k < |pools| ==> !(pools[k].enabled && pools[k].id == id)
  {
    var n := |pools| - 1;
    if pools[n].enabled && pools[n].id == id {
      i := n;
    } else {
      i := EnabledPoolIsLast(pools[..n], id);
    }
  }

  datatype Destination = Destination(kind: TargetKind, profile: Option<string>, runtime: Option<string>, state: TopologyState)

  function ProfileDestination(input: Inputs, p: Profile): Destination {
    if !p.enabled || p.protocolId !in input.availability.adapters then Destination(ToProfile, Some(p.name), None, Unresolved)
    else if p.name in input.availability.runtimes then
      var runtime := input.availability.runtimes[p.name];
      Destination(ToProfile, Some(p.name), Some(runtime.id), if runtime.adapterPresent && runtime.available then Ready else Unresolved)
    else Destination(ToProfile, Some(p.name), None, Dynamic)
  }

  function ResolveTarget(input: Inputs, target: string): Destination {
    if target == DIRECT then Destination(ToDirect, None, None, Ready)
    else if target == REJECT then Destination(ToReject, None, None, Ready)
    else if target in EnabledPools(input.policy.pools) then Destination(ToPool, None, None, Dynamic)
    else match FindProfile(input.profiles, target)
      case Some(p) => ProfileDestination(input, p)
      case None => Destination(Unavailable, None, None, Unresolved)
  }

  /** A pool that cannot resolve all members makes its paths unresolved. */
  function ApplyPoolState(input: Inputs, target: string, d: Destination): Destination {
    var pools := DescribePools(input);
    if d.kind == ToPool && target in pools && pools[target].state == Unresolved then d.(state := Unresolved) else d
  }

  /** Some member of the pool names something that is not there. */
  ghost predicate HasDangling(input: Inputs, pool: TransportPool) {
    exists i :: 0 <= i < |pool.members| &&
      match pool.members[i]
      case ByProfile(name) => !exists k :: 0 <= k < |input.profiles| && input.profiles[k].enabled && input.profiles[k].name == name
      case ByCapability(c) => !exists k :: 0 <= k < |input.profiles| && input.profiles[k].enabled && input.profiles[k].protocolId == c
      case ByPool(id) => !exists k :: 0 <= k < |input.policy.pools| && input.policy.pools[k].enabled && input.policy.pools[k].id == id
      case _ => false
  }

  ghost predicate LastEnabled(pools: seq<TransportPool>, id: string, i: int) {
    0 <= i < |pools| && pools[i].enabled && pools[i].id == id && forall k :: i < k < |pools| ==> !(pools[k].enabled && pools[k].id == id)
  }

  ghost predicate FirstNamed(profiles: seq<Profile>, name: string, i: int) {
    0 <= i < |profiles| && profiles[i].name == name && forall k :: 0 <= k < i ==> profiles[k].name != name
  }

  /** What a target is shown as: the two built-in targets, then pools, then profiles. */
  ghost predicate ShownAs(input: Inputs, target: string, d: Destination) {
    if target == "DIRECT" then d == Destination(ToDirect, None, None, Ready)
    else if target == "REJECT" then d == Destination(ToReject, None, None, Ready)
    else if exists i :: LastEnabled(input.policy.pools, target, i) then
      exists i :: LastEnabled(input.policy.pools, target, i)
                  && d == Destination(ToPool, None, None,
                            if HasDangling(input, input.policy.pools[i]) || input.policy.pools[i].members == [] then Unresolved else Dynamic)
    else if exists i :: FirstNamed(input.profiles, target, i) then
      exists i :: FirstNamed(input.profiles, target, i) && ProfileShownAs(input, input.profiles[i], d)
    else d == Destination(Unavailable, None, None, Unresolved)
  }

  ghost predicate ProfileShownAs(input: Inputs, p: Profile, d: Destination) {
    && d.kind == ToProfile && d.profile == Some(p.name)
    && var served := p.enabled && p.protocolId in input.availability.adapters;
    var known := p.name in input.availability.runtimes;
    && d.runtime == (if served && known then Some(input.availability.runtimes[p.name].id) else None)
    && d.state == (if !served then Unresolved
                   else if !known then Dynamic
                   else if input.availability.runtimes[p.name].available && input.availability.runtimes[p.name].adapterPresent then Ready
                   else Unresolved)
  }

  lemma DanglingMeans(input: Inputs, pool: TransportPool)
    ensures (exists i :: 0 <= i < |pool.members| && Dangling(input, pool.members[i])) <==> HasDangling(input, pool)
  {
    hide EnabledPools;
    EnabledPoolsAreEnabled(input.policy.pools);
    forall i | 0 <= i < |pool.members|
      ensures Dangling(input, pool.members[i]) <==>
                match pool.members[i]
                case ByProfile(name) => !exists k :: 0 <= k < |input.profiles| && input.profiles[k].enabled && input.profiles[k].name == name
                case ByCapability(c) => !exists k :: 0 <= k < |input.profiles| && input.profiles[k].enabled && input.profiles[k].protocolId == c
                case ByPool(id) => !exists k :: 0 <= k < |input.policy.pools| && input.policy.pools[k].enabled && input.policy.pools[k].id == id
                case _ => false
    {
      if pool.members[i].ByPool? {
        PoolKnown(input.policy.pools, pool.members[i].id);
      }
    }
  }

  lemma PoolKnown(pools: seq<TransportPool>, id: string)
    ensures id in EnabledPools(pools) <==> exists k :: 0 <= k < |pools| && pools[k].enabled && pools[k].id == id
    ensures id in EnabledPools(pools) <==> exists i :: LastEnabled(pools, id, i)
  {
    hide EnabledPools;
    EnabledPoolsAreEnabled(pools);
    if id in EnabledPools(pools) {
      var i := EnabledPoolIsLast(pools, id);
      assert LastEnabled(pools, id, i);
    }
    if k :| 0 <= k < |pools| && pools[k].enabled && pools[k].id == id {
      assert pools[k] in pools;
    }
  }

  lemma TargetIsShownAs(input: Inputs, target: string)
    ensures ShownAs(input, target, ApplyPoolState(input, target, ResolveTarget(input, target)))
  {
    hide EnabledPools, FindProfile, HasDangling, LastEnabled, FirstNamed, Dangling;
    PoolKnown(input.policy.pools, target);
    if target in EnabledPools(input.policy.pools) {
      var i := EnabledPoolIsLast(input.policy.pools, target);
      LastEnabledIs(input.policy.pools, target, i);
      DanglingMeans(input, input.policy.pools[i]);
    }
    ProfileKnown(input.profiles, target);
    if FindProfile(input.profiles, target).Some? {
      var i := FindProfileIsFirst(input.profiles, target);
      FirstNamedIs(input.profiles, target, i);
    }
  }

  lemma LastEnabledIs(pools: seq<TransportPool>, id: string, i: nat)
    requires i < |pools| && pools[i].enabled && pools[i].id == id && forall k :: i < k < |pools| ==> !(pools[k].enabled && pools[k].id == id)
    ensures LastEnabled(pools, id, i)
  {
  }

  lemma FirstNamedIs(profiles: seq<Profile>, name: string, i: nat)
    requires i < |profiles| && profiles[i].name == name && forall k :: 0 <= k < i ==> profiles[k].name != name
    ensures FirstNamed(profiles, name, i)
  {
  }

  lemma ProfileKnown(profiles: seq<Profile>, name: string)
    ensures FindProfile(profiles, name).Some? <==> exists i :: FirstNamed(profiles, name, i)
  {
    if FindProfile(profiles, name).Some? {
      var i := FindProfileIsFirst(profiles, name);
      assert FirstNamed(profiles, name, i);
    }
    if i :| FirstNamed(profiles, name, i) {
      assert profiles[i] in profiles;
    }
  }

  function PathTo(input: Inputs, order: nat, source: PathSource, matcher: string, lines: seq<string>, target: string, failed: bool):
    TopologyPath
  {
    var d := ApplyPoolState(input, target, ResolveTarget(input, target));
    TopologyPath(order, source, matcher, |lines|, target, d.kind, d.profile, d.runtime,
      if failed then Unresolved else d.state, Supported(lines), AnyUnsupported(lines))
  }

  function Stored<T>(rows: map<string, seq<T>>, slug: string): seq<T> {
    if slug in rows then rows[slug] else []
  }

  function ProviderPayload(input: Inputs, ruleSet: RoutingRuleSet): Option<string> {
    CompiledPayload(Stored(input.entries, ruleSet.slug), ruleSet.payload, Stored(input.sources, ruleSet.slug))
  }

  function ProviderLines(input: Inputs, ruleSet: RoutingRuleSet): seq<string> {
    match ProviderPayload(input, ruleSet)
    case Some(payload) => Lines(payload)
    case None => Lines([])
  }

  function ProviderPath(input: Inputs, order: nat, ruleSet: RoutingRuleSet): TopologyPath {
    PathTo(input, order, FromProvider(ruleSet.slug), "RULE-SET " + ruleSet.slug, ProviderLines(input, ruleSet), ruleSet.target,
      ProviderPayload(input, ruleSet).None?)
  }

  /** A capability target nobody offers is shown as it is. */
  function ShownTarget(profiles: seq<Profile>, target: string): string {
    match TargetOf(profiles, target)
    case Some(resolved) => resolved
    case None => target
  }

  function RulePath(input: Inputs, order: nat, rule: PolicyRule): TopologyPath {
    var target := ShownTarget(input.profiles, rule.target);
    PathTo(input, order, FromRule(rule.id), rule.condition, [rule.condition], target,
      StripPrefix(rule.target, CAPABILITY).Some? && target == rule.target)
  }

  function ActiveRuleSets(ruleSets: seq<RoutingRuleSet>): (r: seq<RoutingRuleSet>)
    ensures forall x :: x in r <==> x in ruleSets && x.enabled
  {
    if ruleSets == [] then []
    else
      assert ruleSets == [ruleSets[0]] + ruleSets[1..];
      (if ruleSets[0].enabled then [ruleSets[0]] else []) + ActiveRuleSets(ruleSets[1..])
  }

  lemma {:induction false} ActiveRuleSetsListed(ruleSets: seq<RoutingRuleSet>) returns (at: seq<int>)
    ensures Listed(ruleSets, ActiveRuleSets(ruleSets), at) && forall i :: i in at <==> 0 <= i < |ruleSets| && ruleSets[i].enabled
  {
    if ruleSets == [] {
      at := [];
    } else {
      var rest := ActiveRuleSetsListed(ruleSets[1..]);
      at := ListedCons(ruleSets[0], ruleSets[1..], ActiveRuleSets(ruleSets[1..]), rest, ruleSets[0].enabled);
      assert ruleSets == [ruleSets[0]] + ruleSets[1..];
    }
  }

  function InlineRules(input: Inputs): seq<PolicyRule> {
    SortRules(ByPriorityAndId, EnabledRules(input.policy.rules))
  }

  function ExplicitPaths(input: Inputs): (r: seq<TopologyPath>)
    ensures |r| == |ActiveRuleSets(input.ruleSets)| + |InlineRules(input)|
  {
    var sets, rules := ActiveRuleSets(input.ruleSets), InlineRules(input);
    seq(|sets|, i requires 0 <= i < |sets| => ProviderPath(input, i + 1, sets[i]))
    + seq(|rules|, i requires 0 <= i < |rules| => RulePath(input, |sets| + i + 1, rules[i]))
  }

  predicate CatchesAll(paths: seq<TopologyPath>) {
    exists i :: 0 <= i < |paths| && CatchAll in paths[i].matchers
  }

  function FallbackPath(order: nat): TopologyPath {
    TopologyPath(order, ImplicitFallback, "No explicit MATCH rule", 0, "runtime-dependent", ToFallback, None, None, Unresolved, [], false)
  }

  function Paths(input: Inputs): seq<TopologyPath> {
    var explicit := ExplicitPaths(input);
    if CatchesAll(explicit) then explicit else explicit + [FallbackPath(|explicit| + 1)]
  }

  /** What a path shows apart from its place: its target, and what its lines cover. */
  ghost predicate PathShows(input: Inputs, p: TopologyPath, lines: seq<string>, failed: bool) {
    && p.entryCount == |lines|
    && (exists d :: ShownAs(input, p.target, d) && p.targetKind == d.kind && p.profile == d.profile && p.runtime == d.runtime
                    && p.state == (if failed then Unresolved else d.state))
    && (forall domain :: AnyCovers(p.matchers, domain) <==> Answers(lines, domain))
    && (p.unsupported <==> Undecided(lines))
  }

  ghost predicate ShowsRuleSet(input: Inputs, ruleSet: RoutingRuleSet, p: TopologyPath) {
    var entries := if ruleSet.slug in input.entries then input.entries[ruleSet.slug] else [];
    var sources := if ruleSet.slug in input.sources then input.sources[ruleSet.slug] else [];
    var payload := CompiledPayload(entries, ruleSet.payload, sources);
    && p.source == FromProvider(ruleSet.slug) && p.matcher == "RULE-SET " + ruleSet.slug && p.target == ruleSet.target
    && PathShows(input, p, Lines(if payload.Some? then payload.value else []), payload == None)
  }

  ghost predicate ShowsRule(input: Inputs, rule: PolicyRule, p: TopologyPath) {
    && p.source == FromRule(rule.id) && p.matcher == rule.condition
    && (if Offered(input.profiles, rule.target) then StandsFor(input.profiles, rule.target, p.target) else p.target == rule.target)
    && PathShows(input, p, [rule.condition], (exists capability :: rule.target == "capability:" + capability) && p.target == rule.target)
  }

  /** The enabled rule sets in the given order, then the enabled rules by priority and ID, numbered from one. */
  ghost predicate PathsInOrder(input: Inputs, paths: seq<TopologyPath>) {
    exists at: seq<int>, pos: seq<int> ::
      && |paths| == |at| + |pos| && (forall k :: 0 <= k < |paths| ==> paths[k].order == k + 1)
      && SetPaths(input, at, paths[..|at|]) && RulePaths(input, pos, paths[|at|..])
  }

  ghost predicate SetPaths(input: Inputs, at: seq<int>, paths: seq<TopologyPath>)
    requires |paths| == |at|
  {
    && (forall i :: i in at <==> 0 <= i < |input.ruleSets| && input.ruleSets[i].enabled)
    && (forall i, k :: 0 <= i < k < |at| ==> at[i] < at[k])
    && forall k :: 0 <= k < |at| ==> at[k] in at && ShowsRuleSet(input, input.ruleSets[at[k]], paths[k])
  }

  ghost predicate RulePaths(input: Inputs, pos: seq<int>, paths: seq<TopologyPath>)
    requires |paths| == |pos|
  {
    var rules := input.policy.rules;
    && (forall i :: i in pos <==> 0 <= i < |rules| && rules[i].enabled)
    && (forall i, k :: 0 <= i < k < |pos| ==> pos[i] in pos && pos[k] in pos && Ahead(rules[pos[i]], pos[i], rules[pos[k]], pos[k]))
    && forall k :: 0 <= k < |pos| ==> pos[k] in pos && ShowsRule(input, rules[pos[k]], paths[k])
  }

  /** By priority, then by ID, then as given. */
  ghost predicate Ahead(a: PolicyRule, i: int, b: PolicyRule, k: int) {
    || a.priority < b.priority
    || (a.priority == b.priority && (Below(a.id, b.id) || (!Below(b.id, a.id) && i < k)))
  }

  lemma PathShown(input: Inputs, order: nat, source: PathSource, matcher: string, lines: seq<string>, target: string, failed: bool)
    ensures PathShows(input, PathTo(input, order, source, matcher, lines, target, failed), lines, failed)
  {
    hide ShownAs, ApplyPoolState, ResolveTarget, AnyCovers, Answers, Supported, AnyUnsupported, Undecided;
    TargetIsShownAs(input, target);
    UnsupportedIsUndecided(lines);
    forall domain ensures AnyCovers(Supported(lines), domain) <==> Answers(lines, domain) {
      SupportedAnswers(lines, domain);
    }
  }

  lemma ProviderPathShows(input: Inputs, order: nat, ruleSet: RoutingRuleSet)
    ensures ShowsRuleSet(input, ruleSet, ProviderPath(input, order, ruleSet))
  {
    hide PathShows, CompiledPayload, Lines;
    PathShown(input, order, FromProvider(ruleSet.slug), "RULE-SET " + ruleSet.slug, ProviderLines(input, ruleSet), ruleSet.target,
      ProviderPayload(input, ruleSet).None?);
  }

  lemma RulePathShows(input: Inputs, order: nat, rule: PolicyRule)
    ensures ShowsRule(input, rule, RulePath(input, order, rule))
  {
    hide PathShows, StandsFor, TargetOf, ApplyPoolState, ResolveTarget, Offered, Supported, AnyUnsupported;
    var target := ShownTarget(input.profiles, rule.target);
    OfferedTarget(input.profiles, rule.target);
    if TargetOf(input.profiles, rule.target).Some? {
      TargetStandsFor(input.profiles, rule.target);
    }
    var named := StripPrefix(rule.target, CAPABILITY).Some?;
    assert named <==> exists capability :: rule.target == "capability:" + capability;
    PathShown(input, order, FromRule(rule.id), rule.condition, [rule.condition], target, named && target == rule.target);
  }

  lemma ExplicitPathsInOrder(input: Inputs)
    ensures PathsInOrder(input, ExplicitPaths(input))
  {
    hide ShowsRuleSet, ShowsRule, SortRules, EnabledRules, ActiveRuleSets, ProviderPath, RulePath, Ahead, SetPaths, RulePaths;
    var paths := ExplicitPaths(input);
    var at := ActiveRuleSetsListed(input.ruleSets);
    var pos := OrderedRulesAt(ByPriorityAndId, input.policy.rules);
    SetPathsShow(input, at, paths[..|at|]);
    RulePathsShow(input, pos, paths[|at|..]);
    forall k | 0 <= k < |paths| ensures paths[k].order == k + 1 {
      ExplicitPathAt(input, k);
    }
  }

  lemma SetPathsShow(input: Inputs, at: seq<int>, paths: seq<TopologyPath>)
    requires Listed(input.ruleSets, ActiveRuleSets(input.ruleSets), at)
    requires forall i :: i in at <==> 0 <= i < |input.ruleSets| && input.ruleSets[i].enabled
    requires paths == ExplicitPaths(input)[..|at|]
    ensures SetPaths(input, at, paths)
  {
    hide ShowsRuleSet, ActiveRuleSets, ProviderPath, RulePath, InlineRules;
    var sets := ActiveRuleSets(input.ruleSets);
    forall k | 0 <= k < |at| ensures at[k] in at && ShowsRuleSet(input, input.ruleSets[at[k]], paths[k]) {
      assert paths[k] == ProviderPath(input, k + 1, sets[k]);
      ProviderPathShows(input, k + 1, sets[k]);
    }
  }

  lemma RulePathsShow(input: Inputs, pos: seq<int>, paths: seq<TopologyPath>)
    requires RulesAt(ByPriorityAndId, input.policy.rules, InlineRules(input), pos)
    requires paths == ExplicitPaths(input)[|ActiveRuleSets(input.ruleSets)|..]
    ensures |paths| == |pos| && RulePaths(input, pos, paths)
  {
    hide ShowsRule, ActiveRuleSets, RulePath, InlineRules, Earlier, Ahead, ExplicitPaths;
    var n, rules := |ActiveRuleSets(input.ruleSets)|, input.policy.rules;
    forall k | 0 <= k < |pos| ensures pos[k] in pos && ShowsRule(input, rules[pos[k]], paths[k]) {
      ExplicitPathAt(input, n + k);
      RulePathShows(input, n + k + 1, InlineRules(input)[k]);
    }
    forall i, k | 0 <= i < k < |pos|
      ensures pos[i] in pos && pos[k] in pos && Ahead(rules[pos[i]], pos[i], rules[pos[k]], pos[k])
    {
      EarlierIsAhead(rules, pos[i], pos[k]);
    }
  }

  lemma EarlierIsAhead(rules: seq<PolicyRule>, i: int, k: int)
    requires 0 <= i < |rules| && 0 <= k < |rules| && Earlier(ByPriorityAndId, rules, i, k)
    ensures Ahead(rules[i], i, rules[k], k)
  {
    hide Below;
  }

  ghost predicate IsFallback(p: TopologyPath, order: nat) {
    && p.order == order && p.source == ImplicitFallback && p.targetKind == ToFallback && p.state == Unresolved
    && p.entryCount == 0 && p.matchers == [] && !p.unsupported && p.profile == None && p.runtime == None
  }

  /** The explicit paths and, exactly if none of them catches all, one path for what no rule says. */
  ghost predicate Completed(paths: seq<TopologyPath>, explicit: seq<TopologyPath>) {
    if exists k :: 0 <= k < |explicit| && CatchAll in explicit[k].matchers then paths == explicit
    else exists p :: paths == explicit + [p] && IsFallback(p, |explicit| + 1)
  }

  /** The enabled pools, the last one of an ID, as they are shown. */
  ghost predicate PoolsShow(input: Inputs, pools: map<string, TopologyPool>) {
    && (forall id :: id in pools <==> exists i :: LastEnabled(input.policy.pools, id, i))
    && forall id, i :: id in pools && LastEnabled(input.policy.pools, id, i) ==>
         var pool := input.policy.pools[i];
         pools[id] == TopologyPool(id, pool.kind, if HasDangling(input, pool) || pool.members == [] then Unresolved else Dynamic)
  }

  lemma PoolsAreShown(input: Inputs)
    ensures PoolsShow(input, DescribePools(input))
  {
    hide EnabledPools, HasDangling, Dangling, LastEnabled;
    forall id ensures id in DescribePools(input) <==> exists i :: LastEnabled(input.policy.pools, id, i) {
      PoolKnown(input.policy.pools, id);
    }
    forall id, i | id in DescribePools(input) && LastEnabled(input.policy.pools, id, i)
      ensures 0 <= i < |input.policy.pools|
      ensures var pool := input.policy.pools[i];
              DescribePools(input)[id] ==
                TopologyPool(id, pool.kind, if HasDangling(input, pool) || pool.members == [] then Unresolved else Dynamic)
    {
      LastIsEnabledPool(input.policy.pools, id, i);
      DanglingMeans(input, input.policy.pools[i]);
    }
  }

  lemma LastIsEnabledPool(pools: seq<TransportPool>, id: string, i: int)
    requires LastEnabled(pools, id, i)
    ensures 0 <= i < |pools| && id in EnabledPools(pools) && EnabledPools(pools)[id] == pools[i] && pools[i].id == id
  {
    hide EnabledPools;
    PoolKnown(pools, id);
    var k := EnabledPoolIsLast(pools, id);
    assert i == k;
  }

  lemma PathsAreCompleted(input: Inputs)
    ensures PathsInOrder(input, ExplicitPaths(input)) && Completed(Paths(input), ExplicitPaths(input))
  {
    hide ExplicitPaths, PathsInOrder;
    ExplicitPathsInOrder(input);
    assert IsFallback(FallbackPath(|ExplicitPaths(input)| + 1), |ExplicitPaths(input)| + 1);
  }

  method Build(input: Inputs) returns (t: Topology)
    ensures t.paths == Paths(input) && t.pools == DescribePools(input)
    ensures (exists explicit :: PathsInOrder(input, explicit) && Completed(t.paths, explicit)) && PoolsShow(input, t.pools)
  {
    hide ExplicitPaths, DescribePools, Completed, PoolsShow, PathsInOrder;
    PathsAreCompleted(input);
    PoolsAreShown(input);
    var paths := ExplicitPathList(input);
    if !CatchesAll(paths) {
      paths := paths + [FallbackPath(|paths| + 1)];
    }
    t := Topology(paths, DescribePools(input));
  }

  method ExplicitPathList(input: Inputs) returns (paths: seq<TopologyPath>)
    ensures paths == ExplicitPaths(input)
  {
    hide SortRules, ActiveRuleSets, EnabledRules, ProviderPath, RulePath;
    paths := ProviderPaths(input);
    var rules := InlineRules(input);
    ghost var sets := |ActiveRuleSets(input.ruleSets)|;
    for i := 0 to |rules|
      invariant paths == ExplicitPaths(input)[..sets + i]
    {
      var path := InspectRule(input, |paths| + 1, rules[i]);
      paths := paths + [path];
    }
    assert paths == ExplicitPaths(input);
  }

  method ProviderPaths(input: Inputs) returns (paths: seq<TopologyPath>)
    ensures paths == ExplicitPaths(input)[..|ActiveRuleSets(input.ruleSets)|]
  {
    hide SortRules, ActiveRuleSets, EnabledRules, ProviderPath, RulePath;
    var sets := ActiveRuleSets(input.ruleSets);
    paths := [];
    for i := 0 to |sets|
      invariant paths == ExplicitPaths(input)[..i]
    {
      var path := InspectProvider(input, |paths| + 1, sets[i]);
      paths := paths + [path];
    }
  }

  method InspectProvider(input: Inputs, order: nat, ruleSet: RoutingRuleSet) returns (path: TopologyPath)
    ensures path == ProviderPath(input, order, ruleSet)
  {
    hide PathTo, CompiledPayload, Lines;
    var payload := CompileRuleSetPayload(Stored(input.entries, ruleSet.slug), ruleSet.payload, Stored(input.sources, ruleSet.slug));
    var lines := Lines(if payload.Some? then payload.value else []);
    path := Describe(input, order, FromProvider(ruleSet.slug), "RULE-SET " + ruleSet.slug, lines, ruleSet.target, payload.None?);
  }

  method InspectRule(input: Inputs, order: nat, rule: PolicyRule) returns (path: TopologyPath)
    ensures path == RulePath(input, order, rule)
  {
    var target := ShownTarget(input.profiles, rule.target);
    path := Describe(input, order, FromRule(rule.id), rule.condition, [rule.condition], target,
      StripPrefix(rule.target, CAPABILITY).Some? && target == rule.target);
  }

  method Describe(input: Inputs, order: nat, source: PathSource, matcher: string, lines: seq<string>, target: string, failed: bool)
    returns (path: TopologyPath)
    ensures path == PathTo(input, order, source, matcher, lines, target, failed)
  {
    var matchers, unsupported := DomainMatchers(lines);
    var d := ApplyPoolState(input, target, ResolveTarget(input, target));
    path := TopologyPath(order, source, matcher, |lines|, target, d.kind, d.profile, d.runtime, d.state, matchers, unsupported);
    if failed {
      path := path.(state := Unresolved);
    }
  }

  // ------------------------------------------------------------------
  // Inspection

  /** Says of every path with matchers that depend on runtime data whether one of them matches. */
  type Oracle = int -> bool

  ghost predicate Certain(paths: seq<TopologyPath>, k: int, domain: string) {
    0 <= k < |paths| && AnyCovers(paths[k].matchers, domain)
  }

  ghost predicate Fires(paths: seq<TopologyPath>, k: int, domain: string, oracle: Oracle) {
    0 <= k < |paths| && (Certain(paths, k, domain) || (paths[k].unsupported && oracle(k)))
  }

  ghost predicate FirstToFire(paths: seq<TopologyPath>, k: int, domain: string, oracle: Oracle) {
    Fires(paths, k, domain, oracle) && forall j :: 0 <= j < k ==> !Fires(paths, j, domain, oracle)
  }

  ghost predicate NeverFires(paths: seq<TopologyPath>, k: int, domain: string) {
    forall oracle :: !Fires(paths, k, domain, oracle)
  }

  datatype Inspection = Invalid | Matched(index: nat) | Uncertain(index: nat) | Default(path: Option<TopologyPath>)

  function TrimDots(s: string): string {
    if s != [] && s[|s| - 1] == '.' then TrimDots(s[..|s| - 1]) else s
  }

  function Normalized(domain: string): string {
    Lower(TrimDots(Trim(domain)))
  }

  predicate AllDots(s: string) {
    forall i :: 0 <= i < |s| ==> s[i] == '.'
  }

  lemma {:induction false} TrimDotsOf(s: string, dots: string)
    requires AllDots(dots) && (s == [] || s[|s| - 1] != '.')
    ensures TrimDots(s + dots) == s
  {
    if dots == [] {
      assert s + dots == s;
    } else {
      var n := |dots| - 1;
      TrimDotsOf(s, dots[..n]);
      assert (s + dots)[..|s + dots| - 1] == s + dots[..n];
    }
  }

  lemma {:induction false} TrimOf(pre: string, s: string, post: string)
    requires AllSpace(pre) && AllSpace(post) && (s == [] || (!IsSpace(s[0]) && !IsSpace(s[|s| - 1])))
    ensures Trim(pre + s + post) == s
    decreases |pre|, |post|
  {
    hide Trim;
    if pre != [] {
      TrimOf(pre[1..], s, post);
      TrimAbsorbs(pre[1..] + s + post, pre[0]);
      assert pre + s + post == [pre[0]] + (pre[1..] + s + post);
    } else if post != [] {
      var n := |post| - 1;
      TrimOf(pre, s, post[..n]);
      TrimAbsorbs(pre + s + post[..n], post[n]);
      assert pre + s + post == pre + s + post[..n] + [post[n]];
    } else {
      assert pre + s + post == s;
      AlreadyTrimmed(s);
    }
  }

  lemma AlreadyTrimmed(s: string)
    requires s == [] || (!IsSpace(s[0]) && !IsSpace(s[|s| - 1]))
    ensures Trim(s) == s
  {
  }

  /** White space around a domain, dots behind it and the case of its letters do not matter. */
  lemma NormalizedMeans(pre: string, domain: string, dots: string, post: string)
    requires AllSpace(pre) && AllSpace(post) && AllDots(dots)
    requires domain != [] && domain[|domain| - 1] != '.' && !IsSpace(domain[0]) && !IsSpace(domain[|domain| - 1])
    ensures Normalized(pre + domain + dots + post) == Lower(domain)
  {
    hide Trim, Lower;
    var whole := domain + dots;
    assert dots != [] ==> whole[|whole| - 1] == '.';
    assert dots == [] ==> whole == domain;
    TrimOf(pre, whole, post);
    assert pre + domain + dots + post == pre + whole + post;
    TrimDotsOf(domain, dots);
  }

  /** The first path of the fallback kind. */
  function FindFallback(paths: seq<TopologyPath>): Option<TopologyPath> {
    if paths == [] then None
    else if paths[0].targetKind == ToFallback then Some(paths[0])
    else FindFallback(paths[1..])
  }

  /** The first path of kind fallback, if there is one. */
  lemma {:induction false} FindFallbackIsFirst(paths: seq<TopologyPath>)
    ensures FindFallback(paths).None? <==> forall k :: 0 <= k < |paths| ==> paths[k].targetKind != ToFallback
    ensures FindFallback(paths).Some? ==>
              exists i :: 0 <= i < |paths| && FindFallback(paths) == Some(paths[i]) && paths[i].targetKind == ToFallback
                          && forall k :: 0 <= k < i ==> paths[k].targetKind != ToFallback
  {
    if paths != [] && paths[0].targetKind != ToFallback {
      FindFallbackIsFirst(paths[1..]);
      if FindFallback(paths[1..]).Some? {
        var n :| 0 <= n < |paths[1..]| && FindFallback(paths[1..]) == Some(paths[1..][n]) && paths[1..][n].targetKind == ToFallback
                 && forall k :: 0 <= k < n ==> paths[1..][k].targetKind != ToFallback;
        forall k | 0 <= k < n + 1 ensures paths[k].targetKind != ToFallback {
          assert k > 0 ==> paths[k] == paths[1..][k - 1];
        }
        assert paths[n + 1] == paths[1..][n];
      }
      assert forall k :: 0 < k < |paths| ==> paths[k] == paths[1..][k - 1];
    }
  }

  ghost predicate AlwaysFirst(paths: seq<TopologyPath>, k: int, domain: string) {
    forall oracle :: FirstToFire(paths, k, domain, oracle)
  }

  ghost predicate SometimesFirst(paths: seq<TopologyPath>, k: int, domain: string) {
    exists oracle :: FirstToFire(paths, k, domain, oracle)
  }

  ghost predicate NothingBefore(paths: seq<TopologyPath>, k: int, domain: string) {
    forall j :: 0 <= j < k ==> NeverFires(paths, j, domain)
  }

  /** The answer is exact, whatever the matchers that depend on runtime data would do. */
  ghost predicate Exactly(paths: seq<TopologyPath>, domain: string, r: Inspection) {
    && (forall k: nat :: r == Matched(k) <==> AlwaysFirst(paths, k, domain))
    && (forall k: nat :: r == Uncertain(k) <==>
          SometimesFirst(paths, k, domain) && !AlwaysFirst(paths, k, domain) && NothingBefore(paths, k, domain))
    && (r.Default? <==> NothingBefore(paths, |paths|, domain))
  }

  method InspectDomain(t: Topology, input: string) returns (r: Inspection)
    ensures r == Invalid <==> !ValidDomain(Normalized(input))
    ensures r != Invalid ==> Exactly(t.paths, Normalized(input), r)
    ensures r.Default? ==> r.path == FindFallback(t.paths)
  {
    hide ValidDomain, Normalized, Exactly, FindFallback, Covers;
    var domain := Normalized(input);
    if !ValidDomain(domain) {
      return Invalid;
    }
    for k := 0 to |t.paths|
      invariant forall j :: 0 <= j < k ==> !Certain(t.paths, j, domain) && !t.paths[j].unsupported
    {
      var certain := MatchesAny(t.paths[k].matchers, domain);
      if certain {
        MatchedIsExact(t.paths, k, domain);
        return Matched(k);
      }
      if t.paths[k].unsupported {
        UncertainIsExact(t.paths, k, domain);
        return Uncertain(k);
      }
    }
    DefaultIsExact(t.paths, domain, FindFallback(t.paths));
    r := Default(FindFallback(t.paths));
  }

  method MatchesAny(matchers: seq<DomainMatcher>, domain: string) returns (r: bool)
    requires ValidDomain(domain)
    ensures r <==> AnyCovers(matchers, domain)
  {
    hide ValidDomain, Covers;
    for i := 0 to |matchers|
      invariant forall k :: 0 <= k < i ==> !Covers(matchers[k], domain)
    {
      var covers := MatcherMatches(matchers[i], domain);
      if covers {
        assert matchers[i] in matchers;
        return true;
      }
    }
    r := false;
  }

  /** No path before `k` can fire. */
  ghost predicate QuietBefore(paths: seq<TopologyPath>, k: int, domain: string) {
    forall j :: 0 <= j < k && j < |paths| ==> !Certain(paths, j, domain) && !paths[j].unsupported
  }

  const Always: Oracle := (k: int) => true
  const Never: Oracle := (k: int) => false

  lemma QuietNeverFires(paths: seq<TopologyPath>, k: nat, domain: string)
    requires QuietBefore(paths, k, domain) && k <= |paths|
    ensures NothingBefore(paths, k, domain)
  {
    hide AnyCovers;
  }

  lemma OnlyOneFirst(paths: seq<TopologyPath>, i: int, k: int, domain: string, oracle: Oracle)
    requires FirstToFire(paths, i, domain, oracle) && FirstToFire(paths, k, domain, oracle)
    ensures i == k
  {
    hide AnyCovers;
  }

  /** A path that fires for some oracle is not quiet. */
  lemma FiringIsSomething(paths: seq<TopologyPath>, k: nat, domain: string, oracle: Oracle)
    requires Fires(paths, k, domain, oracle)
    ensures !NeverFires(paths, k, domain) && forall n :: n > k ==> !NothingBefore(paths, n, domain)
  {
    hide Fires;
  }

  lemma MatchedIsExact(paths: seq<TopologyPath>, k: nat, domain: string)
    requires QuietBefore(paths, k, domain) && Certain(paths, k, domain)
    ensures Exactly(paths, domain, Matched(k))
  {
    hide AnyCovers;
    forall oracle ensures FirstToFire(paths, k, domain, oracle) {
    }
    assert FirstToFire(paths, k, domain, Always);
    forall n: nat | AlwaysFirst(paths, n, domain) ensures n == k {
      assert FirstToFire(paths, n, domain, Always);
      OnlyOneFirst(paths, n, k, domain, Always);
    }
    forall n: nat | SometimesFirst(paths, n, domain) ensures n == k {
      var oracle :| FirstToFire(paths, n, domain, oracle);
      OnlyOneFirst(paths, n, k, domain, oracle);
    }
    FiringIsSomething(paths, k, domain, Always);
  }

  lemma UncertainIsExact(paths: seq<TopologyPath>, k: nat, domain: string)
    requires QuietBefore(paths, k, domain) && k < |paths| && !Certain(paths, k, domain) && paths[k].unsupported
    ensures Exactly(paths, domain, Uncertain(k))
  {
    hide AnyCovers;
    QuietNeverFires(paths, k, domain);
    assert FirstToFire(paths, k, domain, Always) && !FirstToFire(paths, k, domain, Never);
    FiringIsSomething(paths, k, domain, Always);
    forall n: nat ensures !AlwaysFirst(paths, n, domain) {
      if FirstToFire(paths, n, domain, Always) {
        OnlyOneFirst(paths, n, k, domain, Always);
      }
    }
    forall n: nat | SometimesFirst(paths, n, domain) && NothingBefore(paths, n, domain) ensures n == k {
      var oracle :| FirstToFire(paths, n, domain, oracle);
      FiringIsSomething(paths, n, domain, oracle);
    }
  }

  lemma DefaultIsExact(paths: seq<TopologyPath>, domain: string, path: Option<TopologyPath>)
    requires QuietBefore(paths, |paths|, domain)
    ensures Exactly(paths, domain, Default(path))
  {
    QuietNeverFires(paths, |paths|, domain);
    forall k: nat ensures !SometimesFirst(paths, k, domain) && !AlwaysFirst(paths, k, domain) {
      hide AnyCovers;
      assert !FirstToFire(paths, k, domain, Always);
    }
  }

  // ------------------------------------------------------------------
  // Built topologies

  lemma TargetsAreNoFallback(input: Inputs, target: string)
    ensures ApplyPoolState(input, target, ResolveTarget(input, target)).kind != ToFallback
  {
    hide DescribePools, EnabledPools;
  }

  lemma ExplicitPathAt(input: Inputs, k: nat)
    requires k < |ExplicitPaths(input)|
    ensures var sets, p := ActiveRuleSets(input.ruleSets), ExplicitPaths(input)[k];
            p == if k < |sets| then ProviderPath(input, k + 1, sets[k]) else RulePath(input, k + 1, InlineRules(input)[k - |sets|])
    ensures ExplicitPaths(input)[k].targetKind != ToFallback && ExplicitPaths(input)[k].source != ImplicitFallback
    ensures ExplicitPaths(input)[k].order == k + 1
  {
    hide ActiveRuleSets, InlineRules, ProviderPath, RulePath;
    var sets := ActiveRuleSets(input.ruleSets);
    if k < |sets| {
      ProviderPathFacts(input, k + 1, sets[k]);
    } else {
      RulePathFacts(input, k + 1, InlineRules(input)[k - |sets|]);
    }
  }

  lemma ProviderPathFacts(input: Inputs, order: nat, ruleSet: RoutingRuleSet)
    ensures var p := ProviderPath(input, order, ruleSet);
            p.order == order && p.targetKind != ToFallback && p.source == FromProvider(ruleSet.slug)
  {
    hide ResolveTarget, ApplyPoolState, ProviderLines, ProviderPayload, Supported, AnyUnsupported;
    TargetsAreNoFallback(input, ruleSet.target);
  }

  lemma RulePathFacts(input: Inputs, order: nat, rule: PolicyRule)
    ensures var p := RulePath(input, order, rule);
            p.order == order && p.targetKind != ToFallback && p.source == FromRule(rule.id)
  {
    hide ResolveTarget, ApplyPoolState, ShownTarget, StripPrefix, Supported, AnyUnsupported;
    TargetsAreNoFallback(input, ShownTarget(input.profiles, rule.target));
  }

  lemma {:induction false} FindFallbackSkips(paths: seq<TopologyPath>, last: seq<TopologyPath>)
    requires forall i :: 0 <= i < |paths| ==> paths[i].targetKind != ToFallback
    ensures FindFallback(paths + last) == FindFallback(last)
  {
    if paths == [] {
      assert paths + last == last;
    } else {
      FindFallbackSkips(paths[1..], last);
      assert (paths + last)[1..] == paths[1..] + last;
    }
  }

  /** Only the last path can be a fallback, and there is one exactly if nothing catches all. */
  lemma FallbackOfBuilt(input: Inputs)
    ensures FindFallback(Paths(input)) ==
              if CatchesAll(ExplicitPaths(input)) then None else Some(FallbackPath(|ExplicitPaths(input)| + 1))
  {
    hide ExplicitPaths, CatchesAll;
    var explicit := ExplicitPaths(input);
    forall k | 0 <= k < |explicit| ensures explicit[k].targetKind != ToFallback {
      ExplicitPathAt(input, k);
    }
    FindFallbackSkips(explicit, []);
    FindFallbackSkips(explicit, [FallbackPath(|explicit| + 1)]);
    assert explicit + [] == explicit;
  }

  /** On built topologies a default answer carries the implicit fallback, and other answers never do. */
  lemma BuiltInspection(input: Inputs, domain: string, r: Inspection)
    requires Exactly(Paths(input), domain, r) && (r.Default? ==> r.path == FindFallback(Paths(input)))
    ensures CatchesAll(ExplicitPaths(input)) ==> !r.Default?
    ensures r.Default? ==> r.path == Some(FallbackPath(|ExplicitPaths(input)| + 1))
    ensures r.Matched? || r.Uncertain? ==> r.index < |ExplicitPaths(input)|
  {
    hide ExplicitPaths, Exactly, FindFallback;
    var explicit := ExplicitPaths(input);
    FallbackOfBuilt(input);
    ExactlyMeans(Paths(input), domain, r);
    if CatchesAll(explicit) {
      var k :| 0 <= k < |explicit| && CatchAll in explicit[k].matchers;
      assert Covers(CatchAll, domain);
      assert Fires(Paths(input), k, domain, Always);
      FiringIsSomething(Paths(input), k, domain, Always);
    }
  }

  lemma ExactlyMeans(paths: seq<TopologyPath>, domain: string, r: Inspection)
    requires Exactly(paths, domain, r)
    ensures r.Default? ==> NothingBefore(paths, |paths|, domain)
    ensures r.Matched? || r.Uncertain? ==> r.index < |paths| && SometimesFirst(paths, r.index, domain)
  {
    hide Fires;
    if r.Matched? {
      assert AlwaysFirst(paths, r.index, domain);
      assert FirstToFire(paths, r.index, domain, Always);
      FirstInRange(paths, r.index, domain, Always);
    }
    if r.Uncertain? {
      var oracle :| FirstToFire(paths, r.index, domain, oracle);
      FirstInRange(paths, r.index, domain, oracle);
    }
  }

  lemma FirstInRange(paths: seq<TopologyPath>, k: int, domain: string, oracle: Oracle)
    requires FirstToFire(paths, k, domain, oracle)
    ensures 0 <= k < |paths|
  {
    hide Certain;
  }

  // ------------------------------------------------------------------
  // Valid policies

  lemma {:induction false} EnabledPoolsAreEnabled(pools: seq<TransportPool>)
    ensures EnabledPools(pools).Keys == EnabledIds(pools)
    ensures forall id :: id in EnabledPools(pools) ==>
              EnabledPools(pools)[id] in pools && EnabledPools(pools)[id].enabled && EnabledPools(pools)[id].id == id
  {
    if pools != [] {
      var n := |pools| - 1;
      EnabledPoolsAreEnabled(pools[..n]);
      assert pools == pools[..n] + [pools[n]];
      var rest := EnabledIds(pools[..n]);
      assert EnabledIds(pools) == if pools[n].enabled then rest + {pools[n].id} else rest;
    }
  }

  /** No pool of a valid policy is shown as unresolved, whether its selectors pick anybody or not. */
  lemma ValidPoolsShownDynamic(input: Inputs, id: string)
    requires Valid(input.policy, input.profiles) && id in EnabledPools(input.policy.pools)
    ensures id in DescribePools(input) && DescribePools(input)[id].state == Dynamic
  {
    hide ValidRules, EnabledPools, ValidPool, Dangling;
    EnabledPoolsAreEnabled(input.policy.pools);
    var pool := EnabledPools(input.policy.pools)[id];
    ValidPoolNotDangling(input, pool);
  }

  lemma ValidPoolNotDangling(input: Inputs, pool: TransportPool)
    requires ValidPool(input.policy, input.profiles, pool)
    ensures pool.members != [] && forall i :: 0 <= i < |pool.members| ==> !Dangling(input, pool.members[i])
  {
    hide EnabledPools, EnabledIds, ValidUrl, Available, Offers;
    EnabledPoolsAreEnabled(input.policy.pools);
    forall i | 0 <= i < |pool.members| ensures !Dangling(input, pool.members[i]) {
      assert ValidMember(input.policy, input.profiles, pool.members[i]);
    }
  }

  lemma DescribedIsEnabled(input: Inputs, id: string)
    requires id in DescribePools(input)
    ensures id in EnabledPools(input.policy.pools)
  {
  }

  /** A pool is shown as unresolved exactly when it resolves to no members. */
  ghost predicate PoolsShownTruly(input: Inputs) {
    var pools := EnabledPools(input.policy.pools);
    forall id :: id in pools ==>
      id in DescribePools(input)
      && (DescribePools(input)[id].state == Unresolved <==> Resolve(input.profiles, pools[id]).members == [])
  }

  lemma {:induction false} EnabledPoolIsKept(pools: seq<TransportPool>, p: TransportPool)
    requires DistinctPools(pools) && p in pools && p.enabled
    ensures p.id in EnabledPools(pools) && EnabledPools(pools)[p.id] == p
  {
    var n := |pools| - 1;
    assert pools == pools[..n] + [pools[n]];
    if p in pools[..n] {
      EnabledPoolIsKept(pools[..n], p);
    }
  }

  /** The topology tests selectors, generation their results: for a valid policy every pool is shown truly if and only if
      every enabled pool resolves, that is, selects somebody. */
  lemma PoolsShownExactly(input: Inputs)
    requires Valid(input.policy, input.profiles)
    ensures PoolsShownTruly(input) <==> ResolveEach(input.profiles, input.policy.pools).Some?
    ensures PoolsShownTruly(input) <==> forall p :: p in input.policy.pools && p.enabled ==> SelectsSome(input.profiles, p)
  {
    hide ValidRules, EnabledPools, DescribePools, Resolve, SelectsSome, ResolveEach, ValidPool, PoolGraph;
    var all, pools := input.policy.pools, EnabledPools(input.policy.pools);
    ResolvesExactly(input.profiles, all);
    EnabledPoolsAreEnabled(all);
    forall id | id in pools
      ensures id in DescribePools(input) && DescribePools(input)[id].state == Dynamic
      ensures Resolve(input.profiles, pools[id]).members != [] <==> SelectsSome(input.profiles, pools[id])
    {
      ValidPoolsShownDynamic(input, id);
      ResolvesToSome(input.profiles, pools[id]);
    }
    forall p | p in all && p.enabled ensures p.id in pools && pools[p.id] == p {
      EnabledPoolIsKept(all, p);
    }
  }

  predicate DistinctNames(profiles: seq<Profile>) {
    forall i, k :: 0 <= i < k < |profiles| ==> profiles[i].name != profiles[k].name
  }

  /** The profile's adapter is missing, or its runtime is known to be unusable. */
  predicate Unserved(input: Inputs, p: Profile) {
    || p.protocolId !in input.availability.adapters
    || (p.name in input.availability.runtimes
        && !(input.availability.runtimes[p.name].adapterPresent && input.availability.runtimes[p.name].available))
  }

  /** What a usable target is shown as: unresolved only where the profile behind it cannot be served. */
  lemma UsableTargetIsExplained(input: Inputs, target: string)
    requires Valid(input.policy, input.profiles) && DistinctNames(input.profiles) && Usable(input.policy, input.profiles, target)
    ensures var d := ApplyPoolState(input, target, ResolveTarget(input, target));
            && d.kind != Unavailable
            && (d.state == Unresolved <==>
                  d.kind == ToProfile && FindProfile(input.profiles, target).Some? && Unserved(input, FindProfile(input.profiles, target).value))
            && (d.kind == ToProfile ==> d.profile == Some(target) && Available(input.profiles, target))
  {
    hide Valid, DescribePools, EnabledPools, EnabledIds, FindProfile;
    EnabledPoolsAreEnabled(input.policy.pools);
    if target in EnabledPools(input.policy.pools) {
      ValidPoolsShownDynamic(input, target);
    } else if target != DIRECT && target != REJECT {
      var i :| 0 <= i < |input.profiles| && input.profiles[i].enabled && input.profiles[i].name == target;
      assert input.profiles[i] in input.profiles;
      var p := FindProfile(input.profiles, target).value;
      var k :| 0 <= k < |input.profiles| && input.profiles[k] == p;
      assert i == k;
    }
  }

  /** Every enabled rule of a valid policy is shown with the target it is generated with; as unresolved exactly if the profile
      behind it cannot be served, or if a capability resolves to a profile of the very name of the target. */
  lemma ValidRuleIsExplained(input: Inputs, order: nat, rule: PolicyRule)
    requires Valid(input.policy, input.profiles) && DistinctNames(input.profiles)
    requires rule in input.policy.rules && rule.enabled && Offered(input.profiles, rule.target)
    ensures var p, target := RulePath(input, order, rule), TargetOf(input.profiles, rule.target).value;
            && p.target == target && p.targetKind != Unavailable && p.targetKind != ToFallback
            && (p.state == Unresolved <==>
                  || (StripPrefix(rule.target, CAPABILITY).Some? && target == rule.target)
                  || (p.targetKind == ToProfile && FindProfile(input.profiles, target).Some?
                      && Unserved(input, FindProfile(input.profiles, target).value)))
  {
    hide Valid, DescribePools, EnabledPools, EnabledIds, FindProfile, StripPrefix, ResolveTarget, ApplyPoolState, Offered, Usable;
    ResolvedTargetUsable(input.policy, input.profiles, rule);
    UsableTargetIsExplained(input, TargetOf(input.profiles, rule.target).value);
    TargetsAreNoFallback(input, TargetOf(input.profiles, rule.target).value);
  }

  /** A served profile named like the capability it offers: its rule is generated, but shown as unresolved. */
  lemma NamesakeWitness(input: Inputs, profile: Profile, order: nat)
    requires profile.enabled && profile.name == "capability:x" && profile.protocolId == "x"
    requires input.profiles == [profile] && input.availability == Availability({"x"}, map[])
    requires input.policy == ClientPolicy([], [PolicyRule("r", "r", true, 0, MATCH, "capability:x")])
    ensures Valid(input.policy, input.profiles) && TargetsOffered(input.policy, input.profiles) && !Unserved(input, profile)
    ensures RulePath(input, order, input.policy.rules[0]).state == Unresolved
  {
    hide Valid, DescribePools, EnabledPools, ResolveTarget, ApplyPoolState, ValidRule, StripPrefix;
    var rule := input.policy.rules[0];
    CapabilityX();
    assert input.profiles[0].enabled && input.profiles[0].protocolId == "x";
    assert Offered(input.profiles, rule.target);
    MatchRuleIsValid(input.profiles, rule);
    assert rule in input.policy.rules;
    assert FirstOffering(input.profiles, "x") == Some(profile);
    ValidRuleIsExplained(input, order, rule);
  }
}
