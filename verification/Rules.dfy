/** Routing rule lines: validation, compilation of layers, and completion with a target. */
module Rules {
  import opened Prelude
  import opened Text

  predicate ClassicalKind(kind: string) {
    kind in CLASSICAL_DESTINATION || kind in CLASSICAL_SOURCE || kind in CLASSICAL_PROCESS
  }

  predicate NoResolveKind(kind: string) {
    kind in NO_RESOLVE_KINDS
  }

  const CLASSICAL_DESTINATION: seq<string> := [
    "DOMAIN", "DOMAIN-SUFFIX", "DOMAIN-KEYWORD", "DOMAIN-WILDCARD", "DOMAIN-REGEX", "GEOSITE", "IP-CIDR", "IP-CIDR6",
    "IP-SUFFIX", "IP-ASN", "GEOIP"]

  const CLASSICAL_SOURCE: seq<string> := [
    "SRC-GEOIP", "SRC-IP-ASN", "SRC-IP-CIDR", "SRC-IP-SUFFIX", "DST-PORT", "SRC-PORT", "IN-PORT", "IN-TYPE", "IN-USER", "IN-NAME"]

  const CLASSICAL_PROCESS: seq<string> := [
    "PROCESS-PATH", "PROCESS-PATH-WILDCARD", "PROCESS-PATH-REGEX", "PROCESS-NAME", "PROCESS-NAME-WILDCARD",
    "PROCESS-NAME-REGEX", "UID", "NETWORK", "DSCP"]

  const NO_RESOLVE_KINDS: seq<string> := [
    "IP-CIDR", "IP-CIDR6", "IP-SUFFIX", "IP-ASN", "GEOIP", "SRC-GEOIP", "SRC-IP-ASN", "SRC-IP-CIDR", "SRC-IP-SUFFIX"]

  const NO_RESOLVE := "no-resolve"

  datatype RoutingRuleSet = RoutingRuleSet(slug: string, target: string, enabled: bool, payload: string)

  datatype RuleKind =
    | Domain | DomainSuffix | DomainKeyword | IpCidr | IpCidr6 | Geoip | Geosite | Asn | ProcessName | DstPort | SrcPort
    | Network | Classical
  {
    function MihomoName(): string {
      match this
      case Domain => "DOMAIN"
      case DomainSuffix => "DOMAIN-SUFFIX"
      case DomainKeyword => "DOMAIN-KEYWORD"
      case IpCidr => "IP-CIDR"
      case IpCidr6 => "IP-CIDR6"
      case Geoip => "GEOIP"
      case Geosite => "GEOSITE"
      case Asn => "IP-ASN"
      case ProcessName => "PROCESS-NAME"
      case DstPort => "DST-PORT"
      case SrcPort => "SRC-PORT"
      case Network => "NETWORK"
      case Classical => "CLASSICAL"
    }
  }

  datatype RuleEntry = RuleEntry(id: string, enabled: bool, kind: RuleKind, value: string, priority: int)

  datatype RuleSetSource = RuleSetSource(id: string, enabled: bool, cachedPayload: string)

  // ------------------------------------------------------------------
  // Validation

  datatype Verdict = Skip | Keep(line: string) | Reject

  predicate HasControl(s: string) {
    exists c :: c in s && IsControl(c)
  }

  predicate IsNoResolve(field: string) {
    Lower(field) == NO_RESOLVE
  }

  /** What validation does with one line of a payload. */
  function Judge(raw: string): Verdict {
    var line := Trim(raw);
    if line == [] || line[0] == '#' then Skip
    else if ',' !in line then Reject
    else
      var fields := Fields(line);
      var kind := fields[0];
      if kind == [] || (|fields| == 2 && fields[1] == []) then Reject
      else if !ClassicalKind(kind) then Reject
      else if ByteLength(line) > 1024 || HasControl(line) then Reject
      else if |fields| == 2 then Keep(line)
      else if |fields| == 3 && IsNoResolve(fields[2]) && NoResolveKind(kind) then Keep(line)
      else Reject
  }

  /** The kept lines, unless one is rejected. */
  function KeptLines(lines: seq<string>): Option<seq<string>> {
    if lines == [] then Some([])
    else
      match (KeptLines(lines[..|lines| - 1]), Judge(lines[|lines| - 1]))
      case (None, _) => None
      case (_, Reject) => None
      case (Some(rules), Skip) => Some(rules)
      case (Some(rules), Keep(line)) => Some(rules + [line])
  }

  function Validated(payload: string): Option<seq<string>> {
    var kept := KeptLines(Lines(payload));
    if kept == Some([]) then None else kept
  }

  method ValidatePayload(payload: string) returns (r: Option<seq<string>>)
    ensures r == Validated(payload)
  {
    hide Judge, Lines;
    var lines := Lines(payload);
    var rules: seq<string> := [];
    for i := 0 to |lines|
      invariant KeptLines(lines[..i]) == Some(rules)
    {
      assert lines[..i + 1][..i] == lines[..i];
      match Judge(lines[i]) {
        case Skip =>
        case Keep(line) => rules := rules + [line];
        case Reject =>
          RejectedStays(lines, i + 1);
          return None;
      }
    }
    assert lines[..|lines|] == lines;
    r := if rules == [] then None else Some(rules);
  }

  lemma {:induction false} RejectedStays(lines: seq<string>, n: nat)
    requires n <= |lines| && KeptLines(lines[..n]).None?
    ensures KeptLines(lines).None?
  {
    hide Judge;
    if n < |lines| {
      var k := |lines| - 1;
      assert lines[..k][..n] == lines[..n];
      RejectedStays(lines[..k], n);
    } else {
      assert lines[..n] == lines;
    }
  }

  /** A line that validation kept; validation keeps it again. */
  predicate ValidLine(line: string) {
    Judge(line) == Keep(line)
  }

  lemma JudgedAgain(raw: string)
    requires Judge(raw).Keep?
    ensures ValidLine(Judge(raw).line)
  {
    TrimFacts(raw);
  }

  lemma {:induction false} KeptAreValid(lines: seq<string>)
    requires KeptLines(lines).Some?
    ensures forall x :: x in KeptLines(lines).value ==> ValidLine(x)
  {
    if lines != [] {
      var n := |lines| - 1;
      KeptAreValid(lines[..n]);
      if Judge(lines[n]).Keep? {
        JudgedAgain(lines[n]);
      }
    }
  }

  lemma {:induction false} ValidAreKept(rules: seq<string>)
    requires forall x :: x in rules ==> ValidLine(x)
    ensures KeptLines(rules) == Some(rules)
  {
    if rules != [] {
      var n := |rules| - 1;
      ValidAreKept(rules[..n]);
      assert rules[n] in rules && rules[..n] + [rules[n]] == rules;
    }
  }

  lemma ValidIsPlain(line: string)
    requires ValidLine(line)
    ensures PlainLine(line)
  {
    hide ClassicalKind, NoResolveKind, Fields, ByteLength, IsNoResolve;
    assert IsControl('\n') && IsSpace('\r');
  }

  /** Round trip: validating the join of validated lines gives the same lines back. */
  lemma ValidatedRoundTrip(rules: seq<string>)
    requires rules != [] && forall x :: x in rules ==> ValidLine(x)
    ensures Lines(Join(rules, '\n')) == rules && Validated(Join(rules, '\n')) == Some(rules)
  {
    forall x | x in rules ensures PlainLine(x) {
      ValidIsPlain(x);
    }
    LinesOfJoin(rules);
    ValidAreKept(rules);
  }

  lemma ValidatedAreValid(payload: string)
    requires Validated(payload).Some?
    ensures Validated(payload).value != [] && forall x :: x in Validated(payload).value ==> ValidLine(x)
    ensures Validated(Join(Validated(payload).value, '\n')) == Validated(payload)
  {
    KeptAreValid(Lines(payload));
    ValidatedRoundTrip(Validated(payload).value);
  }

  // ------------------------------------------------------------------
  // Compilation

  function EntryText(entry: RuleEntry): string {
    if entry.kind == Classical then Trim(entry.value) else entry.kind.MihomoName() + "," + Trim(entry.value)
  }

  /** The provider line of one entry. */
  function Compiled(entry: RuleEntry): Option<string> {
    match Validated(EntryText(entry))
    case Some(rules) => if rules == [] then None else Some(rules[0])
    case None => None
  }

  function CompiledEntries(entries: seq<RuleEntry>): Option<seq<string>> {
    if entries == [] then Some([])
    else
      var last := entries[|entries| - 1];
      match CompiledEntries(entries[..|entries| - 1])
      case None => None
      case Some(rules) =>
        if !last.enabled then Some(rules)
        else match Compiled(last)
          case None => None
          case Some(line) => Some(rules + [line])
  }

  function LocalLines(payload: string): Option<seq<string>> {
    if Trim(payload) == [] then Some([]) else Validated(payload)
  }

  function SourceLines(sources: seq<RuleSetSource>): Option<seq<string>> {
    if sources == [] then Some([])
    else
      var last := sources[|sources| - 1];
      match SourceLines(sources[..|sources| - 1])
      case None => None
      case Some(rules) =>
        if !last.enabled || Trim(last.cachedPayload) == [] then Some(rules)
        else match Validated(last.cachedPayload)
          case None => None
          case Some(more) => Some(rules + more)
  }

  /** All layers in precedence order, unfiltered. */
  function Layers(entries: seq<RuleEntry>, local: string, sources: seq<RuleSetSource>): Option<seq<string>> {
    match (CompiledEntries(entries), LocalLines(local), SourceLines(sources))
    case (Some(a), Some(b), Some(c)) => Some(a + b + c)
    case _ => None
  }

  /** `line` repeats an earlier line, up to case. */
  predicate Seen(rules: seq<string>, line: string) {
    exists i :: 0 <= i < |rules| && Lower(rules[i]) == Lower(line)
  }

  /** The first occurrence of every line, up to case. */
  function FirstOccurrences(rules: seq<string>): seq<string> {
    if rules == [] then []
    else
      var n := |rules| - 1;
      FirstOccurrences(rules[..n]) + if Seen(rules[..n], rules[n]) then [] else [rules[n]]
  }

  function CompiledPayload(entries: seq<RuleEntry>, local: string, sources: seq<RuleSetSource>): Option<string> {
    match Layers(entries, local, sources)
    case Some(rules) => if rules == [] then None else Some(Join(FirstOccurrences(rules), '\n'))
    case None => None
  }

  method Retain(rules: seq<string>) returns (r: seq<string>)
    ensures r == FirstOccurrences(rules)
  {
    var seen: set<string> := {};
    r := [];
    for i := 0 to |rules|
      invariant r == FirstOccurrences(rules[..i])
      invariant forall x :: x in seen <==> exists k :: 0 <= k < i && Lower(rules[k]) == x
    {
      assert rules[..i + 1][..i] == rules[..i];
      assert Seen(rules[..i], rules[i]) <==> Lower(rules[i]) in seen by {
        if Lower(rules[i]) in seen {
          var k :| 0 <= k < i && Lower(rules[k]) == Lower(rules[i]);
          assert rules[..i][k] == rules[k];
        }
      }
      if Lower(rules[i]) !in seen {
        r := r + [rules[i]];
      }
      seen := seen + {Lower(rules[i])};
    }
    assert rules[..|rules|] == rules;
  }

  /** Compiles all layers into one provider payload. */
  method CompileRuleSetPayload(entries: seq<RuleEntry>, local: string, sources: seq<RuleSetSource>) returns (r: Option<string>)
    ensures r == CompiledPayload(entries, local, sources)
    ensures r.Some? ==> exists origins :: PayloadFrom(entries, local, sources, Lines(r.value), origins)
  {
    hide Validated, Compiled, FirstOccurrences, Join, PayloadFrom, CompiledPayload;
    if CompiledPayload(entries, local, sources).Some? {
      CompiledPayloadMeans(entries, local, sources);
    }
    r := CompileLayers(entries, local, sources);
  }

  method CompileLayers(entries: seq<RuleEntry>, local: string, sources: seq<RuleSetSource>) returns (r: Option<string>)
    ensures r == CompiledPayload(entries, local, sources)
  {
    hide Validated, Compiled, FirstOccurrences, Join;
    var compiled: seq<string> := [];
    for i := 0 to |entries|
      invariant CompiledEntries(entries[..i]) == Some(compiled)
    {
      assert entries[..i + 1][..i] == entries[..i];
      if entries[i].enabled {
        var line := Compiled(entries[i]);
        if line.None? {
          FailedEntryStays(entries, i + 1);
          return None;
        }
        compiled := compiled + [line.value];
      }
    }
    assert entries[..|entries|] == entries;
    if Trim(local) != [] {
      var more := ValidatePayload(local);
      if more.None? {
        return None;
      }
      compiled := compiled + more.value;
    } else {
      assert compiled + [] == compiled;
    }
    var rest := CompileSources(sources);
    if rest.None? {
      return None;
    }
    compiled := compiled + rest.value;
    assert Layers(entries, local, sources) == Some(compiled);
    var retained := Retain(compiled);
    FirstOccurrencesEmpty(compiled);
    r := if retained == [] then None else Some(Join(retained, '\n'));
  }

  method CompileSources(sources: seq<RuleSetSource>) returns (r: Option<seq<string>>)
    ensures r == SourceLines(sources)
  {
    var compiled: seq<string> := [];
    for i := 0 to |sources|
      invariant SourceLines(sources[..i]) == Some(compiled)
    {
      assert sources[..i + 1][..i] == sources[..i];
      if sources[i].enabled && Trim(sources[i].cachedPayload) != [] {
        var more := ValidatePayload(sources[i].cachedPayload);
        if more.None? {
          FailedSourceStays(sources, i + 1);
          return None;
        }
        compiled := compiled + more.value;
      }
    }
    assert sources[..|sources|] == sources;
    r := Some(compiled);
  }

  lemma {:induction false} FailedEntryStays(entries: seq<RuleEntry>, n: nat)
    requires n <= |entries| && CompiledEntries(entries[..n]).None?
    ensures CompiledEntries(entries).None?
  {
    hide Compiled, Validated, Trim;
    if n < |entries| {
      var k := |entries| - 1;
      assert entries[..k][..n] == entries[..n];
      FailedEntryStays(entries[..k], n);
    } else {
      assert entries[..n] == entries;
    }
  }

  lemma {:induction false} FailedSourceStays(sources: seq<RuleSetSource>, n: nat)
    requires n <= |sources| && SourceLines(sources[..n]).None?
    ensures SourceLines(sources).None?
  {
    hide Compiled, Validated, Trim;
    if n < |sources| {
      var k := |sources| - 1;
      assert sources[..k][..n] == sources[..n];
      FailedSourceStays(sources[..k], n);
    } else {
      assert sources[..n] == sources;
    }
  }

  lemma {:induction false} FirstOccurrencesEmpty(rules: seq<string>)
    ensures FirstOccurrences(rules) == [] <==> rules == []
  {
    if |rules| > 1 {
      FirstOccurrencesEmpty(rules[..|rules| - 1]);
    }
  }

  /** The filter keeps one representative of every line, up to case ... */
  lemma {:induction false} FirstOccurrencesRepresent(rules: seq<string>, x: string)
    ensures x in FirstOccurrences(rules) ==> x in rules
    ensures x in rules ==> exists y :: y in FirstOccurrences(rules) && Lower(y) == Lower(x)
  {
    hide Lower;
    if rules != [] {
      var n := |rules| - 1;
      var head, last := rules[..n], rules[n];
      FirstOccurrencesRepresent(head, x);
      assert rules == head + [last];
      if x in head {
        var y :| y in FirstOccurrences(head) && Lower(y) == Lower(x);
        assert y in FirstOccurrences(rules);
      } else if x in rules && Seen(head, last) {
        var i :| 0 <= i < |head| && Lower(head[i]) == Lower(last);
        FirstOccurrencesRepresent(head, head[i]);
        var y :| y in FirstOccurrences(head) && Lower(y) == Lower(head[i]);
        assert y in FirstOccurrences(rules);
      }
    }
  }

  /** ... and only one. */
  lemma {:induction false} FirstOccurrencesDistinct(rules: seq<string>, i: nat, k: nat)
    requires i < k < |FirstOccurrences(rules)|
    ensures Lower(FirstOccurrences(rules)[i]) != Lower(FirstOccurrences(rules)[k])
  {
    hide Lower;
    var n := |rules| - 1;
    var head := FirstOccurrences(rules[..n]);
    if k < |head| {
      FirstOccurrencesDistinct(rules[..n], i, k);
    } else {
      FirstOccurrencesRepresent(rules[..n], head[i]);
      var m :| 0 <= m < n && rules[..n][m] == head[i];
    }
  }

  // ------------------------------------------------------------------
  // What a validated and a compiled payload are, read off their parts

  predicate Blank(line: string) {
    line == [] || line[0] == '#'
  }

  /** The form of a rule line without target: a kind, a value, and for address kinds possibly the modifier. */
  predicate WellFormedRule(line: string) {
    var fields := Fields(line);
    && (|fields| == 2 || |fields| == 3) && ClassicalKind(fields[0])
    && (|fields| == 2 ==> fields[1] != [])
    && (|fields| == 3 ==> Lower(fields[2]) == "no-resolve" && NoResolveKind(fields[0]))
    && ByteLength(line) <= 1024 && forall c :: c in line ==> !IsControl(c)
  }

  lemma NoKindIsEmpty(kind: string)
    requires ClassicalKind(kind)
    ensures kind != []
  {
  }

  lemma JudgeMeans(raw: string)
    ensures Judge(raw).Skip? <==> Blank(Trim(raw))
    ensures Judge(raw) == Keep(Trim(raw)) <==> !Blank(Trim(raw)) && WellFormedRule(Trim(raw))
    ensures Judge(raw).Keep? ==> Judge(raw).line == Trim(raw)
  {
    hide Trim, Split, ClassicalKind, NoResolveKind, ByteLength, Lower;
    var line := Trim(raw);
    FieldCount(line);
    if ClassicalKind(Fields(line)[0]) {
      NoKindIsEmpty(Fields(line)[0]);
    }
  }

  lemma FieldCount(line: string)
    ensures |Fields(line)| == 1 <==> ',' !in line
  {
  }

  lemma {:induction false} KeptMeans(lines: seq<string>) returns (at: seq<int>)
    ensures KeptLines(lines).Some? <==> forall i :: 0 <= i < |lines| ==> Blank(Trim(lines[i])) || WellFormedRule(Trim(lines[i]))
    ensures KeptLines(lines).Some? ==>
              Listed(TrimAll(lines), KeptLines(lines).value, at) && forall i :: i in at <==> 0 <= i < |lines| && !Blank(Trim(lines[i]))
  {
    hide Trim, Judge, WellFormedRule, Blank;
    if lines == [] {
      at := [];
    } else {
      var n := |lines| - 1;
      var before := KeptMeans(lines[..n]);
      JudgeMeans(lines[n]);
      at := [];
      if KeptLines(lines[..n]).Some? {
        assert TrimAll(lines) == TrimAll(lines[..n]) + [Trim(lines[n])];
        at := ListedSnoc(TrimAll(lines[..n]), Trim(lines[n]), KeptLines(lines[..n]).value, before, !Blank(Trim(lines[n])));
      }
      assert forall i :: 0 <= i < n ==> lines[i] == lines[..n][i];
    }
  }

  /** A payload is accepted if and only if every line is blank, a comment or well formed, and one is no comment; the result
      is the trimmed lines that are neither blank nor comments, in order. */
  lemma ValidatedMeans(payload: string)
    ensures Validated(payload).Some? <==>
              && (forall i :: 0 <= i < |Lines(payload)| ==> Blank(Trim(Lines(payload)[i])) || WellFormedRule(Trim(Lines(payload)[i])))
              && exists i :: 0 <= i < |Lines(payload)| && !Blank(Trim(Lines(payload)[i]))
    ensures Validated(payload).Some? ==>
              exists at :: Listed(TrimAll(Lines(payload)), Validated(payload).value, at)
                           && forall i :: i in at <==> 0 <= i < |Lines(payload)| && !Blank(Trim(Lines(payload)[i]))
  {
    hide Trim, Lines, KeptLines, WellFormedRule, Blank;
    var lines := Lines(payload);
    var at := KeptMeans(lines);
    if KeptLines(lines).Some? {
      var kept := KeptLines(lines).value;
      if kept == [] {
        assert at == [];
      } else {
        assert at[0] in at;
      }
    }
  }

  /** Where a line of a payload comes from: layer, item of the layer, line of the item. */
  datatype Origin = Origin(layer: int, item: int, line: int)

  predicate OriginBefore(a: Origin, b: Origin) {
    a.layer < b.layer || (a.layer == b.layer && (a.item < b.item || (a.item == b.item && a.line < b.line)))
  }

  /** Entries come first, then the local payload, then the sources. */
  ghost predicate LineFrom(entries: seq<RuleEntry>, local: string, sources: seq<RuleSetSource>, o: Origin, line: string) {
    match o.layer
    case 0 => o.line == 0 && 0 <= o.item < |entries| && entries[o.item].enabled && Compiled(entries[o.item]) == Some(line)
    case 1 => o.item == 0 && Trim(local) != [] && LineOf(local, o.line, line)
    case 2 => 0 <= o.item < |sources| && sources[o.item].enabled && Trim(sources[o.item].cachedPayload) != []
              && LineOf(sources[o.item].cachedPayload, o.line, line)
    case _ => false
  }

  ghost predicate LineOf(payload: string, n: int, line: string) {
    Validated(payload).Some? && 0 <= n < |Validated(payload).value| && Validated(payload).value[n] == line
  }

  ghost predicate Ascending(origins: seq<Origin>) {
    forall i, k :: 0 <= i < k < |origins| ==> OriginBefore(origins[i], origins[k])
  }

  lemma {:induction false} EntryOrigins(entries: seq<RuleEntry>) returns (origins: seq<Origin>)
    ensures CompiledEntries(entries).Some? <==> forall i :: 0 <= i < |entries| && entries[i].enabled ==> Compiled(entries[i]).Some?
    ensures CompiledEntries(entries).Some? ==>
              && |origins| == |CompiledEntries(entries).value| && Ascending(origins)
              && (forall k :: 0 <= k < |origins| ==> EntryOrigin(entries, origins[k], CompiledEntries(entries).value[k]))
              && forall i :: 0 <= i < |entries| && entries[i].enabled ==> Origin(0, i, 0) in origins
  {
    hide Compiled;
    origins := [];
    if entries != [] {
      var n := |entries| - 1;
      var before := EntryOrigins(entries[..n]);
      assert forall i :: 0 <= i < n ==> entries[..n][i] == entries[i];
      if CompiledEntries(entries[..n]).Some? {
        origins := before + (if entries[n].enabled then [Origin(0, n, 0)] else []);
      }
    }
  }

  ghost predicate EntryOrigin(entries: seq<RuleEntry>, o: Origin, line: string) {
    o.layer == 0 && o.line == 0 && 0 <= o.item < |entries| && entries[o.item].enabled && Compiled(entries[o.item]) == Some(line)
  }

  predicate Counts(source: RuleSetSource) {
    source.enabled && Trim(source.cachedPayload) != []
  }

  ghost predicate SourceOrigin(sources: seq<RuleSetSource>, o: Origin, line: string) {
    o.layer == 2 && 0 <= o.item < |sources| && Counts(sources[o.item]) && LineOf(sources[o.item].cachedPayload, o.line, line)
  }

  lemma {:induction false} SourceOrigins(sources: seq<RuleSetSource>) returns (origins: seq<Origin>)
    ensures SourceLines(sources).Some? <==> forall i :: 0 <= i < |sources| && Counts(sources[i]) ==> Validated(sources[i].cachedPayload).Some?
    ensures SourceLines(sources).Some? ==>
              && |origins| == |SourceLines(sources).value| && Ascending(origins)
              && (forall k :: 0 <= k < |origins| ==> SourceOrigin(sources, origins[k], SourceLines(sources).value[k]))
              && forall o, line :: SourceOrigin(sources, o, line) ==> o in origins
  {
    hide Validated, Trim;
    origins := [];
    if sources != [] {
      var n := |sources| - 1;
      var before := SourceOrigins(sources[..n]);
      assert forall i :: 0 <= i < n ==> sources[..n][i] == sources[i];
      if SourceLines(sources[..n]).Some? && (Counts(sources[n]) ==> Validated(sources[n].cachedPayload).Some?) {
        var more := if Counts(sources[n]) then PayloadOrigins(2, n, |Validated(sources[n].cachedPayload).value|) else [];
        origins := before + more;
        forall o, line | SourceOrigin(sources, o, line) ensures o in origins {
          if o.item == n {
            assert more[o.line] == o;
          } else {
            assert SourceOrigin(sources[..n], o, line);
          }
        }
        forall k | 0 <= k < |origins| ensures SourceOrigin(sources, origins[k], SourceLines(sources).value[k]) {
          if k < |before| {
            assert SourceOrigin(sources[..n], before[k], SourceLines(sources[..n]).value[k]);
          }
        }
      }
    }
  }

  function PayloadOrigins(layer: int, item: int, n: nat): (r: seq<Origin>)
    ensures |r| == n && forall k :: 0 <= k < n ==> r[k] == Origin(layer, item, k)
  {
    seq(n, k => Origin(layer, item, k))
  }

  /** The layers hold exactly the lines of all origins, in the order of the origins. */
  lemma LayersMean(entries: seq<RuleEntry>, local: string, sources: seq<RuleSetSource>) returns (origins: seq<Origin>)
    ensures Layers(entries, local, sources).Some? <==>
              && (forall i :: 0 <= i < |entries| && entries[i].enabled ==> Compiled(entries[i]).Some?)
              && (Trim(local) != [] ==> Validated(local).Some?)
              && forall i :: 0 <= i < |sources| && Counts(sources[i]) ==> Validated(sources[i].cachedPayload).Some?
    ensures Layers(entries, local, sources).Some? ==>
              && |origins| == |Layers(entries, local, sources).value| && Ascending(origins)
              && (forall k :: 0 <= k < |origins| ==> LineFrom(entries, local, sources, origins[k], Layers(entries, local, sources).value[k]))
              && forall o, line :: LineFrom(entries, local, sources, o, line) ==> o in origins
  {
    hide Validated, Trim, Compiled, CompiledEntries, SourceLines;
    var a := EntryOrigins(entries);
    var c := SourceOrigins(sources);
    origins := [];
    if Layers(entries, local, sources).Some? {
      var b := if Trim(local) != [] then PayloadOrigins(1, 0, |Validated(local).value|) else [];
      origins := a + b + c;
      var lines := Layers(entries, local, sources).value;
      forall k | 0 <= k < |origins| ensures LineFrom(entries, local, sources, origins[k], lines[k]) {
        if k < |a| {
          assert EntryOrigin(entries, a[k], CompiledEntries(entries).value[k]);
        } else if k >= |a| + |b| {
          assert SourceOrigin(sources, c[k - |a| - |b|], SourceLines(sources).value[k - |a| - |b|]);
        }
      }
      forall o, line | LineFrom(entries, local, sources, o, line) ensures o in origins {
        if o.layer == 0 {
          assert Origin(0, o.item, 0) in a;
        } else if o.layer == 1 {
          assert b[o.line] == o;
        } else {
          assert SourceOrigin(sources, o, line);
        }
      }
      OriginsAscend(a, b, c);
    }
  }

  lemma OriginsAscend(a: seq<Origin>, b: seq<Origin>, c: seq<Origin>)
    requires Ascending(a) && Ascending(b) && Ascending(c)
    requires forall o :: o in a ==> o.layer == 0
    requires forall o :: o in b ==> o.layer == 1
    requires forall o :: o in c ==> o.layer == 2
    ensures Ascending(a + b + c)
  {
    var all := a + b + c;
    forall i, k | 0 <= i < k < |all| ensures OriginBefore(all[i], all[k]) {
      var x := if i < |a| then 0 else if i < |a| + |b| then 1 else 2;
      var y := if k < |a| then 0 else if k < |a| + |b| then 1 else 2;
      assert all[i].layer == x && all[k].layer == y;
    }
  }

  lemma {:induction false} FirstOccurrencesListed(rules: seq<string>) returns (at: seq<int>)
    ensures Listed(rules, FirstOccurrences(rules), at)
    ensures forall i :: i in at <==> 0 <= i < |rules| && !Seen(rules[..i], rules[i])
  {
    hide Lower, Seen;
    if rules == [] {
      at := [];
    } else {
      var n := |rules| - 1;
      var before := FirstOccurrencesListed(rules[..n]);
      at := ListedSnoc(rules[..n], rules[n], FirstOccurrences(rules[..n]), before, !Seen(rules[..n], rules[n]));
      assert rules == rules[..n] + [rules[n]];
      assert forall i :: 0 <= i < n ==> rules[..n][..i] == rules[..i] && rules[..n][i] == rules[i];
    }
  }

  lemma {:induction false} FirstOfLine(rules: seq<string>, i: nat) returns (k: nat)
    requires i < |rules|
    ensures k <= i && Lower(rules[k]) == Lower(rules[i]) && !Seen(rules[..k], rules[k])
    decreases i
  {
    hide Lower;
    if Seen(rules[..i], rules[i]) {
      var j :| 0 <= j < i && Lower(rules[..i][j]) == Lower(rules[i]);
      k := FirstOfLine(rules, j);
    } else {
      k := i;
    }
  }

  /** The lines of a payload and their origins: they come from the layers in order, no two are equal up to case, and every
      line of every layer is represented, up to case, by one from the same or an earlier origin. */
  ghost predicate PayloadFrom(entries: seq<RuleEntry>, local: string, sources: seq<RuleSetSource>, lines: seq<string>, origins: seq<Origin>) {
    && |origins| == |lines| && Ascending(origins)
    && (forall k :: 0 <= k < |lines| ==> LineFrom(entries, local, sources, origins[k], lines[k]))
    && (forall i, k :: 0 <= i < k < |lines| ==> Lower(lines[i]) != Lower(lines[k]))
    && forall o, line :: LineFrom(entries, local, sources, o, line) ==> Represented(lines, origins, o, line)
  }

  ghost predicate Represented(lines: seq<string>, origins: seq<Origin>, o: Origin, line: string) {
    exists k :: 0 <= k < |lines| && k < |origins| && Lower(lines[k]) == Lower(line) && (origins[k] == o || OriginBefore(origins[k], o))
  }

  lemma OriginsOfOccurrences(entries: seq<RuleEntry>, local: string, sources: seq<RuleSetSource>, rules: seq<string>, origins: seq<Origin>)
    returns (kept: seq<Origin>)
    requires |origins| == |rules| && Ascending(origins)
    requires forall k :: 0 <= k < |origins| ==> LineFrom(entries, local, sources, origins[k], rules[k])
    requires forall o, line :: LineFrom(entries, local, sources, o, line) ==> o in origins
    ensures PayloadFrom(entries, local, sources, FirstOccurrences(rules), kept)
  {
    hide Lower, FirstOccurrences, LineFrom, Seen;
    var at := FirstOccurrencesListed(rules);
    var lines := FirstOccurrences(rules);
    kept := seq(|at|, k requires 0 <= k < |at| => origins[at[k]]);
    forall i, k | 0 <= i < k < |lines| ensures Lower(lines[i]) != Lower(lines[k]) {
      FirstOccurrencesDistinct(rules, i, k);
    }
    forall o, line | LineFrom(entries, local, sources, o, line) ensures Represented(lines, kept, o, line) {
      var i :| 0 <= i < |origins| && origins[i] == o;
      SameOriginSameLine(entries, local, sources, o, line, rules[i]);
      var k := FirstListed(rules, at, i);
      assert kept[k] == origins[at[k]];
    }
  }

  lemma FirstListed(rules: seq<string>, at: seq<int>, i: nat) returns (k: nat)
    requires Listed(rules, FirstOccurrences(rules), at) && i < |rules|
    requires forall j :: j in at <==> 0 <= j < |rules| && !Seen(rules[..j], rules[j])
    ensures k < |at| && at[k] <= i && Lower(FirstOccurrences(rules)[k]) == Lower(rules[i])
  {
    hide Lower, FirstOccurrences, Seen;
    var j := FirstOfLine(rules, i);
    assert j in at;
    k :| 0 <= k < |at| && at[k] == j;
  }

  lemma SameOriginSameLine(entries: seq<RuleEntry>, local: string, sources: seq<RuleSetSource>, o: Origin, x: string, y: string)
    requires LineFrom(entries, local, sources, o, x) && LineFrom(entries, local, sources, o, y)
    ensures x == y
  {
    hide Validated, Trim, Compiled;
  }

  /** Compilation fails exactly if some enabled part is invalid or nothing is left. */
  lemma CompiledExactly(entries: seq<RuleEntry>, local: string, sources: seq<RuleSetSource>)
    ensures CompiledPayload(entries, local, sources).Some? <==>
              && (forall i :: 0 <= i < |entries| && entries[i].enabled ==> Compiled(entries[i]).Some?)
              && (Trim(local) != [] ==> Validated(local).Some?)
              && (forall i :: 0 <= i < |sources| && sources[i].enabled && Trim(sources[i].cachedPayload) != [] ==>
                    Validated(sources[i].cachedPayload).Some?)
              && exists o, line :: LineFrom(entries, local, sources, o, line)
  {
    hide Validated, Trim, Compiled, Layers, LineFrom, FirstOccurrences, Join;
    var origins := LayersMean(entries, local, sources);
    if Layers(entries, local, sources).Some? {
      var lines := Layers(entries, local, sources).value;
      if lines != [] {
        assert LineFrom(entries, local, sources, origins[0], lines[0]);
      }
    }
  }

  // ------------------------------------------------------------------
  // Deduplicating entries

  /** What makes two entries duplicates. */
  function EntryKey(entry: RuleEntry): string {
    Lower(entry.kind.MihomoName() + ":" + Trim(entry.value))
  }

  predicate KeySeen(entries: seq<RuleEntry>, entry: RuleEntry) {
    exists i :: 0 <= i < |entries| && EntryKey(entries[i]) == EntryKey(entry)
  }

  /** The first entry of every key. */
  function Deduplicated(entries: seq<RuleEntry>): seq<RuleEntry> {
    if entries == [] then []
    else
      var n := |entries| - 1;
      Deduplicated(entries[..n]) + if KeySeen(entries[..n], entries[n]) then [] else [entries[n]]
  }

  lemma {:induction false} DeduplicatedListed(entries: seq<RuleEntry>) returns (at: seq<int>)
    ensures Listed(entries, Deduplicated(entries), at)
    ensures forall i :: i in at <==> 0 <= i < |entries| && !KeySeen(entries[..i], entries[i])
  {
    hide KeySeen;
    if entries == [] {
      at := [];
    } else {
      var n := |entries| - 1;
      var before := DeduplicatedListed(entries[..n]);
      at := ListedSnoc(entries[..n], entries[n], Deduplicated(entries[..n]), before, !KeySeen(entries[..n], entries[n]));
      assert entries == entries[..n] + [entries[n]];
      assert forall i :: 0 <= i < n ==> entries[..n][..i] == entries[..i] && entries[..n][i] == entries[i];
    }
  }

  /** The entry repeats the kind and, up to case and white space around it, the value of an earlier one. */
  ghost predicate Repeats(entries: seq<RuleEntry>, i: int)
    requires 0 <= i < |entries|
  {
    exists k :: 0 <= k < i && entries[k].kind == entries[i].kind && Lower(Trim(entries[k].value)) == Lower(Trim(entries[i].value))
  }

  lemma KindsByName(a: RuleKind, b: RuleKind)
    ensures Lower(a.MihomoName()) == Lower(b.MihomoName()) ==> a == b
  {
    KindPrint(a);
    KindPrint(b);
  }

  /** Length and the characters at the ends tell the kinds apart. */
  lemma KindPrint(kind: RuleKind)
    ensures var s := Lower(kind.MihomoName());
            match kind
            case Domain => |s| == 6
            case DomainSuffix => |s| == 13
            case DomainKeyword => |s| == 14
            case IpCidr => |s| == 7 && s[0] == 'i'
            case IpCidr6 => |s| == 8 && s[0] == 'i'
            case Geoip => |s| == 5
            case Geosite => |s| == 7 && s[0] == 'g' && s[3] == 's'
            case Asn => |s| == 6 && s[0] == 'i'
            case ProcessName => |s| == 12
            case DstPort => |s| == 8 && s[0] == 'd'
            case SrcPort => |s| == 8 && s[0] == 's'
            case Network => |s| == 7 && s[0] == 'n'
            case Classical => |s| == 9
    ensures kind == Domain ==> Lower(kind.MihomoName())[0] == 'd'
  {
  }

  lemma SameKeyMeans(a: RuleEntry, b: RuleEntry)
    ensures EntryKey(a) == EntryKey(b) <==> a.kind == b.kind && Lower(Trim(a.value)) == Lower(Trim(b.value))
  {
    hide Trim, Lower, RuleKind.MihomoName;
    var va, vb := Trim(a.value), Trim(b.value);
    var na, nb := a.kind.MihomoName(), b.kind.MihomoName();
    LowerWith(na, ":", va);
    LowerWith(nb, ":", vb);
    if EntryKey(a) == EntryKey(b) {
      KindNames(a.kind);
      KindNames(b.kind);
      assert EntryKey(a) == Lower(na) + [':'] + Lower(va) && EntryKey(b) == Lower(nb) + [':'] + Lower(vb);
      SplitHead(Lower(na), Lower(va), ':');
      SplitHead(Lower(nb), Lower(vb), ':');
      assert Lower(na) == Split(EntryKey(a), ':')[0];
      assert Lower(nb) == Split(EntryKey(b), ':')[0];
      KindsByName(a.kind, b.kind);
      assert EntryKey(a)[|na| + 1..] == Lower(va) && EntryKey(b)[|nb| + 1..] == Lower(vb);
    }
  }

  /** Deduplication keeps exactly the entries that repeat no earlier one, in order. */
  lemma DeduplicatedMeans(entries: seq<RuleEntry>)
    ensures exists at :: Listed(entries, Deduplicated(entries), at) && forall i :: i in at <==> 0 <= i < |entries| && !Repeats(entries, i)
  {
    hide EntryKey, Lower, Trim;
    var at := DeduplicatedListed(entries);
    forall i | 0 <= i < |entries| ensures KeySeen(entries[..i], entries[i]) <==> Repeats(entries, i) {
      if KeySeen(entries[..i], entries[i]) {
        var k :| 0 <= k < i && EntryKey(entries[..i][k]) == EntryKey(entries[i]);
        SameKeyMeans(entries[k], entries[i]);
      }
      if Repeats(entries, i) {
        var k :| 0 <= k < i && entries[k].kind == entries[i].kind && Lower(Trim(entries[k].value)) == Lower(Trim(entries[i].value));
        SameKeyMeans(entries[k], entries[i]);
        assert entries[..i][k] == entries[k];
      }
    }
  }

  /** The line of a typed entry names its kind and carries its value. */
  lemma EntryTextMeans(entry: RuleEntry)
    ensures EntryText(entry) ==
              match entry.kind
              case Domain => "DOMAIN," + Trim(entry.value)
              case DomainSuffix => "DOMAIN-SUFFIX," + Trim(entry.value)
              case DomainKeyword => "DOMAIN-KEYWORD," + Trim(entry.value)
              case IpCidr => "IP-CIDR," + Trim(entry.value)
              case IpCidr6 => "IP-CIDR6," + Trim(entry.value)
              case Geoip => "GEOIP," + Trim(entry.value)
              case Geosite => "GEOSITE," + Trim(entry.value)
              case Asn => "IP-ASN," + Trim(entry.value)
              case ProcessName => "PROCESS-NAME," + Trim(entry.value)
              case DstPort => "DST-PORT," + Trim(entry.value)
              case SrcPort => "SRC-PORT," + Trim(entry.value)
              case Network => "NETWORK," + Trim(entry.value)
              case Classical => Trim(entry.value)
  {
    hide Trim;
  }

  ghost predicate DistinctEntryIds(entries: seq<RuleEntry>) {
    forall i, k :: 0 <= i < k < |entries| ==> entries[i].id != entries[k].id
  }

  /** The IDs of the entries that repeat an earlier one. */
  method DuplicateIds(entries: seq<RuleEntry>) returns (duplicates: set<string>)
    requires DistinctEntryIds(entries)
    ensures forall k :: 0 <= k < |entries| ==> (entries[k].id in duplicates <==> KeySeen(entries[..k], entries[k]))
  {
    hide EntryKey, KeySeen;
    var seen: set<string> := {};
    duplicates := {};
    for i := 0 to |entries|
      invariant forall k :: 0 <= k < i ==> EntryKey(entries[k]) in seen
      invariant forall x :: x in seen ==> exists k :: 0 <= k < i && EntryKey(entries[k]) == x
      invariant forall k :: 0 <= k < i ==> (entries[k].id in duplicates <==> KeySeen(entries[..k], entries[k]))
      invariant forall k :: i <= k < |entries| ==> entries[k].id !in duplicates
    {
      KeySeenIn(entries, i, seen);
      if EntryKey(entries[i]) in seen {
        duplicates := duplicates + {entries[i].id};
      }
      seen := seen + {EntryKey(entries[i])};
    }
  }

  lemma KeySeenIn(entries: seq<RuleEntry>, i: nat, seen: set<string>)
    requires i < |entries|
    requires forall k :: 0 <= k < i ==> EntryKey(entries[k]) in seen
    requires forall x :: x in seen ==> exists k :: 0 <= k < i && EntryKey(entries[k]) == x
    ensures KeySeen(entries[..i], entries[i]) <==> EntryKey(entries[i]) in seen
  {
    hide EntryKey;
    if EntryKey(entries[i]) in seen {
      var k :| 0 <= k < i && EntryKey(entries[k]) == EntryKey(entries[i]);
      assert entries[..i][k] == entries[k];
    }
  }

  /** Leaves out the rows of later duplicates. */
  method WithoutDuplicates(entries: seq<RuleEntry>) returns (remaining: seq<RuleEntry>)
    requires DistinctEntryIds(entries)
    ensures remaining == Deduplicated(entries) && |remaining| <= |entries|
  {
    hide KeySeen;
    var duplicates := DuplicateIds(entries);
    remaining := [];
    for i := 0 to |entries|
      invariant remaining == Deduplicated(entries[..i]) && |remaining| <= i
    {
      assert entries[..i + 1][..i] == entries[..i];
      if entries[i].id !in duplicates {
        remaining := remaining + [entries[i]];
      }
    }
    assert entries[..|entries|] == entries;
  }

  /** The stored entries of one rule set, in load order. */
  class EntryTable {
    var entries: seq<RuleEntry>

    /** Deletes later duplicates; an enabled rule set has to stay compilable, otherwise nothing is deleted. */
    method Deduplicate(ruleSet: Option<RoutingRuleSet>, sources: seq<RuleSetSource>) returns (removed: Option<nat>)
      requires DistinctEntryIds(entries)
      modifies this
      ensures removed.Some? <==>
                ruleSet.Some?
                && (ruleSet.value.enabled ==> CompiledPayload(Deduplicated(old(entries)), ruleSet.value.payload, sources).Some?)
      ensures entries == if removed.Some? then Deduplicated(old(entries)) else old(entries)
      ensures removed.Some? ==> removed.value == |old(entries)| - |entries|
    {
      var remaining := WithoutDuplicates(entries);
      if ruleSet.None? {
        return None;
      }
      if ruleSet.value.enabled {
        var compiled := CompileRuleSetPayload(remaining, ruleSet.value.payload, sources);
        if compiled.None? {
          return None;
        }
      }
      removed := Some(|entries| - |remaining|);
      entries := remaining;
    }
  }

  /** What storage guarantees of a stored entry. */
  predicate ValidEntry(entry: RuleEntry) {
    !HasControl(entry.value) && Compiled(entry).Some?
  }

  /** A valid entry compiles to its own trimmed text. */
  lemma CompiledIsText(entry: RuleEntry)
    requires ValidEntry(entry)
    ensures Compiled(entry) == Some(Trim(EntryText(entry)))
  {
    hide Judge, Trim;
    var text := EntryText(entry);
    TextHasNoBreak(entry);
    SplitHead(text, [], '\n');
    NothingValidated();
    assert Lines(text) == [text];
    assert KeptLines([text][..0]) == Some([]);
    JudgeKeepsTrimmed(text);
  }

  lemma NothingValidated()
    ensures Validated([]) == None
  {
    NoLines();
  }

  lemma JudgeKeepsTrimmed(raw: string)
    requires Judge(raw).Keep?
    ensures Judge(raw).line == Trim(raw)
  {
  }

  lemma TextHasNoBreak(entry: RuleEntry)
    requires !HasControl(entry.value)
    ensures '\n' !in EntryText(entry)
  {
    assert IsControl('\n');
    TrimFacts(entry.value);
    assert '\n' !in entry.kind.MihomoName();
  }

  lemma LowerConcat(a: string, b: string)
    ensures Lower(a + b) == Lower(a) + Lower(b)
  {
  }

  /** Duplicates compile to the same line, up to case. */
  lemma SameKeySameLine(a: RuleEntry, b: RuleEntry)
    requires EntryKey(a) == EntryKey(b) && ValidEntry(a) && ValidEntry(b)
    ensures Lower(Compiled(a).value) == Lower(Compiled(b).value)
  {
    hide ValidEntry, Compiled, Trim, EntryText, Lower;
    CompiledIsText(a);
    CompiledIsText(b);
    TrimLower(EntryText(a));
    TrimLower(EntryText(b));
    SameKeySameText(a, b);
  }

  lemma SameKeySameText(a: RuleEntry, b: RuleEntry)
    requires EntryKey(a) == EntryKey(b)
    ensures Lower(EntryText(a)) == Lower(EntryText(b))
  {
    hide Trim, Lower, RuleKind.MihomoName;
    var va, vb := Trim(a.value), Trim(b.value);
    var na, nb := a.kind.MihomoName(), b.kind.MihomoName();
    KindNames(a.kind);
    KindNames(b.kind);
    LowerConcat(na + ":", va);
    LowerConcat(na, ":");
    LowerConcat(nb + ":", vb);
    LowerConcat(nb, ":");
    assert Lower(":") == ":" && Lower(",") == ",";
    SplitHead(Lower(na), Lower(va), ':');
    SplitHead(Lower(nb), Lower(vb), ':');
    assert EntryKey(a) == Lower(na) + [':'] + Lower(va) && EntryKey(b) == Lower(nb) + [':'] + Lower(vb);
    assert Lower(na) == [Lower(na)][0] == Split(EntryKey(a), ':')[0];
    assert Lower(nb) == Split(EntryKey(b), ':')[0];
    assert Lower(va) == Lower(vb) by {
      assert EntryKey(a)[|na| + 1..] == Lower(va) && EntryKey(b)[|nb| + 1..] == Lower(vb);
    }
    LowerConcat(na + ",", va);
    LowerConcat(na, ",");
    LowerConcat(nb + ",", vb);
    LowerConcat(nb, ",");
  }

  lemma KindNames(kind: RuleKind)
    ensures ':' !in Lower(kind.MihomoName()) && ',' !in Lower(kind.MihomoName())
    ensures kind.MihomoName() != [] && !IsSpace(kind.MihomoName()[0]) && (kind == Classical <==> |kind.MihomoName()| == 9)
  {
  }

  /** Entries with the same lines produce the same payload behind any other layers. */
  lemma {:induction false} SameFrontSameOccurrences(a: seq<string>, b: seq<string>, c: seq<string>)
    requires FirstOccurrences(a) == FirstOccurrences(b) && forall x :: Seen(a, x) <==> Seen(b, x)
    ensures FirstOccurrences(a + c) == FirstOccurrences(b + c) && forall x :: Seen(a + c, x) <==> Seen(b + c, x)
  {
    if c == [] {
      assert a + c == a && b + c == b;
    } else {
      var n := |c| - 1;
      SameFrontSameOccurrences(a, b, c[..n]);
      assert (a + c)[..|a + c| - 1] == a + c[..n] && (b + c)[..|b + c| - 1] == b + c[..n];
      assert a + c == a + c[..n] + [c[n]] && b + c == b + c[..n] + [c[n]];
      forall x ensures Seen(a + c, x) <==> Seen(b + c, x) {
        SeenExtended(a + c[..n], c[n], x);
        SeenExtended(b + c[..n], c[n], x);
      }
    }
  }

  lemma SeenExtended(rules: seq<string>, line: string, x: string)
    ensures Seen(rules + [line], x) <==> Seen(rules, x) || Lower(line) == Lower(x)
  {
    if Seen(rules, x) {
      var i :| 0 <= i < |rules| && Lower(rules[i]) == Lower(x);
      assert (rules + [line])[i] == rules[i];
    }
    assert (rules + [line])[|rules|] == line;
  }

  /** Entry `i` is enabled and is the one of its key that deduplication keeps. */
  predicate KeptFor(entries: seq<RuleEntry>, k: nat, i: int)
    requires k < |entries|
  {
    0 <= i <= k && entries[i].enabled && EntryKey(entries[i]) == EntryKey(entries[k]) && !KeySeen(entries[..i], entries[i])
  }

  /** Every enabled entry is kept, or an enabled one is kept for it. */
  ghost predicate FirstsEnabled(entries: seq<RuleEntry>) {
    forall k :: 0 <= k < |entries| && entries[k].enabled ==> exists i :: KeptFor(entries, k, i)
  }

  ghost predicate EnabledValid(entries: seq<RuleEntry>) {
    forall i :: 0 <= i < |entries| && entries[i].enabled ==> ValidEntry(entries[i])
  }

  lemma FirstsEnabledPrefix(head: seq<RuleEntry>, last: RuleEntry)
    requires FirstsEnabled(head + [last])
    ensures FirstsEnabled(head)
    ensures last.enabled && KeySeen(head, last) ==>
              exists i :: 0 <= i < |head| && head[i].enabled && EntryKey(head[i]) == EntryKey(last)
  {
    hide EntryKey;
    var all := head + [last];
    forall k | 0 <= k < |head| && head[k].enabled ensures exists i :: KeptFor(head, k, i) {
      assert all[k] == head[k];
      var i :| KeptFor(all, k, i);
      assert all[..i] == head[..i];
      assert KeptFor(head, k, i);
    }
    if last.enabled && KeySeen(head, last) {
      assert all[|head|] == last && all[..|head|] == head;
      var i :| KeptFor(all, |head|, i);
      assert i < |head| && all[i] == head[i];
    }
  }

  /** Same retained lines, same lines to compare later ones with. */
  ghost predicate Alike(a: seq<string>, b: seq<string>) {
    FirstOccurrences(a) == FirstOccurrences(b) && forall x :: Seen(a, x) <==> Seen(b, x)
  }

  ghost predicate EnabledSeen(entries: seq<RuleEntry>, lines: seq<string>) {
    forall i :: 0 <= i < |entries| && entries[i].enabled ==>
      Compiled(entries[i]).Some? && Seen(lines, Compiled(entries[i]).value)
  }

  lemma CompiledSnoc(entries: seq<RuleEntry>, last: RuleEntry)
    requires CompiledEntries(entries).Some?
    ensures !last.enabled ==> CompiledEntries(entries + [last]) == CompiledEntries(entries)
    ensures last.enabled && Compiled(last).Some? ==>
              CompiledEntries(entries + [last]) == Some(CompiledEntries(entries).value + [Compiled(last).value])
  {
    hide Compiled;
    assert (entries + [last])[..|entries|] == entries;
  }

  /** A repeated line changes nothing; a new one is retained by both or by neither. */
  lemma AlikeExtended(a: seq<string>, b: seq<string>, line: string)
    requires Alike(a, b)
    ensures Alike(a + [line], b + [line])
    ensures Seen(a, line) ==> Alike(a + [line], b)
  {
    hide Lower;
    SameFrontSameOccurrences(a, b, [line]);
    assert (a + [line])[..|a|] == a;
    forall x ensures Seen(a + [line], x) <==> Seen(a, x) || Lower(line) == Lower(x) {
      SeenExtended(a, line, x);
    }
  }

  lemma EnabledSeenExtended(head: seq<RuleEntry>, last: RuleEntry, lines: seq<string>)
    requires EnabledSeen(head, lines) && Compiled(last).Some?
    ensures last.enabled ==> EnabledSeen(head + [last], lines + [Compiled(last).value])
  {
    hide Compiled, Seen;
    var line := Compiled(last).value;
    SeenExtended(lines, line, line);
    forall i | 0 <= i < |head| && head[i].enabled ensures Seen(lines + [line], Compiled(head[i]).value) {
      SeenExtended(lines, line, Compiled(head[i]).value);
    }
  }

  lemma DisabledSeenExtended(head: seq<RuleEntry>, last: RuleEntry, lines: seq<string>)
    requires EnabledSeen(head, lines) && !last.enabled
    ensures EnabledSeen(head + [last], lines)
  {
  }

  lemma DuplicateIsSeen(head: seq<RuleEntry>, last: RuleEntry, lines: seq<string>)
    requires FirstsEnabled(head + [last]) && EnabledValid(head + [last]) && last.enabled && KeySeen(head, last) && EnabledSeen(head, lines)
    ensures Compiled(last).Some? && Seen(lines, Compiled(last).value)
  {
    hide Compiled, EntryKey, Lower;
    var all := head + [last];
    FirstsEnabledPrefix(head, last);
    var i :| 0 <= i < |head| && head[i].enabled && EntryKey(head[i]) == EntryKey(last);
    assert all[i] == head[i] && all[|head|] == last;
    assert Compiled(head[i]).Some? && Compiled(last).Some? && ValidEntry(head[i]) && ValidEntry(last);
    SameKeySameLine(head[i], last);
    var k :| 0 <= k < |lines| && Lower(lines[k]) == Lower(Compiled(head[i]).value);
  }

  lemma {:induction false} DeduplicationKeepsLines(entries: seq<RuleEntry>)
    requires FirstsEnabled(entries) && EnabledValid(entries)
    ensures CompiledEntries(entries).Some? && CompiledEntries(Deduplicated(entries)).Some?
    ensures Alike(CompiledEntries(entries).value, CompiledEntries(Deduplicated(entries)).value)
    ensures EnabledSeen(entries, CompiledEntries(entries).value)
  {
    hide Compiled, EntryKey, Lower, Alike, EnabledSeen, KeySeen, Seen, FirstsEnabled;
    if entries == [] {
      NothingAlike();
    } else {
      var n := |entries| - 1;
      var head, last := entries[..n], entries[n];
      assert entries == head + [last];
      FirstsEnabledPrefix(head, last);
      DeduplicationKeepsLines(head);
      assert last.enabled ==> Compiled(last).Some?;
      var a, b := CompiledEntries(head).value, CompiledEntries(Deduplicated(head)).value;
      CompiledSnoc(head, last);
      CompiledSnoc(Deduplicated(head), last);
      if last.enabled {
        EnabledSeenExtended(head, last, a);
        AlikeExtended(a, b, Compiled(last).value);
        if KeySeen(head, last) {
          DuplicateIsSeen(head, last, a);
        }
      } else {
        assert Deduplicated(entries) == Deduplicated(head) || Deduplicated(entries) == Deduplicated(head) + [last] by {
          assert Deduplicated(head) + [] == Deduplicated(head);
        }
        DisabledSeenExtended(head, last, a);
      }
    }
  }

  lemma NothingAlike()
    ensures Alike([], []) && EnabledSeen([], [])
  {
  }

  /** Entries with alike lines have the same payload behind any local lines and sources. */
  lemma SameFrontSamePayload(entries: seq<RuleEntry>, others: seq<RuleEntry>, local: string, sources: seq<RuleSetSource>)
    requires CompiledEntries(entries).Some? && CompiledEntries(others).Some?
    requires Alike(CompiledEntries(entries).value, CompiledEntries(others).value)
    ensures CompiledPayload(others, local, sources) == CompiledPayload(entries, local, sources)
  {
    hide CompiledEntries, FirstOccurrences, Join, LocalLines, SourceLines, Seen;
    var a, b := CompiledEntries(entries).value, CompiledEntries(others).value;
    if LocalLines(local).Some? && SourceLines(sources).Some? {
      var c := LocalLines(local).value + SourceLines(sources).value;
      SameFrontSameOccurrences(a, b, c);
      assert a + LocalLines(local).value + SourceLines(sources).value == a + c;
      assert b + LocalLines(local).value + SourceLines(sources).value == b + c;
      FirstOccurrencesEmpty(a + c);
      FirstOccurrencesEmpty(b + c);
    }
  }

  /** Deduplicating entries first leaves the compiled payload identical. */
  lemma DeduplicationKeepsPayload(entries: seq<RuleEntry>, local: string, sources: seq<RuleSetSource>)
    requires FirstsEnabled(entries) && EnabledValid(entries)
    ensures CompiledPayload(Deduplicated(entries), local, sources) == CompiledPayload(entries, local, sources)
  {
    hide CompiledEntries, CompiledPayload, Alike, Deduplicated, FirstsEnabled, EnabledValid;
    DeduplicationKeepsLines(entries);
    SameFrontSamePayload(entries, Deduplicated(entries), local, sources);
  }

  /** Without aliases, a line tells the key of its entry. */
  lemma SameLineSameKey(a: RuleEntry, b: RuleEntry)
    requires ValidEntry(a) && ValidEntry(b) && a.kind != Classical && b.kind != Classical
    requires Lower(Compiled(a).value) == Lower(Compiled(b).value)
    ensures EntryKey(a) == EntryKey(b)
  {
    hide Trim, Lower, RuleKind.MihomoName, Compiled, ValidEntry;
    CompiledIsText(a);
    CompiledIsText(b);
    TextIsTrimmed(a);
    TextIsTrimmed(b);
    var va, vb := Trim(a.value), Trim(b.value);
    var na, nb := a.kind.MihomoName(), b.kind.MihomoName();
    LowerWith(na, ",", va);
    LowerWith(nb, ",", vb);
    LowerWith(na, ":", va);
    LowerWith(nb, ":", vb);
    KindNames(a.kind);
    KindNames(b.kind);
    var ta, tb := Lower(EntryText(a)), Lower(EntryText(b));
    assert ta == Lower(na) + [','] + Lower(va) && tb == Lower(nb) + [','] + Lower(vb);
    SplitHead(Lower(na), Lower(va), ',');
    SplitHead(Lower(nb), Lower(vb), ',');
    assert Lower(na) == Split(ta, ',')[0];
    assert Lower(nb) == Split(tb, ',')[0];
    assert Lower(va) == ta[|na| + 1..] && Lower(vb) == tb[|nb| + 1..];
  }

  lemma LowerWith(name: string, mark: string, value: string)
    requires mark == "," || mark == ":"
    ensures Lower(name + mark + value) == Lower(name) + mark + Lower(value)
  {
    assert Lower(mark) == mark;
    LowerConcat(name + mark, value);
    LowerConcat(name, mark);
  }

  /** Typed texts need no trimming. */
  lemma TextIsTrimmed(entry: RuleEntry)
    requires entry.kind != Classical
    ensures Trim(EntryText(entry)) == EntryText(entry)
  {
    hide Lower, RuleKind.MihomoName;
    KindNames(entry.kind);
    var text := EntryText(entry);
    var value := Trim(entry.value);
    assert !IsSpace(text[0]);
    assert !IsSpace(text[|text| - 1]) by {
      assert value == [] || text[|text| - 1] == value[|value| - 1];
    }
  }

  lemma {:induction false} LineHasEntry(entries: seq<RuleEntry>, line: string)
    requires CompiledEntries(entries).Some? && line in CompiledEntries(entries).value
    ensures exists e :: e in entries && e.enabled && Compiled(e) == Some(line)
  {
    hide Compiled;
    var n := |entries| - 1;
    var head, last := entries[..n], entries[n];
    assert entries == head + [last];
    CompiledEntriesPrefix(entries);
    CompiledSnoc(head, last);
    if line in CompiledEntries(head).value {
      LineHasEntry(head, line);
    } else {
      assert last.enabled && Compiled(last) == Some(line);
    }
  }

  lemma CompiledEntriesPrefix(entries: seq<RuleEntry>)
    requires entries != [] && CompiledEntries(entries).Some?
    ensures CompiledEntries(entries[..|entries| - 1]).Some?
    ensures entries[|entries| - 1].enabled ==> Compiled(entries[|entries| - 1]).Some?
  {
    hide Compiled;
  }

  lemma {:induction false} EnabledCompile(entries: seq<RuleEntry>)
    requires forall e :: e in entries && e.enabled ==> Compiled(e).Some?
    ensures CompiledEntries(entries).Some? && EnabledSeen(entries, CompiledEntries(entries).value)
  {
    hide Compiled, EnabledSeen;
    if entries == [] {
      NothingAlike();
    } else {
      var n := |entries| - 1;
      var head, last := entries[..n], entries[n];
      assert entries == head + [last];
      EnabledCompile(head);
      CompiledSnoc(head, last);
      if last.enabled {
        EnabledSeenExtended(head, last, CompiledEntries(head).value);
      } else {
        DisabledSeenExtended(head, last, CompiledEntries(head).value);
      }
    }
  }

  lemma {:induction false} DeduplicatedAreFirst(entries: seq<RuleEntry>, e: RuleEntry)
    requires e in Deduplicated(entries)
    ensures exists i :: 0 <= i < |entries| && entries[i] == e && !KeySeen(entries[..i], e)
  {
    hide KeySeen;
    var n := |entries| - 1;
    if e in Deduplicated(entries[..n]) {
      DeduplicatedAreFirst(entries[..n], e);
      var i :| 0 <= i < n && entries[..n][i] == e && !KeySeen(entries[..n][..i], e);
      assert entries[..n][..i] == entries[..i] && entries[i] == e;
    } else {
      assert entries[n] == e && !KeySeen(entries[..n], e);
    }
  }

  /** Enabled entries with the same line, up to case, are duplicates of each other. */
  ghost predicate NoAliases(entries: seq<RuleEntry>) {
    forall i, k :: 0 <= i < |entries| && 0 <= k < |entries| ==> !Alias(entries[i], entries[k])
  }

  ghost predicate Alias(a: RuleEntry, b: RuleEntry) {
    && a.enabled && b.enabled && EntryKey(a) != EntryKey(b) && Compiled(a).Some? && Compiled(b).Some?
    && Lower(Compiled(a).value) == Lower(Compiled(b).value)
  }

  /** Only a classical entry can be an alias. */
  lemma TypedHaveNoAliases(entries: seq<RuleEntry>)
    requires EnabledValid(entries) && forall e :: e in entries ==> e.kind != Classical
    ensures NoAliases(entries)
  {
    hide Compiled, EntryKey, Lower, ValidEntry;
    forall i, k | 0 <= i < |entries| && 0 <= k < |entries| ensures !Alias(entries[i], entries[k]) {
      if Alias(entries[i], entries[k]) {
        assert entries[i] in entries && entries[k] in entries && ValidEntry(entries[i]) && ValidEntry(entries[k]);
        SameLineSameKey(entries[i], entries[k]);
      }
    }
  }

  /** The line of an enabled entry without an enabled representative is lost. */
  lemma LostLine(entries: seq<RuleEntry>, k: nat)
    requires EnabledValid(entries) && NoAliases(entries) && k < |entries| && entries[k].enabled
    requires !exists i :: KeptFor(entries, k, i)
    requires CompiledEntries(Deduplicated(entries)).Some? && Compiled(entries[k]).Some?
    ensures !Seen(CompiledEntries(Deduplicated(entries)).value, Compiled(entries[k]).value)
  {
    hide Compiled, EntryKey, Lower, KeySeen, CompiledEntries, Deduplicated, KeptFor, EnabledValid, ValidEntry;
    var lines := CompiledEntries(Deduplicated(entries)).value;
    var line := Compiled(entries[k]).value;
    if Seen(lines, line) {
      var n :| 0 <= n < |lines| && Lower(lines[n]) == Lower(line);
      LineHasEntry(Deduplicated(entries), lines[n]);
      var e :| e in Deduplicated(entries) && e.enabled && Compiled(e) == Some(lines[n]);
      DeduplicatedAreFirst(entries, e);
      var i :| 0 <= i < |entries| && entries[i] == e && !KeySeen(entries[..i], e);
      FirstIsKept(entries, k, i);
    }
  }

  lemma FirstIsKept(entries: seq<RuleEntry>, k: nat, i: nat)
    requires EnabledValid(entries) && NoAliases(entries) && k < |entries| && i < |entries|
    requires entries[k].enabled && entries[i].enabled && !KeySeen(entries[..i], entries[i])
    requires Compiled(entries[k]).Some? && Compiled(entries[i]).Some?
    requires Lower(Compiled(entries[i]).value) == Lower(Compiled(entries[k]).value)
    ensures KeptFor(entries, k, i)
  {
    hide Compiled, EntryKey, Lower, ValidEntry;
    assert !Alias(entries[i], entries[k]);
  }

  lemma LinesOfEntriesValid(entries: seq<RuleEntry>)
    requires CompiledEntries(entries).Some?
    ensures forall x :: x in CompiledEntries(entries).value ==> ValidLine(x)
  {
    hide Compiled, ValidLine;
    forall x | x in CompiledEntries(entries).value ensures ValidLine(x) {
      LineHasEntry(entries, x);
      var e :| e in entries && e.enabled && Compiled(e) == Some(x);
      CompiledIsValid(e);
    }
  }

  lemma CompiledIsValid(entry: RuleEntry)
    requires Compiled(entry).Some?
    ensures ValidLine(Compiled(entry).value)
  {
    hide Validated, ValidLine, EntryText;
    ValidatedAreValid(EntryText(entry));
  }

  /** The text of a payload tells which lines it has. */
  lemma PayloadTellsLines(a: seq<string>, b: seq<string>, x: string)
    requires forall y :: y in a || y in b ==> ValidLine(y)
    requires a != [] && b != [] && Seen(a, x) && Join(FirstOccurrences(a), '\n') == Join(FirstOccurrences(b), '\n')
    ensures Seen(b, x)
  {
    hide ValidLine, Lower, FirstOccurrences, Join, Lines, Validated;
    forall y | y in FirstOccurrences(a) || y in FirstOccurrences(b) ensures ValidLine(y) {
      FirstOccurrencesRepresent(a, y);
      FirstOccurrencesRepresent(b, y);
    }
    FirstOccurrencesEmpty(a);
    FirstOccurrencesEmpty(b);
    ValidatedRoundTrip(FirstOccurrences(a));
    ValidatedRoundTrip(FirstOccurrences(b));
    var i :| 0 <= i < |a| && Lower(a[i]) == Lower(x);
    FirstOccurrencesRepresent(a, a[i]);
    var y :| y in FirstOccurrences(a) && Lower(y) == Lower(a[i]);
    FirstOccurrencesRepresent(b, y);
    var k :| 0 <= k < |b| && b[k] == y;
  }

  /** Without aliases, deduplication leaves every payload identical if and only if no enabled entry is dropped for a
      disabled one. */
  lemma DeduplicationExact(entries: seq<RuleEntry>)
    requires EnabledValid(entries) && NoAliases(entries)
    ensures FirstsEnabled(entries) <==>
              forall local, sources :: CompiledPayload(Deduplicated(entries), local, sources) == CompiledPayload(entries, local, sources)
  {
    hide CompiledPayload, FirstsEnabled;
    if FirstsEnabled(entries) {
      forall local, sources
        ensures CompiledPayload(Deduplicated(entries), local, sources) == CompiledPayload(entries, local, sources)
      {
        DeduplicationKeepsPayload(entries, local, sources);
      }
    } else {
      DeduplicationLoses(entries);
    }
  }

  /** Among enabled entries deduplication never loses a line. */
  lemma AllEnabledFirstsEnabled(entries: seq<RuleEntry>)
    requires forall e :: e in entries ==> e.enabled
    ensures FirstsEnabled(entries)
  {
    forall k | 0 <= k < |entries| && entries[k].enabled ensures exists i :: KeptFor(entries, k, i) {
      FirstOfKey(entries, k);
    }
  }

  lemma {:induction false} FirstOfKey(entries: seq<RuleEntry>, k: nat)
    requires k < |entries| && forall e :: e in entries ==> e.enabled
    ensures exists i :: KeptFor(entries, k, i)
    decreases k
  {
    hide EntryKey;
    if KeySeen(entries[..k], entries[k]) {
      var j :| 0 <= j < k && EntryKey(entries[..k][j]) == EntryKey(entries[k]);
      FirstOfKey(entries, j);
      var i :| KeptFor(entries, j, i);
      assert KeptFor(entries, k, i);
    } else {
      assert entries[k] in entries && KeptFor(entries, k, k);
    }
  }

  /** For entries of any kind: deduplication leaves every payload identical if and only if the enabled entries it keeps
      have the same lines as all enabled entries, up to repetitions. */
  lemma DeduplicationExactForAll(entries: seq<RuleEntry>)
    requires EnabledValid(entries)
    ensures CompiledEntries(entries).Some? && CompiledEntries(Deduplicated(entries)).Some?
    ensures FirstOccurrences(CompiledEntries(entries).value) == FirstOccurrences(CompiledEntries(Deduplicated(entries)).value) <==>
              forall local, sources :: CompiledPayload(Deduplicated(entries), local, sources) == CompiledPayload(entries, local, sources)
  {
    hide CompiledEntries, Compiled, FirstOccurrences, CompiledPayload, ValidLine, Deduplicated, EnabledValid;
    EntriesCompile(entries);
    EnabledCompile(entries);
    EnabledCompile(Deduplicated(entries));
    var a, b := CompiledEntries(entries).value, CompiledEntries(Deduplicated(entries)).value;
    if FirstOccurrences(a) == FirstOccurrences(b) {
      SameOccurrencesSameSeen(a, b);
      forall local, sources
        ensures CompiledPayload(Deduplicated(entries), local, sources) == CompiledPayload(entries, local, sources)
      {
        SameFrontSamePayload(entries, Deduplicated(entries), local, sources);
      }
    } else {
      LinesOfEntriesValid(entries);
      LinesOfEntriesValid(Deduplicated(entries));
      DifferentLinesDifferentPayload(entries, Deduplicated(entries));
    }
  }

  lemma SameOccurrencesSameSeen(a: seq<string>, b: seq<string>)
    requires FirstOccurrences(a) == FirstOccurrences(b)
    ensures Alike(a, b)
  {
    hide FirstOccurrences, Lower;
    forall x ensures Seen(a, x) <==> Seen(b, x) {
      SeenInOccurrences(a, x);
      SeenInOccurrences(b, x);
    }
  }

  lemma SeenInOccurrences(rules: seq<string>, x: string)
    ensures Seen(rules, x) <==> exists y :: y in FirstOccurrences(rules) && Lower(y) == Lower(x)
  {
    hide FirstOccurrences, Lower;
    if Seen(rules, x) {
      var i :| 0 <= i < |rules| && Lower(rules[i]) == Lower(x);
      FirstOccurrencesRepresent(rules, rules[i]);
    }
    if y :| y in FirstOccurrences(rules) && Lower(y) == Lower(x) {
      FirstOccurrencesRepresent(rules, y);
      var i :| 0 <= i < |rules| && rules[i] == y;
    }
  }

  lemma DifferentLinesDifferentPayload(entries: seq<RuleEntry>, others: seq<RuleEntry>)
    requires CompiledEntries(entries).Some? && CompiledEntries(others).Some?
    requires forall x :: x in CompiledEntries(entries).value || x in CompiledEntries(others).value ==> ValidLine(x)
    requires FirstOccurrences(CompiledEntries(entries).value) != FirstOccurrences(CompiledEntries(others).value)
    ensures CompiledPayload(others, "", []) != CompiledPayload(entries, "", [])
  {
    hide CompiledEntries, FirstOccurrences, Join, ValidLine, Lines, Validated;
    var a, b := CompiledEntries(entries).value, CompiledEntries(others).value;
    assert a + [] + [] == a && b + [] + [] == b;
    assert Trim("") == "" && SourceLines([]) == Some([]);
    FirstOccurrencesEmpty(a);
    FirstOccurrencesEmpty(b);
    if a != [] && b != [] {
      OccurrencesValid(a);
      OccurrencesValid(b);
      ValidatedRoundTrip(FirstOccurrences(a));
      ValidatedRoundTrip(FirstOccurrences(b));
    }
  }

  lemma OccurrencesValid(rules: seq<string>)
    requires forall x :: x in rules ==> ValidLine(x)
    ensures forall x :: x in FirstOccurrences(rules) ==> ValidLine(x)
  {
    hide FirstOccurrences, ValidLine;
    forall x | x in FirstOccurrences(rules) ensures ValidLine(x) {
      FirstOccurrencesRepresent(rules, x);
    }
  }

  lemma DeduplicationLoses(entries: seq<RuleEntry>)
    requires EnabledValid(entries) && NoAliases(entries) && !FirstsEnabled(entries)
    ensures CompiledPayload(Deduplicated(entries), "", []) != CompiledPayload(entries, "", [])
  {
    hide Compiled, EntryKey, Lower, FirstOccurrences, Join, KeptFor, ValidLine, EnabledValid, ValidEntry, CompiledEntries, KeySeen, Deduplicated;
    var k :| 0 <= k < |entries| && entries[k].enabled && !exists i :: KeptFor(entries, k, i);
    EntriesCompile(entries);
    EnabledCompile(entries);
    EnabledCompile(Deduplicated(entries));
    var a, b := CompiledEntries(entries).value, CompiledEntries(Deduplicated(entries)).value;
    var line := Compiled(entries[k]).value;
    assert Seen(a, line);
    LostLine(entries, k);
    LinesOfEntriesValid(entries);
    LinesOfEntriesValid(Deduplicated(entries));
    assert a + [] + [] == a && b + [] + [] == b;
    assert Trim("") == "" && SourceLines([]) == Some([]);
    if b != [] && Join(FirstOccurrences(a), '\n') == Join(FirstOccurrences(b), '\n') {
      PayloadTellsLines(a, b, line);
    }
  }

  lemma EntriesCompile(entries: seq<RuleEntry>)
    requires EnabledValid(entries)
    ensures forall e :: (e in entries || e in Deduplicated(entries)) && e.enabled ==> Compiled(e).Some?
  {
    hide Compiled, KeySeen, Deduplicated;
    forall e | (e in entries || e in Deduplicated(entries)) && e.enabled ensures Compiled(e).Some? {
      if e !in entries {
        DeduplicatedAreFirst(entries, e);
      }
    }
  }

  // ------------------------------------------------------------------
  // Reading a compiled payload back

  lemma CompiledLines(entries: seq<RuleEntry>, local: string, sources: seq<RuleSetSource>)
    requires CompiledPayload(entries, local, sources).Some?
    ensures Lines(CompiledPayload(entries, local, sources).value) == FirstOccurrences(Layers(entries, local, sources).value)
    ensures forall x :: x in Layers(entries, local, sources).value ==> ValidLine(x)
    ensures forall x :: x in FirstOccurrences(Layers(entries, local, sources).value) ==> ValidLine(x)
  {
    hide ValidLine, FirstOccurrences, Join, Lines, Layers;
    var layers := Layers(entries, local, sources).value;
    LayersValid(entries, local, sources);
    forall x | x in FirstOccurrences(layers) ensures ValidLine(x) {
      FirstOccurrencesRepresent(layers, x);
    }
    FirstOccurrencesEmpty(layers);
    ValidatedRoundTrip(FirstOccurrences(layers));
  }

  /** The compiled payload, read back line by line: every line of the entries, the local payload and the sources, up to case,
      the first ones in this order. */
  lemma CompiledPayloadMeans(entries: seq<RuleEntry>, local: string, sources: seq<RuleSetSource>)
    requires CompiledPayload(entries, local, sources).Some?
    ensures exists origins :: PayloadFrom(entries, local, sources, Lines(CompiledPayload(entries, local, sources).value), origins)
  {
    hide ValidLine, FirstOccurrences, Lines, Layers, PayloadFrom, LineFrom;
    CompiledLines(entries, local, sources);
    var origins := LayersMean(entries, local, sources);
    var kept := OriginsOfOccurrences(entries, local, sources, Layers(entries, local, sources).value, origins);
  }

  lemma OriginLineValid(entries: seq<RuleEntry>, local: string, sources: seq<RuleSetSource>, o: Origin, line: string)
    requires LineFrom(entries, local, sources, o, line)
    ensures ValidLine(line)
  {
    hide ValidLine, Validated, Compiled, Trim;
    if o.layer == 0 {
      CompiledIsValid(entries[o.item]);
    } else if o.layer == 1 {
      ValidatedAreValid(local);
      assert line in Validated(local).value;
    } else {
      ValidatedAreValid(sources[o.item].cachedPayload);
      assert line in Validated(sources[o.item].cachedPayload).value;
    }
  }

  lemma LayersValid(entries: seq<RuleEntry>, local: string, sources: seq<RuleSetSource>)
    requires Layers(entries, local, sources).Some?
    ensures forall x :: x in Layers(entries, local, sources).value ==> ValidLine(x)
  {
    hide ValidLine, CompiledEntries, SourceLines, Validated, Trim;
    LinesOfEntriesValid(entries);
    if Trim(local) != [] {
      ValidatedAreValid(local);
    }
    SourceLinesValid(sources);
  }

  lemma {:induction false} SourceLinesValid(sources: seq<RuleSetSource>)
    requires SourceLines(sources).Some?
    ensures forall x :: x in SourceLines(sources).value ==> ValidLine(x)
  {
    hide ValidLine, Validated, Trim;
    if sources != [] {
      var n := |sources| - 1;
      SourceLinesValid(sources[..n]);
      if sources[n].enabled && Trim(sources[n].cachedPayload) != [] {
        ValidatedAreValid(sources[n].cachedPayload);
      }
    }
  }

  // ------------------------------------------------------------------
  // Completion with a target

  predicate LegalTarget(target: string) {
    target != [] && Trim(target) == target && ',' !in target && !HasControl(target)
  }

  function ClassicalRuleWithTarget(condition: string, target: string): Option<string> {
    if !LegalTarget(target) then None
    else
      match Validated(condition)
      case None => None
      case Some(rules) =>
        if |rules| != 1 then None
        else
          var fields := Fields(rules[0]);
          var modifier := IsNoResolve(fields[|fields| - 1]);
          if modifier && !NoResolveKind(fields[0]) then None
          else
            var rest := if modifier then fields[..|fields| - 1] else fields;
            if |rest| != 2 then None
            else Some(Join([rest[0], rest[1], target] + (if modifier then [NO_RESOLVE] else []), ','))
  }

  /** The condition is one validated line of a kind and a value, with at most the modifier, and the target can stand in a rule. */
  ghost predicate Completable(condition: string, target: string) {
    && target != [] && !IsSpace(target[0]) && !IsSpace(target[|target| - 1]) && ',' !in target && (forall c :: c in target ==> !IsControl(c))
    && Validated(condition).Some? && |Validated(condition).value| == 1
    && var fields := Fields(Validated(condition).value[0]);
    && (|fields| == 2 || |fields| == 3) && ClassicalKind(fields[0])
    && (|fields| == 2 ==> Lower(fields[1]) != "no-resolve")
    && (|fields| == 3 ==> Lower(fields[2]) == "no-resolve" && NoResolveKind(fields[0]))
  }

  lemma TrimmedExactly(s: string)
    ensures Trim(s) == s <==> s == [] || (!IsSpace(s[0]) && !IsSpace(s[|s| - 1]))
  {
  }

  lemma CompletableExactly(condition: string, target: string)
    ensures ClassicalRuleWithTarget(condition, target).Some? <==> Completable(condition, target)
  {
    hide Trim, Validated, ClassicalKind, NoResolveKind, Lower, Fields;
    TrimmedExactly(target);
    if Validated(condition).Some? && |Validated(condition).value| == 1 {
      var rule := Validated(condition).value[0];
      ValidatedAreValid(condition);
      assert ValidLine(rule) by {
        assert rule in Validated(condition).value;
      }
      ValidLineFields(rule);
    }
  }

  lemma ValidLineFields(line: string)
    requires ValidLine(line)
    ensures |Fields(line)| in {2, 3} && ClassicalKind(Fields(line)[0])
    ensures |Fields(line)| == 3 ==> Lower(Fields(line)[2]) == "no-resolve" && NoResolveKind(Fields(line)[0])
  {
    hide Trim, Lower, ClassicalKind, NoResolveKind, ByteLength, HasControl, Split;
  }

  /** Splitting a completed rule recovers kind, value, target and the no-resolve flag. */
  lemma CompletedRuleRoundTrip(condition: string, target: string)
    requires ClassicalRuleWithTarget(condition, target).Some?
    ensures var parts := Split(ClassicalRuleWithTarget(condition, target).value, ',');
            var fields := Fields(Validated(condition).value[0]);
            var modifier := IsNoResolve(fields[|fields| - 1]);
            parts == [fields[0], fields[1], target] + (if modifier then [NO_RESOLVE] else [])
            && |fields| == (if modifier then 3 else 2) && ClassicalKind(fields[0])
            && (modifier ==> NoResolveKind(fields[0]))
  {
    hide ClassicalKind, NoResolveKind, ByteLength, HasControl, IsNoResolve, Validated, Trim;
    var rule := Validated(condition).value[0];
    ValidatedAreValid(condition);
    assert ValidLine(rule) by { assert rule in Validated(condition).value; }
    var fields := Fields(rule);
    FieldsHaveNoComma(rule);
    var modifier := IsNoResolve(fields[|fields| - 1]);
    var parts := [fields[0], fields[1], target] + (if modifier then [NO_RESOLVE] else []);
    assert ',' !in NO_RESOLVE;
    SplitJoin(parts, ',');
  }

  lemma FieldsHaveNoComma(line: string)
    ensures forall i :: 0 <= i < |Fields(line)| ==> ',' !in Fields(line)[i]
  {
    var pieces := Split(line, ',');
    forall i | 0 <= i < |pieces| ensures ',' !in Trim(pieces[i]) {
      assert pieces[i] in pieces;
      TrimFacts(pieces[i]);
    }
  }
}
