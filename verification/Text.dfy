/** The string operations the source relies on, over sequences of characters. */
module Text {
  import opened Prelude

  /** Lexicographic order, the iteration order of a BTreeMap keyed by strings. */
  predicate Below(a: string, b: string) {
    b != [] && (a == [] || a[0] < b[0] || (a[0] == b[0] && Below(a[1..], b[1..])))
  }

  /** One text is below another if and only if it ends, or has the smaller character, where they first differ. */
  lemma {:induction false} BelowMeans(a: string, b: string)
    ensures Below(a, b) <==> exists n :: 0 <= n <= |a| && n < |b| && a[..n] == b[..n] && (n == |a| || a[n] < b[n])
  {
    if Below(a, b) {
      if a == [] {
        assert a[..0] == b[..0] && |a| == 0;
      } else if a[0] < b[0] {
        assert a[..0] == b[..0] && a[0] < b[0];
      } else {
        BelowMeans(a[1..], b[1..]);
        var n :| 0 <= n <= |a[1..]| && n < |b[1..]| && a[1..][..n] == b[1..][..n] && (n == |a[1..]| || a[1..][n] < b[1..][n]);
        assert a[..n + 1] == [a[0]] + a[1..][..n] && b[..n + 1] == [b[0]] + b[1..][..n];
      }
    }
    if n :| 0 <= n <= |a| && n < |b| && a[..n] == b[..n] && (n == |a| || a[n] < b[n]) {
      if n > 0 {
        assert a[0] == a[..n][0] && b[0] == b[..n][0];
        assert a[1..][..n - 1] == a[..n][1..] && b[1..][..n - 1] == b[..n][1..];
        BelowMeans(a[1..], b[1..]);
        assert n - 1 == |a[1..]| || a[1..][n - 1] < b[1..][n - 1];
      }
    }
  }

  lemma {:induction false} BelowTransitive(a: string, b: string, c: string)
    requires Below(a, b) && Below(b, c)
    ensures Below(a, c)
  {
    if a != [] && a[0] == b[0] == c[0] {
      BelowTransitive(a[1..], b[1..], c[1..]);
    }
  }

  lemma {:induction false} BelowTotal(a: string, b: string)
    ensures Below(a, b) || Below(b, a) || a == b
    ensures !(Below(a, b) && Below(b, a))
    ensures !Below(a, a)
  {
    if a != [] && b != [] && a[0] == b[0] {
      BelowTotal(a[1..], b[1..]);
      assert a == [a[0]] + a[1..] && b == [b[0]] + b[1..];
    }
    if a != [] {
      BelowTotal(a[1..], a[1..]);
    }
  }

  predicate AsciiLower(c: char) { 'a' <= c <= 'z' }

  predicate AsciiUpper(c: char) { 'A' <= c <= 'Z' }

  predicate AsciiDigit(c: char) { '0' <= c <= '9' }

  predicate AsciiAlphanumeric(c: char) { AsciiLower(c) || AsciiUpper(c) || AsciiDigit(c) }

  /** IDs that are safe as path components. */
  predicate ValidResourceId(id: string) {
    0 < |id| <= 128 && forall i :: 0 <= i < |id| ==> AsciiAlphanumeric(id[i]) || id[i] in "-_"
  }

  /** Stable IDs of registered adapters. */
  predicate ValidAdapterId(id: string) {
    0 < |id| <= 64 && AsciiLower(id[0])
    && forall i :: 0 <= i < |id| ==> AsciiLower(id[i]) || AsciiDigit(id[i]) || id[i] == '-'
  }

  /** ASCII white space, the characters trimmed from both ends of a text. */
  predicate IsSpace(c: char) { c == ' ' || '\t' <= c <= '\r' }

  function TrimStart(s: string): (r: string)
    ensures r == [] || !IsSpace(r[0])
    ensures |r| <= |s|
  {
    if s != [] && IsSpace(s[0]) then TrimStart(s[1..]) else s
  }

  function TrimEnd(s: string): (r: string)
    ensures r == [] || !IsSpace(r[|r| - 1])
    ensures |r| <= |s| && (r != [] ==> r[0] == s[0])
  {
    if s != [] && IsSpace(s[|s| - 1]) then TrimEnd(s[..|s| - 1]) else s
  }

  function Trim(s: string): (r: string)
    ensures r == [] || (!IsSpace(r[0]) && !IsSpace(r[|r| - 1]))
  {
    TrimEnd(TrimStart(s))
  }

  function LowerChar(c: char): char {
    if AsciiUpper(c) then c + ' ' else c
  }

  function Lower(s: string): (r: string)
    ensures |r| == |s| && forall i :: 0 <= i < |s| ==> r[i] == LowerChar(s[i])
  {
    seq(|s|, i requires 0 <= i < |s| => LowerChar(s[i]))
  }

  /** The lower case of a letter from A to Z is the letter 32 places later; every other character is its own. */
  lemma LowerMeans(s: string)
    ensures |Lower(s)| == |s|
    ensures forall i :: 0 <= i < |s| ==> (if 'A' <= s[i] <= 'Z' then Lower(s)[i] as int == s[i] as int + 32 else Lower(s)[i] == s[i])
  {
  }

  predicate IsControl(c: char) { c < ' ' || '\U{7F}' <= c <= '\U{9F}' }

  function Utf8Width(c: char): nat {
    if c < '\U{80}' then 1 else if c < '\U{800}' then 2 else if c < '\U{10000}' then 3 else 4
  }

  /** Length in UTF-8 bytes. */
  function ByteLength(s: string): nat {
    if s == [] then 0 else Utf8Width(s[0]) + ByteLength(s[1..])
  }

  /** The pieces between separators; there is always at least one. */
  function Split(s: string, sep: char): (r: seq<string>)
    ensures r != [] && forall x :: x in r ==> sep !in x
    ensures |r| == 1 <==> sep !in s
  {
    if s == [] then [[]]
    else
      var rest := Split(s[1..], sep);
      if s[0] == sep then [[]] + rest else [[s[0]] + rest[0]] + rest[1..]
  }

  function Join(parts: seq<string>, sep: char): string {
    if parts == [] then [] else if |parts| == 1 then parts[0] else parts[0] + [sep] + Join(parts[1..], sep)
  }

  /** The parts after one more character in front. */
  function Grown(c: char, parts: seq<string>, sep: char): seq<string>
    requires parts != []
  {
    if c == sep then [[]] + parts else [[c] + parts[0]] + parts[1..]
  }

  lemma SplitCons(c: char, s: string, sep: char)
    ensures Split([c] + s, sep) == Grown(c, Split(s, sep), sep)
  {
    assert ([c] + s)[1..] == s;
  }

  lemma {:induction false} SplitHead(a: string, rest: string, sep: char)
    requires sep !in a
    ensures Split(a, sep) == [a]
    ensures Split(a + [sep] + rest, sep) == [a] + Split(rest, sep)
  {
    if a == [] {
      assert a + [sep] + rest == [sep] + rest;
      SplitCons(sep, rest, sep);
    } else {
      hide Split;
      SplitHead(a[1..], rest, sep);
      assert a == [a[0]] + a[1..] && a + [sep] + rest == [a[0]] + (a[1..] + [sep] + rest);
      SplitCons(a[0], a[1..], sep);
      SplitCons(a[0], a[1..] + [sep] + rest, sep);
      assert ([a[1..]] + Split(rest, sep))[1..] == Split(rest, sep);
    }
  }

  /** Splitting a join gives the parts back. */
  lemma {:induction false} SplitJoin(parts: seq<string>, sep: char)
    requires parts != [] && forall x :: x in parts ==> sep !in x
    ensures Split(Join(parts, sep), sep) == parts
  {
    if |parts| == 1 {
      SplitHead(parts[0], [], sep);
    } else {
      SplitJoin(parts[1..], sep);
      SplitHead(parts[0], Join(parts[1..], sep), sep);
    }
  }

  /** A carriage return before the line feed belongs to the line end. */
  function StripReturn(line: string): string {
    if line != [] && line[|line| - 1] == '\r' then line[..|line| - 1] else line
  }

  function StripReturns(lines: seq<string>): (r: seq<string>)
    ensures |r| == |lines| && forall i :: 0 <= i < |lines| ==> r[i] == StripReturn(lines[i])
  {
    seq(|lines|, i requires 0 <= i < |lines| => StripReturn(lines[i]))
  }

  /** Lines end with a line feed; the last one need not, and an empty rest is no line. */
  function Lines(s: string): seq<string> {
    var parts := Split(s, '\n');
    var n := |parts| - 1;
    StripReturns(parts[..n]) + if parts[n] == [] then [] else [parts[n]]
  }

  lemma NoLines()
    ensures Lines([]) == []
  {
  }

  /** Reading line by line: a line ends with a line feed, and a carriage return right before that belongs to the end. */
  lemma LinesMean(a: string, rest: string)
    requires '\n' !in a
    ensures Lines(a) == if a == [] then [] else [a]
    ensures a == [] || a[|a| - 1] != '\r' ==>
              Lines(a + "\n" + rest) == [a] + Lines(rest) && Lines(a + "\r\n" + rest) == [a] + Lines(rest)
  {
    hide Split;
    SplitHead(a, rest, '\n');
    SplitHead(a + "\r", rest, '\n');
    assert a + "\n" + rest == a + ['\n'] + rest;
    assert a + "\r\n" + rest == (a + "\r") + ['\n'] + rest;
    assert StripReturns([]) == [];
    if a == [] || a[|a| - 1] != '\r' {
      FirstLine(a, a, Split(rest, '\n'));
      FirstLine(a + "\r", a, Split(rest, '\n'));
    }
  }

  lemma FirstLine(first: string, stripped: string, parts: seq<string>)
    requires parts != [] && StripReturn(first) == stripped
    ensures var all := [first] + parts;
            StripReturns(all[..|all| - 1]) == [stripped] + StripReturns(parts[..|parts| - 1]) && all[|all| - 1] == parts[|parts| - 1]
  {
    var all := [first] + parts;
    assert all[..|all| - 1] == [first] + parts[..|parts| - 1];
  }

  predicate PlainLine(s: string) {
    s != [] && '\n' !in s && s[|s| - 1] != '\r'
  }

  /** Joined plain lines are read back one by one. */
  lemma LinesOfJoin(lines: seq<string>)
    requires lines != [] && forall x :: x in lines ==> PlainLine(x)
    ensures Lines(Join(lines, '\n')) == lines
  {
    SplitJoin(lines, '\n');
    var n := |lines| - 1;
    KeepsPlain(lines[..n]);
    assert lines[n] in lines;
    assert lines[..n] + [lines[n]] == lines;
  }

  lemma KeepsPlain(lines: seq<string>)
    requires forall x :: x in lines ==> PlainLine(x)
    ensures StripReturns(lines) == lines
  {
    forall i | 0 <= i < |lines| ensures StripReturn(lines[i]) == lines[i] {
      assert lines[i] in lines;
    }
  }

  lemma {:induction false} TrimStartLower(s: string)
    ensures Lower(TrimStart(s)) == TrimStart(Lower(s))
  {
    if s != [] && IsSpace(s[0]) {
      TrimStartLower(s[1..]);
      assert Lower(s)[1..] == Lower(s[1..]);
    }
  }

  lemma {:induction false} TrimEndLower(s: string)
    ensures Lower(TrimEnd(s)) == TrimEnd(Lower(s))
  {
    if s != [] && IsSpace(s[|s| - 1]) {
      TrimEndLower(s[..|s| - 1]);
      assert Lower(s)[..|s| - 1] == Lower(s[..|s| - 1]);
    }
  }

  lemma {:induction false} TrimStartMembers(s: string, c: char)
    requires c in TrimStart(s)
    ensures c in s
  {
    if s != [] && IsSpace(s[0]) {
      TrimStartMembers(s[1..], c);
    }
  }

  lemma {:induction false} TrimEndMembers(s: string, c: char)
    requires c in TrimEnd(s)
    ensures c in s
  {
    if s != [] && IsSpace(s[|s| - 1]) {
      TrimEndMembers(s[..|s| - 1], c);
    }
  }

  /** Trimming is idempotent and only removes characters. */
  lemma TrimFacts(s: string)
    ensures Trim(Trim(s)) == Trim(s)
    ensures forall c :: c in Trim(s) ==> c in s
  {
    forall c | c in Trim(s) ensures c in s {
      TrimEndMembers(TrimStart(s), c);
      TrimStartMembers(s, c);
    }
  }

  predicate AllSpace(s: string) {
    forall i :: 0 <= i < |s| ==> IsSpace(s[i])
  }

  lemma {:induction false} TrimStartMeans(s: string) returns (pre: string)
    ensures s == pre + TrimStart(s) && AllSpace(pre)
  {
    if s != [] && IsSpace(s[0]) {
      var rest := TrimStartMeans(s[1..]);
      pre := [s[0]] + rest;
      assert s == [s[0]] + s[1..];
    } else {
      pre := [];
    }
  }

  lemma {:induction false} TrimEndMeans(s: string)
    ensures TrimEnd(s) <= s && forall i :: |TrimEnd(s)| <= i < |s| ==> IsSpace(s[i])
  {
    var n := |s| - 1;
    if s != [] && IsSpace(s[n]) {
      assert TrimEnd(s) == TrimEnd(s[..n]);
      TrimEndMeans(s[..n]);
      hide TrimEnd;
      assert forall i :: 0 <= i < n ==> s[i] == s[..n][i];
    }
  }

  /** Trimming takes away exactly the white space at both ends. */
  lemma TrimMeans(s: string)
    ensures exists pre, post :: s == pre + Trim(s) + post && AllSpace(pre) && AllSpace(post)
    ensures Trim(s) == [] || (!IsSpace(Trim(s)[0]) && !IsSpace(Trim(s)[|Trim(s)| - 1]))
  {
    hide TrimStart, TrimEnd;
    var pre := TrimStartMeans(s);
    var rest := TrimStart(s);
    TrimEndMeans(rest);
    var post := rest[|Trim(s)|..];
    assert rest == Trim(s) + post && AllSpace(post);
    assert s == pre + Trim(s) + post;
  }

  /** It does not matter whether a text is lowered before or after trimming. */
  lemma TrimLower(s: string)
    ensures Lower(Trim(s)) == Trim(Lower(s))
  {
    TrimStartLower(s);
    TrimEndLower(TrimStart(s));
  }

  function LowerAll(parts: seq<string>): (r: seq<string>)
    ensures |r| == |parts| && forall i :: 0 <= i < |parts| ==> r[i] == Lower(parts[i])
  {
    seq(|parts|, i requires 0 <= i < |parts| => Lower(parts[i]))
  }

  lemma {:induction false} LowerSplit(s: string)
    ensures Split(Lower(s), ',') == LowerAll(Split(s, ','))
  {
    if s != [] {
      hide Split;
      LowerSplit(s[1..]);
      assert s == [s[0]] + s[1..] && Lower(s) == [LowerChar(s[0])] + Lower(s[1..]);
      SplitCons(s[0], s[1..], ',');
      SplitCons(LowerChar(s[0]), Lower(s[1..]), ',');
      LowerGrown(s[0], Split(s[1..], ','));
    }
  }

  lemma LowerGrown(c: char, parts: seq<string>)
    requires parts != []
    ensures LowerAll(Grown(c, parts, ',')) == Grown(LowerChar(c), LowerAll(parts), ',')
  {
    assert Lower([c] + parts[0]) == [LowerChar(c)] + Lower(parts[0]);
  }

  predicate NoLowercase(s: string) {
    forall i :: 0 <= i < |s| ==> !AsciiLower(s[i])
  }

  /** Without lower-case letters, equal lowered texts were equal. */
  lemma LowerInjective(a: string, b: string)
    requires Lower(a) == Lower(b) && NoLowercase(a) && NoLowercase(b)
    ensures a == b
  {
    forall i | 0 <= i < |a| ensures a[i] == b[i] {
      assert LowerChar(a[i]) == Lower(a)[i] == Lower(b)[i] == LowerChar(b[i]);
    }
  }

  // ------------------------------------------------------------------
  // Fields of trimmed texts

  lemma GrownConcat(c: char, a: seq<string>, b: seq<string>, sep: char)
    requires a != []
    ensures Grown(c, a + b, sep) == Grown(c, a, sep) + b
  {
    if c == sep {
      assert [[]] + (a + b) == [[]] + a + b;
    } else {
      assert (a + b)[1..] == a[1..] + b && (a + b)[0] == a[0];
    }
  }

  lemma {:induction false} SplitSnoc(s: string, c: char, sep: char)
    requires c != sep
    ensures var parts := Split(s, sep); var n := |parts| - 1;
            Split(s + [c], sep) == parts[..n] + [parts[n] + [c]]
  {
    hide Split;
    if s == [] {
      SplitHead([c], [], sep);
      SplitHead([], [], sep);
      assert s + [c] == [c];
    } else {
      SplitSnoc(s[1..], c, sep);
      assert s == [s[0]] + s[1..] && s + [c] == [s[0]] + (s[1..] + [c]);
      SplitCons(s[0], s[1..], sep);
      SplitCons(s[0], s[1..] + [c], sep);
      var rest := Split(s[1..], sep);
      var k := |rest| - 1;
      assert rest == rest[..k] + [rest[k]];
      if k > 0 {
        GrownConcat(s[0], rest[..k], [rest[k] + [c]], sep);
        GrownConcat(s[0], rest[..k], [rest[k]], sep);
      } else {
        assert [s[0]] + (rest[0] + [c]) == [s[0]] + rest[0] + [c];
      }
    }
  }

  lemma {:induction false} TrimStartSnoc(s: string, c: char)
    requires IsSpace(c)
    ensures TrimStart(s + [c]) == if TrimStart(s) == [] then [] else TrimStart(s) + [c]
  {
    if s == [] {
      assert [c][1..] == [];
    } else {
      TrimStartSnoc(s[1..], c);
      assert (s + [c])[1..] == s[1..] + [c];
    }
  }

  /** White space at either end does not matter to trimming. */
  lemma TrimAbsorbs(s: string, c: char)
    requires IsSpace(c)
    ensures Trim([c] + s) == Trim(s) && Trim(s + [c]) == Trim(s)
  {
    assert ([c] + s)[1..] == s;
    TrimStartSnoc(s, c);
    var t := TrimStart(s);
    assert (t + [c])[..|t + [c]| - 1] == t;
  }

  function TrimAll(parts: seq<string>): (r: seq<string>)
    ensures |r| == |parts| && forall i :: 0 <= i < |parts| ==> r[i] == Trim(parts[i])
  {
    seq(|parts|, i requires 0 <= i < |parts| => Trim(parts[i]))
  }

  /** The trimmed parts between commas. */
  function Fields(line: string): (r: seq<string>)
    ensures r != []
  {
    TrimAll(Split(line, ','))
  }

  lemma {:induction false} FieldsOfTrimStart(s: string)
    ensures Fields(TrimStart(s)) == Fields(s)
  {
    hide Trim;
    if s != [] && IsSpace(s[0]) {
      FieldsOfTrimStart(s[1..]);
      var rest := Split(s[1..], ',');
      TrimAbsorbs(rest[0], s[0]);
      assert TrimAll([[s[0]] + rest[0]] + rest[1..]) == TrimAll(rest);
    }
  }

  lemma {:induction false} FieldsOfTrimEnd(s: string)
    ensures Fields(TrimEnd(s)) == Fields(s)
  {
    hide Trim, Split;
    var n := |s| - 1;
    if s != [] && IsSpace(s[n]) {
      FieldsOfTrimEnd(s[..n]);
      var rest := Split(s[..n], ',');
      var k := |rest| - 1;
      assert s == s[..n] + [s[n]];
      SplitSnoc(s[..n], s[n], ',');
      TrimAbsorbs(rest[k], s[n]);
      assert TrimAll(rest[..k] + [rest[k] + [s[n]]]) == TrimAll(rest);
    }
  }

  /** The fields of a line do not depend on white space around it. */
  lemma FieldsOfTrim(s: string)
    ensures Fields(Trim(s)) == Fields(s)
  {
    FieldsOfTrimStart(s);
    FieldsOfTrimEnd(TrimStart(s));
  }

  // ------------------------------------------------------------------
  // Labels

  lemma {:induction false} SplitConcat(a: string, b: string, sep: char)
    ensures Split(a + [sep] + b, sep) == Split(a, sep) + Split(b, sep)
  {
    hide Split;
    if a == [] {
      assert a + [sep] + b == [sep] + b;
      SplitHead([], b, sep);
    } else {
      SplitConcat(a[1..], b, sep);
      assert a == [a[0]] + a[1..] && a + [sep] + b == [a[0]] + (a[1..] + [sep] + b);
      SplitCons(a[0], a[1..], sep);
      SplitCons(a[0], a[1..] + [sep] + b, sep);
      GrownConcat(a[0], Split(a[1..], sep), Split(b, sep), sep);
    }
  }

  lemma {:induction false} JoinSplit(s: string, sep: char)
    ensures Join(Split(s, sep), sep) == s
  {
    if s != [] {
      hide Split;
      JoinSplit(s[1..], sep);
      assert s == [s[0]] + s[1..];
      SplitCons(s[0], s[1..], sep);
      JoinGrown(s[0], Split(s[1..], sep), sep);
    }
  }

  lemma JoinGrown(c: char, parts: seq<string>, sep: char)
    requires parts != []
    ensures Join(Grown(c, parts, sep), sep) == [c] + Join(parts, sep)
  {
    if c == sep {
      assert ([[]] + parts)[1..] == parts;
    } else {
      assert ([[c] + parts[0]] + parts[1..])[1..] == parts[1..];
    }
  }

  lemma {:induction false} JoinConcat(a: seq<string>, b: seq<string>, sep: char)
    requires a != [] && b != []
    ensures Join(a + b, sep) == Join(a, sep) + [sep] + Join(b, sep)
  {
    if |a| == 1 {
      assert (a + b)[1..] == b;
    } else {
      JoinConcat(a[1..], b, sep);
      assert (a + b)[1..] == a[1..] + b;
    }
  }

  lemma {:induction false} CharsAreInParts(s: string, sep: char, c: char)
    requires c in s && c != sep
    ensures exists part :: part in Split(s, sep) && c in part
  {
    if s[0] == c {
      assert c in Split(s, sep)[0];
    } else {
      assert s == [s[0]] + s[1..];
      CharsAreInParts(s[1..], sep, c);
      var rest := Split(s[1..], sep);
      var part :| part in rest && c in part;
      if s[0] != sep && part == rest[0] {
        assert c in Split(s, sep)[0];
      } else {
        assert part in Split(s, sep);
      }
    }
  }
}
