/**
 Reading the output of the Chocolatey command: the list parser and the scan for one package.
 The two read the same text independently. Text is ASCII.
 */
module Chocolatey {
  import opened Wrappers
  import opened Sequences

  type ascii = c: char | c as int < 128

  type Text = seq<ascii>

  datatype Package = Package(name: Text, version: Text, source: string, installed: bool)

  const SUMMARY: Text := "packages installed"

  /** White space as `strings.TrimSpace` sees it. */
  predicate IsSpace(c: ascii)
  {
    c == ' ' || c == '\t' || c == '\n' || c == '\r' || c as int == 11 || c as int == 12
  }

  /** White space as `\s` in a regular expression sees it: without the vertical tab. */
  predicate IsBlank(c: ascii)
  {
    c == ' ' || c == '\t' || c == '\n' || c == '\r' || c as int == 12
  }

  predicate NotBlank(c: ascii)
  {
    !IsBlank(c)
  }

  function ToLowerChar(c: ascii): ascii
  {
    if 'A' <= c <= 'Z' then (c as int + 32) as char else c
  }

  function ToLower(s: Text): Text
  {
    Map(s, ToLowerChar)
  }

  predicate HasPrefix(s: Text, prefix: Text)
  {
    |prefix| <= |s| && s[..|prefix|] == prefix
  }

  predicate Contains(s: Text, part: Text)
  {
    HasPrefix(s, part) || (s != [] && Contains(s[1..], part))
  }

  /** `strings.Split(s, "\n")`. */
  function SplitLines(s: Text): (lines: seq<Text>)
    ensures lines != []
  {
    if s == [] then [[]]
    else
      var rest := SplitLines(s[1..]);
      if s[0] == '\n' then [[]] + rest else [[s[0]] + rest[0]] + rest[1..]
  }

  function TrimLeft(s: Text): Text
  {
    if s != [] && IsSpace(s[0]) then TrimLeft(s[1..]) else s
  }

  function TrimRight(s: Text): Text
  {
    if s != [] && IsSpace(s[|s| - 1]) then TrimRight(s[..|s| - 1]) else s
  }

  function TrimSpace(s: Text): Text
  {
    TrimRight(TrimLeft(s))
  }

  /** The length of the longest prefix of characters satisfying `p`. */
  function Span(s: Text, p: ascii -> bool): (n: nat)
    ensures n <= |s|
    ensures forall i :: 0 <= i < n ==> p(s[i])
    ensures n < |s| ==> !p(s[n])
  {
    if s != [] && p(s[0]) then 1 + Span(s[1..], p) else 0
  }

  /** The match of `^([^\s]+)\s+([^\s]+)`. */
  function Match(line: Text): Option<(Text, Text)>
  {
    var n := Span(line, NotBlank);
    var m := Span(line[n..], IsBlank);
    var k := Span(line[n + m..], NotBlank);
    if 0 < n && 0 < m && 0 < k then Some((line[..n], line[n + m..n + m + k])) else None
  }

  /** A line that is neither empty nor a summary. */
  predicate Relevant(line: Text)
  {
    line != [] && !Contains(line, SUMMARY)
  }

  function Installed(name: Text, version: Text): Package
  {
    Package(name, version, "chocolatey", true)
  }

  /** What the list parser makes of one line of output. */
  function Entry(raw: Text): Option<Package>
  {
    var line := TrimSpace(raw);
    if Relevant(line) && Match(line).Some? then
      Some(Installed(Match(line).value.0, Match(line).value.1))
    else None
  }

  function Contribution(raw: Text): seq<Package>
  {
    if Entry(raw).Some? then [Entry(raw).value] else []
  }

  /** What the list parser makes of the lines. */
  function Entries(lines: seq<Text>): seq<Package>
  {
    Flatten(Map(lines, Contribution))
  }

  /** Whether the scan stops at one line of output. */
  predicate Hit(raw: Text, name: Text)
  {
    var line := TrimSpace(raw);
    Relevant(line) && HasPrefix(ToLower(line), ToLower(name) + " ")
  }

  // ---------- The two loops ----------

  method ParsePackageList(output: Text) returns (packages: seq<Package>)
    ensures packages == Entries(SplitLines(output))
  {
    packages := [];
    var lines := SplitLines(output);
    for i := 0 to |lines|
      invariant packages == Entries(lines[..i])
    {
      assert lines[..i + 1] == lines[..i] + [lines[i]];
      FlattenMapSnoc(lines[..i], lines[i], Contribution);
      var line := TrimSpace(lines[i]);
      if line == [] {
        continue;
      }
      if Contains(line, SUMMARY) {
        continue;
      }
      var matches := Match(line);
      if matches.Some? {
        packages := packages + [Package(matches.value.0, matches.value.1, "chocolatey", true)];
      }
    }
    assert lines[..|lines|] == lines;
  }

  datatype Error = NameRequired | CheckFailed | NotInstalled

  /** `choco` is the answer to whether Chocolatey is there, `stdout` that of the list command. */
  method IsPackageInstalled(name: Text, choco: Result<bool, string>, stdout: Result<Text, string>)
      returns (r: Result<bool, Error>)
    ensures name == [] ==> r == Err(NameRequired)
    ensures name != [] && (choco.Err? || (choco.value && stdout.Err?)) ==> r == Err(CheckFailed)
    ensures name != [] && choco == Ok(false) ==> r == Err(NotInstalled)
    ensures name != [] && choco == Ok(true) && stdout.Ok? ==>
              r == Ok(exists raw :: raw in SplitLines(stdout.value) && Hit(raw, name))
  {
    if name == [] {
      return Err(NameRequired);
    }
    if choco.Err? {
      return Err(CheckFailed);
    }
    if !choco.value {
      return Err(NotInstalled);
    }
    if stdout.Err? {
      return Err(CheckFailed);
    }
    var lines := SplitLines(stdout.value);
    for i := 0 to |lines|
      invariant forall j :: 0 <= j < i ==> !Hit(lines[j], name)
    {
      var line := TrimSpace(lines[i]);
      if line == [] {
        continue;
      }
      if Contains(line, SUMMARY) {
        continue;
      }
      if HasPrefix(ToLower(line), ToLower(name) + " ") {
        assert lines[i] in lines && Hit(lines[i], name);
        return Ok(true);
      }
    }
    return Ok(false);
  }

  // ---------- The regular expression ----------

  predicate All(s: Text, p: ascii -> bool)
  {
    forall i :: 0 <= i < |s| ==> p(s[i])
  }

  /** `n` characters from `start` on satisfy `p`, and the one after them does not. */
  ghost predicate Stretch(s: Text, start: nat, n: nat, p: ascii -> bool)
  {
    && start + n <= |s|
    && (forall i :: start <= i < start + n ==> p(s[i]))
    && (start + n < |s| ==> !p(s[start + n]))
  }

  /** A line cut the way a greedy match cuts it: a name of length `n`, a separator of length
      `m` and a version of length `k`, each as long as it can be. */
  ghost predicate Cut(line: Text, n: nat, m: nat, k: nat)
  {
    && 0 < n && 0 < m && 0 < k
    && Stretch(line, 0, n, NotBlank) && Stretch(line, n, m, IsBlank) && Stretch(line, n + m, k, NotBlank)
  }

  /** The span is the only prefix that satisfies `p` and cannot be extended. */
  lemma {:induction false} SpanIs(s: Text, n: nat, p: ascii -> bool)
    requires Stretch(s, 0, n, p)
    ensures Span(s, p) == n
  {
  }

  lemma SpanFrom(s: Text, start: nat, n: nat, p: ascii -> bool)
    requires start <= |s|
    ensures Stretch(s, start, n, p) <==> Span(s[start..], p) == n
  {
    if Stretch(s, start, n, p) {
      SpanIs(s[start..], n, p);
    }
    if Span(s[start..], p) == n {
      assert forall i :: start <= i < start + n ==> s[i] == s[start..][i - start];
    }
  }

  /** A cut of a line determines its match. */
  lemma MatchIsTheCut(line: Text, n: nat, m: nat, k: nat)
    requires Cut(line, n, m, k)
    ensures Match(line) == Some((line[..n], line[n + m..n + m + k]))
    ensures Span(line, NotBlank) == n
  {
    SpansOfCut(line, n, m, k);
  }

  lemma SpansOfCut(line: Text, n: nat, m: nat, k: nat)
    requires Cut(line, n, m, k)
    ensures Span(line, NotBlank) == n && Span(line[n..], IsBlank) == m && Span(line[n + m..], NotBlank) == k
  {
    SpanIs(line, n, NotBlank);
    SpanFrom(line, n, m, IsBlank);
    SpanFrom(line, n + m, k, NotBlank);
  }

  /** A line with a match has a cut. */
  lemma MatchHasACut(line: Text)
    requires Match(line).Some?
    ensures exists n: nat, m: nat, k: nat :: Cut(line, n, m, k) && Match(line) == Some((line[..n], line[n + m..n + m + k]))
  {
    var n := Span(line, NotBlank);
    var m := Span(line[n..], IsBlank);
    var k := Span(line[n + m..], NotBlank);
    CutOfSpans(line, n, m, k);
  }

  lemma CutOfSpans(line: Text, n: nat, m: nat, k: nat)
    requires n + m <= |line| && 0 < n && 0 < m && 0 < k
    requires Span(line, NotBlank) == n && Span(line[n..], IsBlank) == m && Span(line[n + m..], NotBlank) == k
    ensures Cut(line, n, m, k)
  {
    SpanFrom(line, n, m, IsBlank);
    SpanFrom(line, n + m, k, NotBlank);
  }

  // ---------- Text ----------

  lemma SpaceCodes(c: ascii)
    ensures IsSpace(c) <==> 9 <= c as int <= 13 || c as int == 32
    ensures IsBlank(c) <==> IsSpace(c) && c as int != 11
  {
  }

  /** Ignoring case: the same, or the two cases of a letter. */
  lemma CaseIgnored(c: ascii, d: ascii)
    ensures ToLowerChar(c) == ToLowerChar(d) <==>
              || c == d
              || (65 <= c as int <= 90 && d as int == c as int + 32)
              || (65 <= d as int <= 90 && c as int == d as int + 32)
  {
  }

  /** A text contains another exactly when it has it at some position. */
  lemma {:induction false} ContainsExactlyWhen(s: Text, part: Text)
    ensures Contains(s, part) <==> exists i, j :: 0 <= i <= j <= |s| && s[i..j] == part
  {
    if HasPrefix(s, part) {
      assert s[0..0 + |part|] == part;
    } else if s != [] {
      ContainsExactlyWhen(s[1..], part);
      if i, j :| 0 <= i <= j <= |s| && s[i..j] == part {
        assert i != 0;
        assert s[1..][i - 1..j - 1] == part;
      }
      if i, j :| 0 <= i <= j <= |s[1..]| && s[1..][i..j] == part {
        assert s[i + 1..j + 1] == part;
      }
    }
  }

  lemma {:induction false} TrimLeftFrom(s: Text) returns (i: nat)
    ensures i <= |s| && TrimLeft(s) == s[i..]
    ensures (forall k :: 0 <= k < i ==> IsSpace(s[k])) && (i < |s| ==> !IsSpace(s[i]))
  {
    if s != [] && IsSpace(s[0]) {
      var j := TrimLeftFrom(s[1..]);
      i := j + 1;
      assert s[1..][j..] == s[i..];
      forall k | 0 <= k < i ensures IsSpace(s[k]) {
        assert 0 < k ==> s[k] == s[1..][k - 1];
      }
    } else {
      i := 0;
    }
  }

  lemma {:induction false} TrimRightTo(s: Text) returns (j: nat)
    ensures j <= |s| && TrimRight(s) == s[..j]
    ensures (forall k :: j <= k < |s| ==> IsSpace(s[k])) && (0 < j ==> !IsSpace(s[j - 1]))
  {
    if s != [] && IsSpace(s[|s| - 1]) {
      j := TrimRightTo(s[..|s| - 1]);
      assert s[..|s| - 1][..j] == s[..j];
    } else {
      j := |s|;
    }
  }

  /** Trimming cuts off all white space at both ends, and nothing else. */
  lemma TrimsExactly(s: Text) returns (i: nat, j: nat)
    ensures i <= j <= |s| && TrimSpace(s) == s[i..j]
    ensures forall k :: 0 <= k < i || j <= k < |s| ==> IsSpace(s[k])
    ensures i < j ==> !IsSpace(s[i]) && !IsSpace(s[j - 1])
  {
    i := TrimLeftFrom(s);
    var length := TrimRightTo(s[i..]);
    j := i + length;
    assert s[i..][..length] == s[i..j];
    forall k | j <= k < |s| ensures IsSpace(s[k]) {
      assert s[k] == s[i..][k - i];
    }
  }

  // ---------- One line ----------

  ghost predicate HasSummary(line: Text)
  {
    exists i, j :: 0 <= i <= j <= |line| && line[i..j] == "packages installed"
  }

  lemma RelevantExactlyWhen(line: Text)
    ensures Relevant(line) <==> line != [] && !HasSummary(line)
  {
    ContainsExactlyWhen(line, SUMMARY);
  }

  /** A line with the summary text anywhere in it yields no package and does not stop the scan. */
  lemma SummaryYieldsNothing(raw: Text, i: nat, j: nat, name: Text)
    requires i <= j <= |TrimSpace(raw)| && TrimSpace(raw)[i..j] == "packages installed"
    ensures Entry(raw) == None && !Hit(raw, name)
  {
    RelevantExactlyWhen(TrimSpace(raw));
  }

  /** A line yields a package exactly when, trimmed, it does not have the summary text in it and
      can be cut into that name, white space, and that version. */
  lemma EntryExactlyWhen(raw: Text, name: Text, version: Text)
    ensures Entry(raw) == Some(Package(name, version, "chocolatey", true)) <==>
              && !HasSummary(TrimSpace(raw))
              && exists n: nat, m: nat, k: nat :: Cut(TrimSpace(raw), n, m, k)
                   && name == TrimSpace(raw)[..n] && version == TrimSpace(raw)[n + m..n + m + k]
  {
    var line := TrimSpace(raw);
    RelevantExactlyWhen(line);
    if Match(line).Some? {
      MatchHasACut(line);
    }
    forall n: nat, m: nat, k: nat | Cut(line, n, m, k)
      ensures Match(line) == Some((line[..n], line[n + m..n + m + k]))
    {
      MatchIsTheCut(line, n, m, k);
    }
  }

  /** The scan stops at a line exactly when, trimmed, it does not have the summary text in it and
      starts with the name, ignoring case, and a space. */
  lemma HitByPosition(raw: Text, name: Text)
    ensures var line := TrimSpace(raw);
            Hit(raw, name) <==>
              && !HasSummary(line)
              && |name| < |line|
              && line[|name|] == ' '
              && forall i :: 0 <= i < |name| ==> ToLowerChar(line[i]) == ToLowerChar(name[i])
  {
    RelevantExactlyWhen(TrimSpace(raw));
    PrefixPointwise(TrimSpace(raw), name);
  }

  // ---------- The scan against the parser ----------

  lemma {:induction false} TrimRightEnds(s: Text)
    ensures TrimRight(s) <= s
    ensures TrimRight(s) != [] ==> !IsSpace(TrimRight(s)[|TrimRight(s)| - 1])
  {
    if s != [] && IsSpace(s[|s| - 1]) {
      TrimRightEnds(s[..|s| - 1]);
    }
  }

  predicate SameIgnoringCase(a: Text, b: Text)
  {
    ToLower(a) == ToLower(b)
  }

  lemma LowerKeepsBlanks(c: ascii, d: ascii)
    requires ToLowerChar(c) == ToLowerChar(d)
    ensures IsBlank(c) <==> IsBlank(d)
    ensures d == ' ' ==> c == ' '
  {
  }

  lemma PrefixPointwise(line: Text, name: Text)
    ensures HasPrefix(ToLower(line), ToLower(name) + " ") <==>
              && |name| < |line|
              && line[|name|] == ' '
              && forall i :: 0 <= i < |name| ==> ToLowerChar(line[i]) == ToLowerChar(name[i])
  {
    var wanted: Text := ToLower(name) + " ";
    if |name| < |line| {
      var start := ToLower(line)[..|name| + 1];
      assert start == wanted <==> forall i :: 0 <= i < |wanted| ==> start[i] == wanted[i];
      if start == wanted {
        assert start[|name|] == wanted[|name|];
        forall i | 0 <= i < |name| ensures ToLowerChar(line[i]) == ToLowerChar(name[i]) {
          assert start[i] == wanted[i];
        }
      }
    }
  }

  /** The first character after the name in a line the parser yields a package for. */
  ghost predicate SeparatedBySpace(raw: Text)
  {
    var line := TrimSpace(raw);
    var n := Span(line, NotBlank);
    n < |line| && line[n] == ' '
  }

  /** One line: the scan stops there exactly when the parser yields the name, ignoring case,
      and the separator starts with a space. */
  lemma HitExactlyWhen(raw: Text, name: Text)
    requires name != [] && All(name, NotBlank)
    ensures Hit(raw, name) <==>
              Entry(raw).Some? && SameIgnoringCase(Entry(raw).value.name, name) && SeparatedBySpace(raw)
  {
    var line := TrimSpace(raw);
    PrefixPointwise(line, name);
    if Hit(raw, name) {
      HitIsMatched(line, name);
      TrimRightEnds(TrimLeft(raw));
      MatchedFrom(line, |name|);
    }
    if Entry(raw).Some? && SameIgnoringCase(Entry(raw).value.name, name) && SeparatedBySpace(raw) {
      LowerPointwise(line[..Span(line, NotBlank)], name);
    }
  }

  lemma LowerPointwise(a: Text, b: Text)
    requires ToLower(a) == ToLower(b)
    ensures |a| == |b| && forall i :: 0 <= i < |a| ==> ToLowerChar(a[i]) == ToLowerChar(b[i])
  {
    assert |ToLower(a)| == |ToLower(b)|;
    forall i | 0 <= i < |a| ensures ToLowerChar(a[i]) == ToLowerChar(b[i]) {
      assert ToLower(a)[i] == ToLower(b)[i];
    }
  }

  lemma HitIsMatched(line: Text, name: Text)
    requires name != [] && All(name, NotBlank)
    requires |name| < |line| && line[|name|] == ' '
    requires forall i :: 0 <= i < |name| ==> ToLowerChar(line[i]) == ToLowerChar(name[i])
    ensures Span(line, NotBlank) == |name|
    ensures SameIgnoringCase(line[..|name|], name)
  {
    forall i | 0 <= i < |name| ensures NotBlank(line[i]) {
      LowerKeepsBlanks(line[i], name[i]);
    }
    SpanIs(line, |name|, NotBlank);
    assert ToLower(line[..|name|]) == ToLower(name);
  }

  /** A line that does not end in white space has something after its first blank. */
  lemma MatchedFrom(line: Text, n: nat)
    requires 0 < n < |line| && Span(line, NotBlank) == n
    requires !IsSpace(line[|line| - 1])
    ensures Match(line).Some? && Match(line).value.0 == line[..n]
  {
    var m := Span(line[n..], IsBlank);
    assert line[n..][0] == line[n];
    assert line[n..][|line| - n - 1] == line[|line| - 1];
    assert n + m < |line|;
    assert line[n + m..][0] == line[n..][m];
  }

  lemma EntriesMember(lines: seq<Text>, p: Package)
    ensures p in Entries(lines) <==> exists raw :: raw in lines && Entry(raw) == Some(p)
  {
    var lists := Map(lines, Contribution);
    FlattenMember(lists, p);
    if p in Entries(lines) {
      var list :| list in lists && p in list;
      var i :| 0 <= i < |lists| && lists[i] == list;
      assert lines[i] in lines && Entry(lines[i]) == Some(p);
    }
    if raw :| raw in lines && Entry(raw) == Some(p) {
      var i :| 0 <= i < |lines| && lines[i] == raw;
      assert lists[i] in lists && p in lists[i];
    }
  }

  /** The answer of `IsPackageInstalled` for an output. */
  ghost predicate ScanFinds(output: Text, name: Text)
  {
    exists raw :: raw in SplitLines(output) && Hit(raw, name)
  }

  /** Whether the list parser yields the name, ignoring case. */
  ghost predicate ListHas(output: Text, name: Text)
  {
    exists p :: p in Entries(SplitLines(output)) && SameIgnoringCase(p.name, name)
  }

  ghost predicate YieldedWithSpace(output: Text, name: Text)
  {
    exists raw :: raw in SplitLines(output) && Entry(raw).Some?
      && SameIgnoringCase(Entry(raw).value.name, name) && SeparatedBySpace(raw)
  }

  /** For every output and every non-empty name without blanks: the scan finds only what the
      list has, and the two agree exactly when a listed name has some line on which its
      separator starts with a space. */
  lemma ScanAgreesExactlyWhen(output: Text, name: Text)
    requires name != [] && All(name, NotBlank)
    ensures ScanFinds(output, name) ==> ListHas(output, name)
    ensures (ScanFinds(output, name) <==> ListHas(output, name)) <==>
              (ListHas(output, name) ==> YieldedWithSpace(output, name))
  {
    var lines := SplitLines(output);
    forall raw | raw in lines
      ensures Hit(raw, name) <==>
                Entry(raw).Some? && SameIgnoringCase(Entry(raw).value.name, name) && SeparatedBySpace(raw)
    {
      HitExactlyWhen(raw, name);
    }
    if ScanFinds(output, name) {
      var raw :| raw in lines && Hit(raw, name);
      EntriesMember(lines, Entry(raw).value);
    }
  }

  predicate NotSpace(c: ascii)
  {
    !IsSpace(c)
  }

  /** A field of a printed line: not empty and without white space. */
  predicate IsField(s: Text)
  {
    s != [] && All(s, NotSpace)
  }

  /** A line made of a name, one blank character other than a newline, and a version. */
  ghost predicate MadeOf(line: Text, name: Text, sep: ascii, version: Text)
  {
    && |line| == |name| + 1 + |version|
    && (forall i :: 0 <= i < |name| ==> line[i] == name[i])
    && line[|name|] == sep
    && (forall i :: |name| < i < |line| ==> line[i] == version[i - |name| - 1])
  }

  lemma MatchOfFields(line: Text, name: Text, sep: ascii, version: Text)
    requires MadeOf(line, name, sep, version)
    requires IsField(name) && IsField(version) && IsBlank(sep)
    ensures Match(line) == Some((name, version)) && Span(line, NotBlank) == |name|
  {
    var n, k := |name|, |version|;
    CutOfFields(line, name, sep, version);
    MatchIsTheCut(line, n, 1, k);
    assert line[..n] == name && line[n + 1..n + 1 + k] == version;
  }

  lemma CutOfFields(line: Text, name: Text, sep: ascii, version: Text)
    requires MadeOf(line, name, sep, version)
    requires IsField(name) && IsField(version) && IsBlank(sep)
    ensures Cut(line, |name|, 1, |version|)
  {
    forall i | 0 <= i < |line| && i != |name| ensures NotBlank(line[i]) {
      assert NotSpace(if i < |name| then name[i] else version[i - |name| - 1]);
    }
  }

  lemma EntryOfFields(line: Text, name: Text, sep: ascii, version: Text)
    requires MadeOf(line, name, sep, version)
    requires IsField(name) && IsField(version) && IsBlank(sep) && sep != '\n'
    requires !Contains(line, SUMMARY)
    ensures '\n' !in line
    ensures Entry(line) == Some(Installed(name, version))
    ensures SeparatedBySpace(line) <==> sep == ' '
  {
    assert NotSpace(line[0]) && NotSpace(line[|line| - 1]);
    assert TrimSpace(line) == line;
    MatchOfFields(line, name, sep, version);
  }

  lemma OneLineOutput(output: Text, p: Package)
    requires SplitLines(output) == [output] && Entry(output) == Some(p) && !Hit(output, p.name)
    ensures ListHas(output, p.name) && !ScanFinds(output, p.name)
  {
    assert output in SplitLines(output);
    EntriesMember(SplitLines(output), p);
  }

  /** They do not always agree: on a line with a tab between name and version the parser
      yields the package and the scan does not stop. */
  lemma TabDisagrees(output: Text, name: Text, version: Text)
    requires IsField(name) && IsField(version) && MadeOf(output, name, '\t', version) && !Contains(output, SUMMARY)
    ensures ListHas(output, name) && !ScanFinds(output, name)
  {
    EntryOfFields(output, name, '\t', version);
    SplitFirstLine(output, []);
    HitExactlyWhen(output, name);
    OneLineOutput(output, Installed(name, version));
  }

  /** In particular they agree on every output whose separators all start with a space. */
  lemma ScanAgreesOnSpaces(output: Text, name: Text)
    requires name != [] && All(name, NotBlank)
    requires forall raw :: raw in SplitLines(output) && Entry(raw).Some? ==> SeparatedBySpace(raw)
    ensures ScanFinds(output, name) <==> ListHas(output, name)
  {
    ScanAgreesExactlyWhen(output, name);
    if ListHas(output, name) {
      var p :| p in Entries(SplitLines(output)) && SameIgnoringCase(p.name, name);
      EntriesMember(SplitLines(output), p);
    }
  }

  // ---------- Round trip ----------

  function Line(entry: (Text, Text)): Text
  {
    entry.0 + [' '] + entry.1
  }

  function ToPackage(entry: (Text, Text)): Package
  {
    Installed(entry.0, entry.1)
  }

  /** The lines, joined by newlines. */
  function Join(lines: seq<Text>): Text
  {
    if lines == [] then []
    else if |lines| == 1 then lines[0]
    else lines[0] + "\n" + Join(lines[1..])
  }

  ghost predicate Printable(entry: (Text, Text))
  {
    && IsField(entry.0) && IsField(entry.1)
    && !Contains(Line(entry), SUMMARY)
  }

  lemma {:induction false} SplitFirstLine(line: Text, rest: Text)
    requires '\n' !in line
    ensures SplitLines(line) == [line]
    ensures SplitLines(line + "\n" + rest) == [line] + SplitLines(rest)
  {
    if line == [] {
      assert line + "\n" + rest == ['\n'] + rest;
      assert (['\n'] + rest)[1..] == rest;
    } else {
      SplitFirstLine(line[1..], rest);
      assert (line + "\n" + rest)[1..] == line[1..] + "\n" + rest;
      assert line == [line[0]] + line[1..];
    }
  }

  lemma {:induction false} SplitJoin(lines: seq<Text>)
    requires lines != [] && forall line :: line in lines ==> '\n' !in line
    ensures SplitLines(Join(lines)) == lines
  {
    if |lines| == 1 {
      SplitFirstLine(lines[0], []);
    } else {
      SplitFirstLine(lines[0], Join(lines[1..]));
      SplitJoin(lines[1..]);
    }
  }

  /** Splitting is the inverse of joining on every text. */
  lemma {:induction false} JoinSplit(s: Text)
    ensures Join(SplitLines(s)) == s
    ensures forall line :: line in SplitLines(s) ==> '\n' !in line
  {
    if s != [] {
      JoinSplit(s[1..]);
      var rest := SplitLines(s[1..]);
      assert rest == [rest[0]] + rest[1..];
      assert s == [s[0]] + s[1..];
      if s[0] == '\n' {
        assert ([[]] + rest)[1..] == rest;
      } else {
        assert ([[s[0]] + rest[0]] + rest[1..])[1..] == rest[1..];
      }
    }
  }

  lemma PrintedEntry(entry: (Text, Text))
    requires Printable(entry)
    ensures '\n' !in Line(entry) && Entry(Line(entry)) == Some(ToPackage(entry))
  {
    EntryOfFields(Line(entry), entry.0, ' ', entry.1);
  }

  /** Parsing the printed form of any list of packages gives the list back, in order. */
  lemma ParseInvertsPrint(entries: seq<(Text, Text)>)
    requires forall entry :: entry in entries ==> Printable(entry)
    ensures Entries(SplitLines(Join(Map(entries, Line)))) == Map(entries, ToPackage)
  {
    if entries == [] {
      assert Map(entries, Line) == [];
      assert Entry([]) == None;
      assert Map([[]], Contribution) == [[]];
    } else {
      var lines := Map(entries, Line);
      forall i | 0 <= i < |lines|
        ensures '\n' !in lines[i] && Contribution(lines[i]) == [ToPackage(entries[i])]
      {
        PrintedEntry(entries[i]);
      }
      SplitJoin(lines);
      FlattenSingletons(Map(lines, Contribution), Map(entries, ToPackage));
    }
  }
}
