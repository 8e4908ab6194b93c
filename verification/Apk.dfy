/**
 Splitting apk's name-version tokens and parsing its listing (tools/packages.go:162-214).

 The token pattern is ^(.+)-(\d[^-]*(?:-r\d+)?)$ .  `Matches` says what it matches; `SplitToken` finds
 the match the way a greedy first group does, from the right.
 */
module Apk {
  import opened Wrappers
  import opened Sequences
  import opened Text

  datatype Package = Package(name: string, version: string)

  // ---------------------------------------------------------------- the pattern

  predicate AllDigits(s: string) {
    forall i :: 0 <= i < |s| ==> IsDigit(s[i])
  }

  /** (?:-r\d+)? */
  predicate Release(s: string) {
    s == "" || (|s| >= 3 && s[0] == '-' && s[1] == 'r' && AllDigits(s[2..]))
  }

  /** \d[^-]* */
  predicate Upstream(s: string) {
    s != "" && IsDigit(s[0]) && '-' !in s
  }

  /** The second group. */
  ghost predicate IsVersion(v: string) {
    exists k :: 0 <= k <= |v| && VersionAt(v, k)
  }

  predicate VersionAt(v: string, k: int)
    requires 0 <= k <= |v|
  {
    Upstream(v[..k]) && Release(v[k..])
  }

  /** The first group. */
  predicate IsName(n: string) {
    n != "" && '\n' !in n
  }

  ghost predicate Matches(token: string, name: string, version: string) {
    token == name + "-" + version && IsName(name) && IsVersion(version)
  }

  // ---------------------------------------------------------------- the split

  function FirstDash(s: string): (k: nat)
    ensures k <= |s| && '-' !in s[..k] && (k < |s| ==> s[k] == '-')
  {
    if s == "" || s[0] == '-' then 0
    else
      var k := FirstDash(s[1..]);
      assert s[..k + 1] == [s[0]] + s[1..][..k];
      k + 1
  }

  predicate VersionText(v: string) {
    VersionAt(v, FirstDash(v))
  }

  /** The rightmost dash before position `i` at which the token splits. */
  function SplitBefore(token: string, i: nat): Option<(string, string)>
    requires i <= |token|
  {
    if i == 0 then None
    else
      var k := i - 1;
      if token[k] == '-' && IsName(token[..k]) && VersionText(token[k + 1..])
      then Some((token[..k], token[k + 1..]))
      else SplitBefore(token, k)
  }

  function SplitToken(token: string): Option<(string, string)> {
    SplitBefore(token, |token|)
  }

  lemma NoDashBefore(v: string, k: nat)
    requires k <= |v| && '-' !in v[..k]
    ensures forall j :: 0 <= j < k ==> v[j] != '-'
  {
    forall j | 0 <= j < k ensures v[j] != '-' {
      var c: char := v[..k][j];
      assert c in v[..k];
    }
  }

  lemma VersionTextIff(v: string)
    ensures VersionText(v) <==> IsVersion(v)
  {
    if IsVersion(v) {
      var k :| 0 <= k <= |v| && VersionAt(v, k);
      var d := FirstDash(v);
      NoDashBefore(v, k);
      NoDashBefore(v, d);
      assert k < |v| ==> v[k..][0] == v[k];
    }
  }

  /** A version has no dash that a digit follows. */
  lemma VersionDash(v: string, j: nat)
    requires IsVersion(v) && j < |v| && v[j] == '-'
    ensures j + 1 < |v| && v[j + 1] == 'r'
  {
    var k :| 0 <= k <= |v| && VersionAt(v, k);
    NoDashBefore(v, k);
    assert forall i :: k + 2 <= i < |v| ==> v[i] == v[k..][2..][i - k - 2];
  }

  ghost predicate DashDigit(token: string, i: int) {
    0 <= i && i + 1 < |token| && token[i] == '-' && IsDigit(token[i + 1])
  }

  /** A match splits the token at the last dash that a digit follows. */
  lemma MatchAtLastDash(token: string, name: string, version: string)
    requires Matches(token, name, version)
    ensures DashDigit(token, |name|)
    ensures forall i :: DashDigit(token, i) ==> i <= |name|
  {
    var k :| 0 <= k <= |version| && VersionAt(version, k);
    assert token[|name| + 1] == version[0] == version[..k][0];
    forall i | DashDigit(token, i) ensures i <= |name| {
      if i > |name| {
        VersionDash(version, i - |name| - 1);
      }
    }
  }

  /** The pattern is unambiguous. */
  lemma MatchUnique(token: string, n1: string, v1: string, n2: string, v2: string)
    requires Matches(token, n1, v1) && Matches(token, n2, v2)
    ensures n1 == n2 && v1 == v2
  {
    MatchAtLastDash(token, n1, v1);
    MatchAtLastDash(token, n2, v2);
    assert n1 == token[..|n1|] && n2 == token[..|n2|];
    assert v1 == token[|n1| + 1..] && v2 == token[|n2| + 1..];
  }

  lemma {:induction false} SplitSound(token: string, i: nat)
    requires i <= |token| && SplitBefore(token, i).Some?
    ensures Matches(token, SplitBefore(token, i).value.0, SplitBefore(token, i).value.1)
  {
    var k := i - 1;
    if token[k] == '-' && IsName(token[..k]) && VersionText(token[k + 1..]) {
      VersionTextIff(token[k + 1..]);
      assert token == token[..k] + "-" + token[k + 1..];
    } else {
      SplitSound(token, k);
    }
  }

  lemma {:induction false} SplitComplete(token: string, i: nat, name: string, version: string)
    requires i <= |token| && Matches(token, name, version) && |name| < i
    ensures SplitBefore(token, i).Some?
  {
    var k := i - 1;
    if k == |name| {
      assert token[..k] == name && token[k + 1..] == version;
      VersionTextIff(version);
    } else {
      SplitComplete(token, k, name, version);
    }
  }

  /** splitApkNameVersion returns exactly the one way in which the pattern matches, or nothing if it does not. */
  lemma SplitIffMatches(token: string, name: string, version: string)
    ensures SplitToken(token) == Some((name, version)) <==> Matches(token, name, version)
  {
    if Matches(token, name, version) {
      SplitComplete(token, |token|, name, version);
      SplitSound(token, |token|);
      var (n, v) := SplitToken(token).value;
      MatchUnique(token, name, version, n, v);
    } else if SplitToken(token).Some? {
      SplitSound(token, |token|);
    }
  }

  /** Position `i` is the last dash before a digit, with a name on its left and a version on its right. */
  ghost predicate LastDash(token: string, i: int) {
    && DashDigit(token, i) && (forall j :: DashDigit(token, j) ==> j <= i)
    && IsName(token[..i]) && IsVersion(token[i + 1..])
  }

  lemma MatchIsLastDash(token: string, name: string, version: string)
    requires Matches(token, name, version)
    ensures LastDash(token, |name|)
  {
    MatchAtLastDash(token, name, version);
    assert token[..|name|] == name && token[|name| + 1..] == version;
  }

  /** A token splits exactly when its last dash before a digit leaves a name on the left and a version on the right. */
  lemma SplitsIffLastDash(token: string)
    ensures SplitToken(token).Some? <==> exists i :: LastDash(token, i)
  {
    if SplitToken(token).Some? {
      SplitSound(token, |token|);
      MatchIsLastDash(token, SplitToken(token).value.0, SplitToken(token).value.1);
    }
    if i :| LastDash(token, i) {
      assert token == token[..i] + "-" + token[i + 1..];
      SplitComplete(token, |token|, token[..i], token[i + 1..]);
    }
  }

  // ---------------------------------------------------------------- listings

  /** The entry of one line, if it has one. */
  function LineEntry(line: string): seq<Package> {
    var fields := Fields(line);
    if fields == [] then []
    else
      match SplitToken(fields[0])
      case None => []
      case Some((name, version)) => [Package(name, version)]
  }

  function Entries(lines: seq<string>): seq<Package> {
    FlatMap(LineEntry, lines)
  }

  /** A version: a digit and no dash, then possibly a release, which is "-r" and digits. */
  ghost predicate VersionForm(v: string, upstream: string, release: string) {
    && v == upstream + release
    && upstream != "" && '0' <= upstream[0] <= '9' && '-' !in upstream
    && (release == ""
        || (|release| > 2 && release[0] == '-' && release[1] == 'r'
            && forall i :: 2 <= i < |release| ==> '0' <= release[i] <= '9'))
  }

  lemma VersionForms(v: string)
    ensures IsVersion(v) <==> exists upstream, release :: VersionForm(v, upstream, release)
  {
    if IsVersion(v) {
      var k :| 0 <= k <= |v| && VersionAt(v, k);
      assert v == v[..k] + v[k..];
      assert v[k..] != "" ==> forall i :: 2 <= i < |v[k..]| ==> v[k..][i] == v[k..][2..][i - 2];
      assert VersionForm(v, v[..k], v[k..]);
    }
    if upstream, release :| VersionForm(v, upstream, release) {
      var k := |upstream|;
      assert v[..k] == upstream && v[k..] == release;
      assert VersionAt(v, k);
    }
  }

  /** A token that splits into a name and a version, in terms of its characters. */
  ghost predicate Splits(token: string, p: Package) {
    && token == p.name + "-" + p.version && p.name != "" && '\n' !in p.name
    && exists upstream, release :: VersionForm(p.version, upstream, release)
  }

  lemma SplitIff(token: string, p: Package)
    ensures SplitToken(token) == Some((p.name, p.version)) <==> Splits(token, p)
  {
    SplitIffMatches(token, p.name, p.version);
    VersionForms(p.version);
  }

  /** The first word of the line splits into the package. */
  ghost predicate Lists(line: string, p: Package) {
    Fields(line) != [] && Splits(Fields(line)[0], p)
  }

  lemma EntryIff(line: string, p: Package)
    ensures LineEntry(line) == [p] <==> Lists(line, p)
    ensures LineEntry(line) == [] || Lists(line, LineEntry(line)[0])
  {
    if Fields(line) != [] {
      var token := Fields(line)[0];
      SplitIff(token, p);
      if SplitToken(token).Some? {
        var (name, version) := SplitToken(token).value;
        SplitIff(token, Package(name, version));
      }
    }
  }

  /** One package for each line that lists one, in order. */
  ghost predicate ListedAt(pkgs: seq<Package>, lines: seq<string>, idx: seq<nat>) {
    && Increasing(idx, |lines|) && |idx| == |pkgs|
    && (forall i: nat :: i < |lines| ==> (i in idx <==> exists p :: Lists(lines[i], p)))
    && forall k :: 0 <= k < |idx| ==> Lists(lines[idx[k]], pkgs[k])
  }

  lemma EntriesPicked(lines: seq<string>) returns (idx: seq<nat>)
    ensures ListedAt(Entries(lines), lines, idx)
  {
    idx := FlatMapPicks(LineEntry, lines);
    forall i: nat | i < |lines| ensures i in idx <==> exists p :: Lists(lines[i], p) {
      if p :| Lists(lines[i], p) {
        EntryIff(lines[i], p);
      } else if LineEntry(lines[i]) != [] {
        EntryIff(lines[i], LineEntry(lines[i])[0]);
      }
    }
    forall k | 0 <= k < |idx| ensures Lists(lines[idx[k]], Entries(lines)[k]) {
      EntryIff(lines[idx[k]], Entries(lines)[k]);
    }
  }

  method ParseApkListOutput(output: string) returns (pkgs: seq<Package>, total: nat)
    ensures pkgs == Entries(Split(Trim(output), '\n')) && total == |pkgs|
    ensures exists idx :: ListedAt(pkgs, Split(Trim(output), '\n'), idx)
  {
    var lines := Split(Trim(output), '\n');
    pkgs := [];
    for i := 0 to |lines|
      invariant pkgs == Entries(lines[..i])
    {
      assert lines[..i + 1][..i] == lines[..i];
      var fields := Fields(lines[i]);
      if |fields| == 0 {
        continue;
      }
      var split := SplitToken(fields[0]);
      if split.None? {
        continue;
      }
      pkgs := pkgs + [Package(split.value.0, split.value.1)];
    }
    assert lines[..|lines|] == lines;
    ghost var idx := EntriesPicked(lines);
    total := |pkgs|;
  }

  /** A package as apk lists it: any further text on the line starts with white space. */
  datatype Listed = Listed(pkg: Package, tail: string)

  ghost predicate Printable(l: Listed) {
    && IsName(l.pkg.name) && IsVersion(l.pkg.version) && NoSpace(l.pkg.name) && NoSpace(l.pkg.version)
    && '\n' !in l.tail && (l.tail == "" || IsSpace(l.tail[0]))
  }

  function Token(p: Package): string {
    p.name + "-" + p.version
  }

  function PrintLine(l: Listed): string {
    Token(l.pkg) + l.tail
  }

  function PrintLines(ls: seq<Listed>): seq<string> {
    if ls == [] then [] else PrintLines(ls[..|ls| - 1]) + [PrintLine(ls[|ls| - 1])]
  }

  function Packages(ls: seq<Listed>): seq<Package> {
    seq(|ls|, i requires 0 <= i < |ls| => ls[i].pkg)
  }

  lemma TokenIsWord(l: Listed)
    requires Printable(l)
    ensures Word(Token(l.pkg))
  {
  }

  lemma LineParses(l: Listed)
    requires Printable(l)
    ensures LineEntry(PrintLine(l)) == [l.pkg]
  {
    TokenIsWord(l);
    FieldsWord(Token(l.pkg), l.tail);
    assert Matches(Token(l.pkg), l.pkg.name, l.pkg.version);
    SplitIffMatches(Token(l.pkg), l.pkg.name, l.pkg.version);
  }

  lemma {:induction false} EntriesOfPrinted(ls: seq<Listed>)
    requires forall l :: l in ls ==> Printable(l)
    ensures Entries(PrintLines(ls)) == Packages(ls)
  {
    if ls != [] {
      var n := |ls| - 1;
      EntriesOfPrinted(ls[..n]);
      LineParses(ls[n]);
      assert PrintLines(ls)[..|PrintLines(ls)| - 1] == PrintLines(ls[..n]);
      assert Packages(ls) == Packages(ls[..n]) + [ls[n].pkg];
    }
  }

  lemma {:induction false} TrimRightPrefix(s: string)
    ensures TrimRight(s) <= s
  {
    if s != "" && IsSpace(s[|s| - 1]) {
      TrimRightPrefix(s[..|s| - 1]);
    }
  }

  lemma {:induction false} JoinLast(lines: seq<string>, last: string)
    requires lines != []
    ensures Join(lines + [last], "\n") == Join(lines, "\n") + "\n" + last
  {
    if |lines| == 1 {
      assert (lines + [last])[1..] == [last];
    } else {
      assert (lines + [last])[1..] == lines[1..] + [last];
      JoinLast(lines[1..], last);
    }
  }

  lemma {:induction false} PrintedLines(ls: seq<Listed>)
    requires forall l :: l in ls ==> Printable(l)
    ensures |PrintLines(ls)| == |ls|
    ensures forall i :: 0 <= i < |ls| ==> PrintLines(ls)[i] == PrintLine(ls[i]) && '\n' !in PrintLine(ls[i])
  {
    if ls != [] {
      PrintedLines(ls[..|ls| - 1]);
      TokenIsWord(ls[|ls| - 1]);
    }
  }

  lemma {:induction false} JoinStarts(lines: seq<string>)
    requires lines != [] && lines[0] != ""
    ensures Join(lines, "\n") != "" && Join(lines, "\n")[0] == lines[0][0]
  {
  }

  /** The last printed line, behind everything that precedes its tail. */
  lemma PrintedEnds(ls: seq<Listed>, last: Listed) returns (head: string)
    requires (forall l :: l in ls ==> Printable(l)) && Printable(last)
    ensures head != "" && !IsSpace(head[|head| - 1])
    ensures forall tail :: Join(PrintLines(ls + [last.(tail := tail)]), "\n") == head + tail
  {
    var token := Token(last.pkg);
    TokenIsWord(last);
    PrintedLines(ls);
    head := if ls == [] then token else Join(PrintLines(ls), "\n") + "\n" + token;
    forall tail ensures Join(PrintLines(ls + [last.(tail := tail)]), "\n") == head + tail {
      var ms := ls + [last.(tail := tail)];
      assert ms[..|ms| - 1] == ls;
      assert PrintLines(ms) == PrintLines(ls) + [token + tail];
      if ls != [] {
        JoinLast(PrintLines(ls), token + tail);
        assert Join(PrintLines(ls), "\n") + "\n" + (token + tail) == head + tail;
      } else {
        assert PrintLines(ms) == [token + tail];
      }
    }
  }

  /** Trimming the printed text only shortens the text after the last token. */
  lemma TrimPrinted(ls: seq<Listed>, last: Listed, pad: string)
    requires (forall l :: l in ls ==> Printable(l)) && Printable(last) && AllSpace(pad)
    ensures Trim(Join(PrintLines(ls + [last]), "\n") + pad)
            == Join(PrintLines(ls + [last.(tail := TrimRight(last.tail))]), "\n")
  {
    var text := Join(PrintLines(ls + [last]), "\n");
    PrintedLines(ls + [last]);
    var first := (ls + [last])[0];
    TokenIsWord(first);
    JoinStarts(PrintLines(ls + [last]));
    assert text[0] == Token(first.pkg)[0] && (text + pad)[0] == text[0];
    TrimRightSpaces(text, pad);
    var head := PrintedEnds(ls, last);
    assert last.(tail := last.tail) == last;
    TrimRightKeeps(head, last.tail);
  }

  lemma ParsePrinted(ls: seq<Listed>)
    requires ls != [] && forall l :: l in ls ==> Printable(l)
    ensures Entries(Split(Join(PrintLines(ls), "\n"), '\n')) == Packages(ls)
  {
    PrintedLines(ls);
    forall p | p in PrintLines(ls) ensures '\n' !in p {
      var i :| 0 <= i < |ls| && PrintLines(ls)[i] == p;
    }
    SplitJoin(PrintLines(ls), '\n');
    EntriesOfPrinted(ls);
  }

  lemma ParseTrimmed(before: seq<Listed>, last: Listed, pad: string)
    requires (forall l :: l in before ==> Printable(l)) && Printable(last) && AllSpace(pad)
    ensures Entries(Split(Trim(Join(PrintLines(before + [last]), "\n") + pad), '\n')) == Packages(before + [last])
  {
    var trimmed := last.(tail := TrimRight(last.tail));
    TrimPrinted(before, last, pad);
    TrimRightPrefix(last.tail);
    assert Printable(trimmed);
    ParsePrinted(before + [trimmed]);
    assert Packages(before + [trimmed]) == Packages(before + [last]);
  }

  /** Parsing a printed listing gives its packages back, in order, whatever follows the tokens. */
  lemma ListingRoundTrip(ls: seq<Listed>, pad: string)
    requires (forall l :: l in ls ==> Printable(l)) && AllSpace(pad)
    ensures Entries(Split(Trim(Join(PrintLines(ls), "\n") + pad), '\n')) == Packages(ls)
  {
    if ls == [] {
      assert "" + pad == pad + "";
      TrimLeftSpaces(pad, "");
      assert [""][..0] == [];
    } else {
      var n := |ls| - 1;
      assert ls[..n] + [ls[n]] == ls;
      ParseTrimmed(ls[..n], ls[n], pad);
    }
  }
}
