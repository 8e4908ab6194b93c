/**
 The boot critical chain (tools/analyze.go:101-165).

 Text is a sequence of bytes, so that the branch character of the tree drawing is the three bytes that
 the depth computation counts.
 */
module BootChain {
  import opened Wrappers
  import opened Sequences
  import opened Text
  import opened Numbers
  import opened Boot

  /** The UTF-8 bytes of the horizontal line and of the corner before it. */
  const DASH := [0xe2 as char, 0x94 as char, 0x80 as char]
  const CORNER := [0xe2 as char, 0x94 as char, 0x94 as char]

  datatype Link = Link(unit: string, depth: nat, active: Option<string>, start: Option<string>)

  predicate DashAt(s: string, i: int)
    requires 0 <= i <= |s|
  {
    i + 3 <= |s| && s[i..i + 3] == DASH
  }

  /** strings.LastIndex of the horizontal line before position `i`. */
  function LastDash(s: string, i: nat): int
    requires i <= |s|
  {
    if i == 0 then -1 else if DashAt(s, i - 1) then i - 1 else LastDash(s, i - 1)
  }

  /** Go's division truncates toward zero. */
  function TruncatedHalf(n: int): int {
    if n >= 0 then n / 2 else -((-n) / 2)
  }

  /** \S of the line pattern excludes the blank and the controls from tab to carriage return but one. */
  predicate PatternSpace(c: char): (r: bool)
    ensures r <==> c as int == 32 || (9 <= c as int <= 13 && c as int != 11)
  {
    c == ' ' || c == '\t' || c == '\n' || c == '\r' || c as int == 12
  }

  predicate Solid(s: string) {
    s != "" && forall i :: 0 <= i < |s| ==> !PatternSpace(s[i])
  }

  /** An optional group: a mark and a nonempty solid text behind it. */
  predicate Marked(part: string, mark: char) {
    part != "" && part[0] == mark && Solid(part[1..])
  }

  /** ^(\S+)(?: @(\S+))?(?: \+(\S+))?$ on the text behind the tree prefix. */
  function Content(content: string, depth: nat): Option<Link> {
    var parts := Split(content, ' ');
    if !Solid(parts[0]) then None
    else if |parts| == 1 then Some(Link(parts[0], depth, None, None))
    else if |parts| == 2 && Marked(parts[1], '@') then Some(Link(parts[0], depth, Some(parts[1][1..]), None))
    else if |parts| == 2 && Marked(parts[1], '+') then Some(Link(parts[0], depth, None, Some(parts[1][1..])))
    else if |parts| == 3 && Marked(parts[1], '@') && Marked(parts[2], '+')
    then Some(Link(parts[0], depth, Some(parts[1][1..]), Some(parts[2][1..])))
    else None
  }

  /** parseBootChainLine, without the conversion of its two times. */
  function ChainLine(line: string): Option<Link> {
    var idx := LastDash(line, |line|);
    if idx < 0 then Content(line, 0)
    else
      assert DashAt(line, idx) by { LastDashIs(line, |line|); }
      Content(line[idx + 3..], TruncatedHalf(idx - 1))
  }

  /** ActiveSeconds and StartSeconds: zero without a time, or when it does not parse. */
  function TimeSeconds(time: Option<string>): real {
    match time
    case None => 0.0
    case Some(t) => (match Timespan(t) case Some(v) => v case None => 0.0)
  }

  lemma {:induction false} LastDashIs(s: string, i: nat)
    requires i <= |s|
    ensures var k := LastDash(s, i);
            && -1 <= k < i && (k >= 0 ==> DashAt(s, k)) && forall j :: k < j < i ==> !DashAt(s, j)
  {
    if i > 0 && !DashAt(s, i - 1) {
      LastDashIs(s, i - 1);
    }
  }

  function Spaces(n: nat): string {
    seq(n, _ => ' ')
  }

  function Prefix(depth: nat): string {
    if depth == 0 then "" else Spaces(2 * (depth - 1)) + CORNER + DASH
  }

  function TimeParts(l: Link): seq<string> {
    (match l.active case Some(t) => ["@" + t] case None => [])
    + (match l.start case Some(t) => ["+" + t] case None => [])
  }

  function PrintContent(l: Link): string {
    Join([l.unit] + TimeParts(l), " ")
  }

  function PrintLink(l: Link): string {
    Prefix(l.depth) + PrintContent(l)
  }

  ghost predicate NoDash(s: string) {
    forall i :: 0 <= i <= |s| ==> !DashAt(s, i)
  }

  ghost predicate LinkSolid(l: Link) {
    && Solid(l.unit)
    && (l.active.Some? ==> Solid(l.active.value)) && (l.start.Some? ==> Solid(l.start.value))
  }

  ghost predicate LinkOk(l: Link) {
    LinkSolid(l) && NoDash(PrintContent(l))
  }

  /** The tree prefix is recognised, and its byte length gives the depth back. */
  lemma PrefixRead(l: Link)
    requires NoDash(PrintContent(l))
    ensures ChainLine(PrintLink(l)) == Content(PrintContent(l), l.depth)
  {
    var line, content, p := PrintLink(l), PrintContent(l), Prefix(l.depth);
    LastDashIs(line, |line|);
    var k := LastDash(line, |line|);
    forall j | |p| <= j < |line| ensures !DashAt(line, j) {
      assert j + 3 <= |line| ==> line[j..j + 3] == content[j - |p|..j - |p| + 3];
      assert !DashAt(content, j - |p|);
    }
    if l.depth == 0 {
      assert line == content;
    } else {
      var at := 2 * (l.depth - 1) + 3;
      assert line[at..at + 3] == DASH;
      assert DashAt(line, at);
      forall j | at < j < |p| ensures !DashAt(line, j) {
        assert line[at + 1] == DASH[1] && line[at + 2] == DASH[2];
        assert j + 3 <= |line| ==> line[j..j + 3][0] == line[j];
      }
      assert k == at;
      assert line[at + 3..] == content;
    }
  }

  lemma SolidNoSpace(s: string)
    requires Solid(s)
    ensures ' ' !in s
  {
  }

  lemma {:induction false} ContentRead(l: Link)
    requires LinkSolid(l)
    ensures Content(PrintContent(l), l.depth) == Some(l)
  {
    var parts := [l.unit] + TimeParts(l);
    SolidNoSpace(l.unit);
    forall p | p in parts ensures ' ' !in p {
    }
    SplitJoin(parts, ' ');
    if l.active.Some? {
      assert parts[1] == "@" + l.active.value && parts[1][1..] == l.active.value;
      if l.start.Some? {
        assert parts[2] == "+" + l.start.value && parts[2][1..] == l.start.value;
      }
    } else if l.start.Some? {
      assert parts[1] == "+" + l.start.value && parts[1][1..] == l.start.value;
    }
  }

  /** What the line pattern matched, printed, is the text again. */
  lemma ContentPrints(content: string, depth: nat)
    requires Content(content, depth).Some?
    ensures var l := Content(content, depth).value;
            PrintContent(l) == content && LinkSolid(l) && l.depth == depth
  {
    var parts := Split(content, ' ');
    JoinSplit(content, ' ');
    var l := Content(content, depth).value;
    assert forall i :: 1 <= i < |parts| ==> parts[i] == [parts[i][0]] + parts[i][1..];
    assert [l.unit] + TimeParts(l) == parts;
  }

  lemma ContentIff(content: string, depth: nat, l: Link)
    ensures Content(content, depth) == Some(l) <==> LinkSolid(l) && l.depth == depth && content == PrintContent(l)
  {
    if Content(content, depth).Some? {
      ContentPrints(content, depth);
    }
    if LinkSolid(l) && l.depth == depth && content == PrintContent(l) {
      ContentRead(l);
    }
  }

  /** The last branch character of the line stands behind `before`, whose bytes, two per level, give the depth. */
  ghost predicate DrawnBehind(line: string, before: string, l: Link) {
    && line == before + DASH + PrintContent(l)
    && (forall j :: |before| < j <= |line| ==> !DashAt(line, j))
    && l.depth == if before == "" then 0 else (|before| - 1) / 2
  }

  /** A line without a branch character has depth zero. */
  ghost predicate PlainAt(line: string, l: Link) {
    NoDash(line) && l.depth == 0 && line == PrintContent(l)
  }

  lemma DrawnAt(line: string, before: string, l: Link)
    requires DrawnBehind(line, before, l)
    ensures LastDash(line, |line|) == |before| && line[|before| + 3..] == PrintContent(l)
  {
    LastDashIs(line, |line|);
    assert line[|before|..|before| + 3] == DASH;
    assert DashAt(line, |before|);
  }

  lemma DrawnIff(line: string, k: nat, l: Link)
    requires LastDash(line, |line|) == k
    ensures k + 3 <= |line|
    ensures (exists before :: DrawnBehind(line, before, l))
            <==> l.depth == TruncatedHalf(k - 1) && line[k + 3..] == PrintContent(l)
  {
    LastDashIs(line, |line|);
    assert line == line[..k] + DASH + line[k + 3..];
    if l.depth == TruncatedHalf(k - 1) && line[k + 3..] == PrintContent(l) {
      assert DrawnBehind(line, line[..k], l);
    }
    if before :| DrawnBehind(line, before, l) {
      DrawnAt(line, before, l);
    }
  }

  /** Which lines are read, and as what, for every line and link. */
  lemma ChainLineIff(line: string, l: Link)
    ensures ChainLine(line) == Some(l) <==>
            LinkSolid(l) && (PlainAt(line, l) || exists before :: DrawnBehind(line, before, l))
  {
    LastDashIs(line, |line|);
    var k := LastDash(line, |line|);
    if k < 0 {
      ContentIff(line, 0, l);
      if before :| DrawnBehind(line, before, l) {
        DrawnAt(line, before, l);
      }
    } else {
      DrawnIff(line, k, l);
      ContentIff(line[k + 3..], TruncatedHalf(k - 1), l);
    }
  }

  /** With a branch character in its content, a line is read from behind that character on. */
  lemma DashShortens(l: Link, i: nat)
    requires i <= |PrintContent(l)| && DashAt(PrintContent(l), i)
    ensures ChainLine(PrintLink(l)) != Some(l)
  {
    var line, content, p := PrintLink(l), PrintContent(l), Prefix(l.depth);
    LastDashIs(line, |line|);
    var k := LastDash(line, |line|);
    assert line[|p| + i..|p| + i + 3] == content[i..i + 3];
    assert DashAt(line, |p| + i);
    assert k >= |p| + i;
    if ChainLine(line) == Some(l) {
      ContentPrints(line[k + 3..], TruncatedHalf(k - 1));
    }
  }

  /**
   A printed link parses back to its unit, depth and times exactly when unit and times contain no white
   space and no branch character.
   */
  lemma LinkRoundTripIff(l: Link)
    ensures ChainLine(PrintLink(l)) == Some(l) <==> LinkOk(l)
  {
    if i: nat :| i <= |PrintContent(l)| && DashAt(PrintContent(l), i) {
      DashShortens(l, i);
    } else {
      PrefixRead(l);
      if LinkOk(l) {
        ContentRead(l);
      } else if Content(PrintContent(l), l.depth).Some? {
        ContentPrints(PrintContent(l), l.depth);
      }
    }
  }

  /** The seconds of a printed one-unit time are its exact value. */
  lemma LinkSeconds(a: Amount)
    requires AmountOk(a)
    ensures TimeSeconds(Some(PrintAmount(a))) == AmountSeconds(a)
  {
    TimespanRoundTrip([a]);
    assert PrintAmounts([a]) == [PrintAmount(a)];
    assert Join([PrintAmount(a)], " ") == PrintAmount(a);
    TotalOne(AmountSeconds(a));
    assert seq(|[a]|, i requires 0 <= i < |[a]| => AmountSeconds([a][i])) == [AmountSeconds(a)];
  }

  lemma TotalOne(x: real)
    ensures Total([x]) == x
  {
    assert [x][..0] == [];
  }

  // ---------------------------------------------------------------- times of several units

  /** Words, each behind a space. */
  function Spaced(words: seq<string>): string {
    if words == [] then "" else " " + words[0] + Spaced(words[1..])
  }

  lemma {:induction false} SpacedConcat(a: seq<string>, b: seq<string>)
    ensures Spaced(a + b) == Spaced(a) + Spaced(b)
  {
    if a == [] {
      assert a + b == b;
    } else {
      assert (a + b)[1..] == a[1..] + b;
      SpacedConcat(a[1..], b);
    }
  }

  lemma {:induction false} JoinSpaced(words: seq<string>)
    requires words != []
    ensures Join(words, " ") == words[0] + Spaced(words[1..])
  {
    if |words| > 1 {
      JoinSpaced(words[1..]);
      assert words[1..][1..] == words[2..];
    }
  }

  lemma {:induction false} SplitSpaced(head: string, words: seq<string>)
    requires ' ' !in head && forall w :: w in words ==> ' ' !in w
    ensures Split(head + Spaced(words), ' ') == [head] + words
    decreases |words|
  {
    if words == [] {
      assert head + "" == head;
      SplitNone(head, ' ');
    } else {
      assert words[0] in words;
      assert head + Spaced(words) == head + [' '] + (words[0] + Spaced(words[1..]));
      SplitPrefix(head, ' ', words[0] + Spaced(words[1..]));
      SplitSpaced(words[0], words[1..]);
    }
  }

  /** A time as systemd prints it: no time, or amounts separated by spaces. */
  function TimeText(amounts: seq<Amount>): Option<string> {
    if amounts == [] then None else Some(Join(PrintAmounts(amounts), " "))
  }

  /** The space-separated parts of a marked time. */
  function MarkedParts(amounts: seq<Amount>, mark: char): seq<string> {
    if amounts == [] then [] else [[mark] + PrintAmount(amounts[0])] + PrintAmounts(amounts[1..])
  }

  lemma MarkedSpaced(amounts: seq<Amount>, mark: char)
    requires amounts != []
    ensures " " + ([mark] + Join(PrintAmounts(amounts), " ")) == Spaced(MarkedParts(amounts, mark))
  {
    var words := PrintAmounts(amounts);
    JoinSpaced(words);
    assert words[1..] == PrintAmounts(amounts[1..]);
    assert MarkedParts(amounts, mark)[1..] == words[1..];
    assert " " + ([mark] + (words[0] + Spaced(words[1..]))) == " " + ([mark] + words[0]) + Spaced(words[1..]);
  }

  /** A link's content is its unit and then the parts of its times. */
  lemma ContentSpaced(l: Link, active: seq<Amount>, start: seq<Amount>)
    requires l.active == TimeText(active) && l.start == TimeText(start)
    ensures PrintContent(l) == l.unit + Spaced(MarkedParts(active, '@') + MarkedParts(start, '+'))
  {
    var a, s := MarkedParts(active, '@'), MarkedParts(start, '+');
    JoinSpaced([l.unit] + TimeParts(l));
    assert ([l.unit] + TimeParts(l))[1..] == TimeParts(l);
    SpacedConcat(a, s);
    var pa := if active == [] then [] else ["@" + Join(PrintAmounts(active), " ")];
    var ps := if start == [] then [] else ["+" + Join(PrintAmounts(start), " ")];
    assert TimeParts(l) == pa + ps;
    SpacedConcat(pa, ps);
    if active != [] {
      MarkedSpaced(active, '@');
      assert Spaced(pa) == " " + pa[0] + "";
    }
    if start != [] {
      MarkedSpaced(start, '+');
      assert Spaced(ps) == " " + ps[0] + "";
    }
  }

  /** No space, and no byte of the branch character. */
  ghost predicate Plain(s: string) {
    forall i :: 0 <= i < |s| ==> s[i] as int < 0x80 && s[i] != ' '
  }

  lemma AmountPlain(a: Amount)
    requires AmountOk(a)
    ensures Plain(PrintAmount(a)) && PrintAmount(a) != "" && IsDigit(PrintAmount(a)[0])
  {
    NaturalDecimal(a.whole);
    UnitRead(a.unit);
    NumberRead(a);
    assert PrintAmount(a)[0] == DecimalNat(a.whole)[0];
    UnitPlain(a.unit);
  }

  lemma UnitPlain(u: Unit)
    ensures Plain(UnitText(u))
  {
  }

  lemma PartsPlain(amounts: seq<Amount>, mark: char)
    requires (forall a :: a in amounts ==> AmountOk(a)) && (mark == '@' || mark == '+')
    ensures forall w :: w in MarkedParts(amounts, mark) ==> Plain(w)
    ensures |MarkedParts(amounts, mark)| == |amounts|
    ensures amounts != [] ==> MarkedParts(amounts, mark)[0][0] == mark
    ensures forall i :: 0 < i < |amounts| ==>
              MarkedParts(amounts, mark)[i] != "" && IsDigit(MarkedParts(amounts, mark)[i][0])
  {
    var ps := MarkedParts(amounts, mark);
    forall i | 0 <= i < |amounts|
      ensures Plain(ps[i]) && ps[i] != "" && (i > 0 ==> IsDigit(ps[i][0]))
    {
      assert amounts[i] in amounts;
      AmountPlain(amounts[i]);
      assert ps[i] == if i == 0 then [mark] + PrintAmount(amounts[0]) else PrintAmount(amounts[i]);
    }
  }

  lemma {:induction false} SpacedAscii(words: seq<string>)
    requires forall w :: w in words ==> Plain(w)
    ensures forall i :: 0 <= i < |Spaced(words)| ==> Spaced(words)[i] as int < 0x80
  {
    if words != [] {
      assert words[0] in words;
      SpacedAscii(words[1..]);
    }
  }

  /** More than one part behind a mark never matches the line pattern. */
  lemma ManyPartsNoMatch(head: string, active: seq<Amount>, start: seq<Amount>, depth: nat)
    requires ' ' !in head && (|active| >= 2 || |start| >= 2)
    requires (forall a :: a in active ==> AmountOk(a)) && (forall a :: a in start ==> AmountOk(a))
    ensures Content(head + Spaced(MarkedParts(active, '@') + MarkedParts(start, '+')), depth) == None
  {
    var a, s := MarkedParts(active, '@'), MarkedParts(start, '+');
    PartsPlain(active, '@');
    PartsPlain(start, '+');
    forall w | w in a + s ensures ' ' !in w {
      assert Plain(w);
    }
    SplitSpaced(head, a + s);
    var parts := [head] + (a + s);
    if |active| >= 2 {
      assert parts[2] == a[1];
    } else if |active| == 0 {
      assert parts[1] == s[0];
    }
  }

  /** The branch character, if any, ends before the first time. */
  lemma DashBeforeTimes(front: string, tail: string, k: int)
    requires forall i :: 0 <= i < |tail| ==> tail[i] as int < 0x80
    requires 0 <= k <= |front + tail| && DashAt(front + tail, k)
    ensures k + 3 <= |front|
  {
    var line := front + tail;
    assert line[k + 2] == line[k..k + 3][2] == DASH[2];
    assert forall i :: |front| <= i < |line| ==> line[i] == tail[i - |front|];
  }

  /** Behind a tree prefix, the branch character is found in the prefix or later. */
  lemma PrefixDash(l: Link)
    requires l.depth > 0
    ensures LastDash(PrintLink(l), |PrintLink(l)|) + 3 >= |Prefix(l.depth)|
  {
    var line, at := PrintLink(l), 2 * (l.depth - 1) + 3;
    assert line[at..at + 3] == DASH;
    assert DashAt(line, at);
    LastDashIs(line, |line|);
  }

  /** A line is read from somewhere in its unit on, or from the start of it. */
  lemma ReadFromUnit(l: Link, tail: string) returns (head: string, depth: nat)
    requires Solid(l.unit) && PrintContent(l) == l.unit + tail
    requires forall i :: 0 <= i < |tail| ==> tail[i] as int < 0x80
    ensures ' ' !in head && ChainLine(PrintLink(l)) == Content(head + tail, depth)
  {
    var line, p := PrintLink(l), Prefix(l.depth);
    var front := p + l.unit;
    assert line == front + tail;
    LastDashIs(line, |line|);
    var k := LastDash(line, |line|);
    if l.depth > 0 {
      PrefixDash(l);
    }
    if k >= 0 {
      DashBeforeTimes(front, tail, k);
    }
    var from := if k < 0 then 0 else k + 3;
    SolidNoSpace(l.unit);
    head, depth := l.unit[from - |p|..], if k < 0 then 0 else TruncatedHalf(k - 1);
    assert line[from..] == head + tail;
    assert forall i :: 0 <= i < |head| ==> head[i] == l.unit[from - |p| + i];
  }

  /** A line whose active or start time has several units is lost, whatever the unit and depth. */
  lemma SeveralUnitsLost(l: Link, active: seq<Amount>, start: seq<Amount>)
    requires Solid(l.unit)
    requires l.active == TimeText(active) && l.start == TimeText(start) && (|active| >= 2 || |start| >= 2)
    requires (forall a :: a in active ==> AmountOk(a)) && (forall a :: a in start ==> AmountOk(a))
    ensures ChainLine(PrintLink(l)) == None
  {
    var words := MarkedParts(active, '@') + MarkedParts(start, '+');
    ContentSpaced(l, active, start);
    PartsPlain(active, '@');
    PartsPlain(start, '+');
    SpacedAscii(words);
    var head, depth := ReadFromUnit(l, Spaced(words));
    ManyPartsNoMatch(head, active, start, depth);
  }

  /** For instance "1min 9.608s". */
  lemma MinuteLost(unit: string, depth: nat, start: Option<Amount>)
    requires Solid(unit) && (start.Some? ==> AmountOk(start.value))
    ensures var started := if start.Some? then Some(PrintAmount(start.value)) else None;
            ChainLine(PrintLink(Link(unit, depth, Some("1min 9.608s"), started))) == None
  {
    var active := [Amount(1, "", Min), Amount(9, "608", S)];
    var started := if start.Some? then [start.value] else [];
    assert DecimalNat(1) == "1" && DecimalNat(9) == "9";
    assert PrintAmount(active[0]) == "1" + "" + "min" == "1min";
    assert PrintAmount(active[1]) == "9" + ("." + "608") + "s" == "9.608s";
    assert PrintAmounts(active) == ["1min", "9.608s"];
    assert Join(["1min", "9.608s"], " ") == "1min 9.608s";
    assert start.Some? ==> PrintAmounts(started) == [PrintAmount(start.value)];
    SeveralUnitsLost(Link(unit, depth, TimeText(active), TimeText(started)), active, started);
  }

  // ---------------------------------------------------------------- the whole chain

  /** A parsed link and its two converted times. */
  datatype BootLink = BootLink(link: Link, activeSeconds: real, startSeconds: real)

  function Record(l: Link): BootLink {
    BootLink(l, TimeSeconds(l.active), TimeSeconds(l.start))
  }

  const ACTIVE_LEGEND := "The time when unit became active"
  const START_LEGEND := "The time the unit took to start"

  /** The link of one line, if it has one: blank lines and the two explanations have none. */
  function LineLinks(line: string): seq<BootLink> {
    if line == "" || HasPrefix(line, ACTIVE_LEGEND) || HasPrefix(line, START_LEGEND) then []
    else
      match ChainLine(line)
      case None => []
      case Some(l) => [Record(l)]
  }

  function ChainLinks(lines: seq<string>): seq<BootLink> {
    FlatMap(LineLinks, lines)
  }

  /** `x` is the value of the time, or zero if there is none or it cannot be read. */
  ghost predicate SecondsOf(time: Option<string>, x: real) {
    match time
    case None => x == 0.0
    case Some(t) => if Timespan(t).Some? then Timespan(t) == Some(x) else x == 0.0
  }

  ghost predicate Converted(b: BootLink, l: Link) {
    b.link == l && SecondsOf(l.active, b.activeSeconds) && SecondsOf(l.start, b.startSeconds)
  }

  /** A line that is neither blank nor an explanation and has a link. */
  ghost predicate LinkLine(line: string) {
    && line != "" && ChainLine(line).Some?
    && !("The time when unit became active" <= line) && !("The time the unit took to start" <= line)
  }

  /** One link for each line that has one, in order. */
  ghost predicate ChainAt(chain: seq<BootLink>, lines: seq<string>, idx: seq<nat>) {
    && Increasing(idx, |lines|) && |idx| == |chain|
    && (forall i: nat :: i < |lines| ==> (i in idx <==> LinkLine(lines[i])))
    && forall k :: 0 <= k < |idx| ==>
         var l := ChainLine(lines[idx[k]]); l.Some? && Converted(chain[k], l.value)
  }

  lemma LineLinksAre(line: string)
    ensures LinkLine(line) <==> LineLinks(line) != []
    ensures forall b :: LineLinks(line) == [b] ==> ChainLine(line).Some? && Converted(b, ChainLine(line).value)
  {
  }

  lemma ChainPicked(lines: seq<string>) returns (idx: seq<nat>)
    ensures ChainAt(ChainLinks(lines), lines, idx)
  {
    idx := FlatMapPicks(LineLinks, lines);
    forall i: nat | i < |lines| ensures i in idx <==> LinkLine(lines[i]) {
      LineLinksAre(lines[i]);
    }
    forall k | 0 <= k < |idx|
      ensures var l := ChainLine(lines[idx[k]]); l.Some? && Converted(ChainLinks(lines)[k], l.value)
    {
      LineLinksAre(lines[idx[k]]);
    }
  }

  method ParseBootCriticalChain(out: string) returns (chain: seq<BootLink>)
    ensures chain == ChainLinks(Split(out, '\n'))
    ensures exists idx :: ChainAt(chain, Split(out, '\n'), idx)
  {
    var lines := Split(out, '\n');
    chain := [];
    for i := 0 to |lines|
      invariant chain == ChainLinks(lines[..i])
    {
      assert lines[..i + 1][..i] == lines[..i];
      var line := lines[i];
      if line == "" {
        continue;
      }
      if HasPrefix(line, ACTIVE_LEGEND) || HasPrefix(line, START_LEGEND) {
        continue;
      }
      var link := ChainLine(line);
      if link.Some? {
        chain := chain + [Record(link.value)];
      }
    }
    assert lines[..|lines|] == lines;
    ghost var idx := ChainPicked(lines);
  }

  /** A line of the printed chain. */
  datatype Line = Blank | ActiveLegend(rest: string) | StartLegend(rest: string) | Printed(link: Link)

  ghost predicate LineOk(x: Line) {
    match x
    case Blank => true
    case ActiveLegend(rest) => '\n' !in rest
    case StartLegend(rest) => '\n' !in rest
    case Printed(l) => LinkOk(l)
  }

  function PrintLine(x: Line): string {
    match x
    case Blank => ""
    case ActiveLegend(rest) => ACTIVE_LEGEND + rest
    case StartLegend(rest) => START_LEGEND + rest
    case Printed(l) => PrintLink(l)
  }

  function PrintLines(xs: seq<Line>): seq<string> {
    seq(|xs|, i requires 0 <= i < |xs| => PrintLine(xs[i]))
  }

  function LinksOf(x: Line): seq<BootLink> {
    match x
    case Printed(l) => [Record(l)]
    case _ => []
  }

  /** The printed links with their converted times. */
  function Links(xs: seq<Line>): seq<BootLink> {
    FlatMap(LinksOf, xs)
  }

  /** One link for each printed one, in order, with the values of its times. */
  ghost predicate LinksAt(chain: seq<BootLink>, xs: seq<Line>, idx: seq<nat>) {
    && Increasing(idx, |xs|) && |idx| == |chain|
    && (forall i: nat :: i < |xs| ==> (i in idx <==> xs[i].Printed?))
    && forall k :: 0 <= k < |idx| ==> xs[idx[k]].Printed? && Converted(chain[k], xs[idx[k]].link)
  }

  lemma LinksPicked(xs: seq<Line>) returns (idx: seq<nat>)
    ensures LinksAt(Links(xs), xs, idx)
  {
    idx := FlatMapPicks(LinksOf, xs);
    forall k | 0 <= k < |idx| ensures xs[idx[k]].Printed? && Converted(Links(xs)[k], xs[idx[k]].link) {
      assert LinksOf(xs[idx[k]]) == [Links(xs)[k]];
    }
  }

  /** What follows the unit starts with a space and a mark. */
  lemma TailShape(l: Link) returns (tail: string)
    requires LinkOk(l)
    ensures PrintContent(l) == l.unit + tail && '\n' !in tail
    ensures tail == "" || (|tail| > 2 && tail[0] == ' ' && (tail[1] == '@' || tail[1] == '+') && tail[2] != ' ')
  {
    var parts := TimeParts(l);
    JoinSpaced([l.unit] + parts);
    assert ([l.unit] + parts)[1..] == parts;
    tail := Spaced(parts);
    if parts != [] {
      assert tail == " " + parts[0] + Spaced(parts[1..]);
      assert |parts| == 2 ==> Spaced(parts[1..]) == " " + parts[1] + "";
    }
  }

  lemma LinkHasNoNewline(l: Link)
    requires LinkOk(l)
    ensures PrintLink(l) != "" && '\n' !in PrintLink(l)
  {
    var tail := TailShape(l);
    assert '\n' !in l.unit;
  }

  /** A printed link whose first space comes fourth has a mark behind it. */
  lemma FourthSpace(l: Link)
    requires LinkOk(l) && |PrintLink(l)| > 4
    ensures PrintLink(l)[0] == 'T' && PrintLink(l)[3] == ' ' ==> PrintLink(l)[4] == '@' || PrintLink(l)[4] == '+'
  {
    var tail := TailShape(l);
    if l.depth > 0 {
      assert PrintLink(l)[0] == Prefix(l.depth)[0];
    } else {
      assert PrintLink(l) == l.unit + tail;
    }
  }

  /** A printed link is not mistaken for an explanation, of which the fifth letter is a t. */
  lemma LinkIsNoLegend(l: Link, legend: string)
    requires LinkOk(l) && |legend| > 4 && legend[0] == 'T' && legend[3] == ' ' && legend[4] == 't'
    ensures !HasPrefix(PrintLink(l), legend)
  {
    PrefixAt(PrintLink(l), legend, 0);
    PrefixAt(PrintLink(l), legend, 3);
    PrefixAt(PrintLink(l), legend, 4);
    if |PrintLink(l)| > 4 {
      FourthSpace(l);
    }
  }

  lemma LinkRead(l: Link)
    requires LinkOk(l)
    ensures '\n' !in PrintLink(l) && LineLinks(PrintLink(l)) == [Record(l)]
  {
    LinkHasNoNewline(l);
    LinkIsNoLegend(l, ACTIVE_LEGEND);
    LinkIsNoLegend(l, START_LEGEND);
    LinkRoundTripIff(l);
  }

  lemma LineRead(x: Line)
    requires LineOk(x)
    ensures '\n' !in PrintLine(x) && LineLinks(PrintLine(x)) == LinksOf(x)
  {
    match x
    case Blank =>
    case ActiveLegend(rest) => assert PrintLine(x)[..|ACTIVE_LEGEND|] == ACTIVE_LEGEND;
    case StartLegend(rest) => assert PrintLine(x)[..|START_LEGEND|] == START_LEGEND;
    case Printed(l) => LinkRead(l);
  }

  /**
   A printed critical chain parses back to its units, depths and times, in order, with the explanations
   and blank lines anywhere in between.
   */
  lemma ChainRoundTrip(xs: seq<Line>)
    requires forall x :: x in xs ==> LineOk(x)
    ensures ChainLinks(Split(Join(PrintLines(xs), "\n"), '\n')) == Links(xs)
    ensures exists idx :: LinksAt(Links(xs), xs, idx)
  {
    var idx := LinksPicked(xs);
    var lines := PrintLines(xs);
    forall i | 0 <= i < |xs| ensures '\n' !in lines[i] && LineLinks(lines[i]) == LinksOf(xs[i]) {
      assert xs[i] in xs;
      LineRead(xs[i]);
    }
    FlatMapSame(LineLinks, LinksOf, lines, xs);
    if xs == [] {
      assert [""][..0] == [];
    } else {
      SplitJoin(lines, '\n');
    }
  }
}
