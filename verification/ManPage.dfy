/** Cleaning and windowing of man pages (tools/man.go:32-44 and 77-123). */
module ManPage {
  import opened Wrappers
  import opened Sequences
  import opened Text

  // ---------------------------------------------------------------- overstrike removal

  const BACKSPACE := 8 as char

  /** The buffer after the first `n` bytes; None once a backspace has found it empty, where the code panics. */
  function Clean(raw: string, n: nat): Option<string>
    requires n <= |raw|
  {
    if n == 0 then Some("")
    else
      match Clean(raw, n - 1)
      case None => None
      case Some(buf) =>
        if raw[n - 1] == BACKSPACE && n - 1 > 0
        then (if buf == "" then None else Some(buf[..|buf| - 1]))
        else Some(buf + [raw[n - 1]])
  }

  /** cleanManOutput on bytes; None stands for the panic of Truncate(-1). */
  method CleanManOutput(raw: string) returns (clean: Option<string>)
    ensures clean == Clean(raw, |raw|)
  {
    var buf := "";
    for i := 0 to |raw|
      invariant Clean(raw, i) == Some(buf)
    {
      if raw[i] == BACKSPACE && i > 0 {
        if |buf| == 0 {
          ghost var n := i + 1;
          assert Clean(raw, n) == None;
          NeverRecovers(raw, n, |raw|);
          return None;
        }
        buf := buf[..|buf| - 1];
      } else {
        buf := buf + [raw[i]];
      }
    }
    clean := Some(buf);
  }

  lemma {:induction false} NeverRecovers(raw: string, n: nat, m: nat)
    requires n <= m <= |raw| && Clean(raw, n).None?
    ensures Clean(raw, m).None?
    decreases m - n
  {
    if n < m {
      NeverRecovers(raw, n + 1, m);
    }
  }

  /** Every byte but a backspace is written, and even that at index 0. */
  predicate Written(raw: string, i: nat)
    requires i < |raw|
  {
    i == 0 || raw[i] as int != 8
  }

  /** Bytes written minus bytes removed among the first `n`. */
  function Balance(raw: string, n: nat): int
    requires n <= |raw|
  {
    if n == 0 then 0 else Balance(raw, n - 1) + if Written(raw, n - 1) then 1 else -1
  }

  lemma {:induction false} CleanBalance(raw: string, n: nat)
    requires n <= |raw|
    ensures Clean(raw, n).Some? <==> forall k: nat :: k <= n ==> Balance(raw, k) >= 0
    ensures Clean(raw, n).Some? ==> |Clean(raw, n).value| == Balance(raw, n)
  {
    if n > 0 {
      CleanBalance(raw, n - 1);
      if Clean(raw, n).None? && Clean(raw, n - 1).Some? {
        assert Balance(raw, n) < 0;
      }
    }
  }

  /**
   Cleaning succeeds exactly when no prefix removes more than it wrote, and leaves what was written and not
   removed.
   */
  lemma CleanIff(raw: string)
    ensures Clean(raw, |raw|).Some? <==> forall k: nat :: k <= |raw| ==> Balance(raw, k) >= 0
    ensures Clean(raw, |raw|).Some? ==> |Clean(raw, |raw|).value| == Balance(raw, |raw|)
  {
    CleanBalance(raw, |raw|);
  }

  /** The length of the buffer after each number of bytes. */
  function Balances(raw: string): (b: seq<int>)
    ensures |b| == |raw| + 1 && forall n :: 0 <= n < |b| ==> b[n] == Balance(raw, n)
  {
    seq(|raw| + 1, n requires 0 <= n <= |raw| => Balance(raw, n))
  }

  /** Byte `i` was written, and what follows never falls back to the length before it. */
  ghost predicate Survives(raw: string, b: seq<int>, i: nat, n: nat)
    requires i < n <= |raw| < |b|
  {
    Written(raw, i) && forall j: nat :: i < j <= n ==> b[j] > b[i]
  }

  /** The bytes at positions `idx`, each written when the buffer had the length of its own position. */
  ghost predicate KeptAt(raw: string, b: seq<int>, n: nat, buf: string, idx: seq<nat>)
    requires n <= |raw| < |b|
  {
    && Increasing(idx, n) && |idx| == |buf|
    && (forall k :: 0 <= k < |idx| ==> buf[k] == raw[idx[k]] && b[idx[k]] == k)
    && forall i: nat :: i < n ==> (i in idx <==> Survives(raw, b, i, n))
  }

  lemma SurvivesNext(raw: string, b: seq<int>, i: nat, n: nat)
    requires i < n < |raw| < |b|
    ensures Survives(raw, b, i, n + 1) <==> Survives(raw, b, i, n) && b[n + 1] > b[i]
  {
  }

  lemma KeepWritten(raw: string, b: seq<int>, n: nat, buf: string, idx: seq<nat>)
    requires n < |raw| < |b| && KeptAt(raw, b, n, buf, idx)
    requires Written(raw, n) && b[n] == |buf| && b[n + 1] == b[n] + 1
    ensures KeptAt(raw, b, n + 1, buf + [raw[n]], idx + [n])
  {
    forall i: nat | i < n + 1 ensures i in idx + [n] <==> Survives(raw, b, i, n + 1) {
      if i < n {
        SurvivesNext(raw, b, i, n);
        if i in idx {
          var k :| 0 <= k < |idx| && idx[k] == i;
        }
      }
    }
  }

  lemma KeepErased(raw: string, b: seq<int>, n: nat, buf: string, idx: seq<nat>)
    requires n < |raw| < |b| && KeptAt(raw, b, n, buf, idx) && buf != ""
    requires !Written(raw, n) && b[n] == |buf| && b[n + 1] == b[n] - 1
    ensures KeptAt(raw, b, n + 1, buf[..|buf| - 1], idx[..|idx| - 1])
  {
    var last := |idx| - 1;
    forall i: nat | i < n + 1 ensures i in idx[..last] <==> Survives(raw, b, i, n + 1) {
      if i < n {
        SurvivesNext(raw, b, i, n);
        if i in idx {
          var k :| 0 <= k < |idx| && idx[k] == i;
          InPrefix(idx, n, k, last);
        }
      }
    }
  }

  lemma InPrefix(idx: seq<nat>, n: nat, k: nat, m: nat)
    requires Increasing(idx, n) && k < |idx| && m <= |idx|
    ensures idx[k] in idx[..m] <==> k < m
  {
    if k < m {
      assert idx[..m][k] == idx[k];
    }
  }

  /** Cleaning keeps, in order, exactly the written bytes that no later backspace reaches. */
  lemma {:induction false} CleanKeeps(raw: string, n: nat) returns (idx: seq<nat>)
    requires n <= |raw| && Clean(raw, n).Some?
    ensures KeptAt(raw, Balances(raw), n, Clean(raw, n).value, idx)
  {
    idx := [];
    if n > 0 {
      var before := CleanKeeps(raw, n - 1);
      var b := Balances(raw);
      CleanBalance(raw, n - 1);
      CleanBalance(raw, n);
      if Written(raw, n - 1) {
        KeepWritten(raw, b, n - 1, Clean(raw, n - 1).value, before);
        idx := before + [n - 1];
      } else {
        KeepErased(raw, b, n - 1, Clean(raw, n - 1).value, before);
        idx := before[..|before| - 1];
      }
    }
  }

  /** How one character is rendered. */
  datatype Style = Plain | Bold | Underlined

  function Render(c: char, style: Style): string {
    match style
    case Plain => [c]
    case Bold => [c, BACKSPACE, c]
    case Underlined => ['_', BACKSPACE, c]
  }

  function RenderAll(text: string, styles: seq<Style>): string
    requires |styles| == |text|
  {
    if text == "" then ""
    else
      var n := |text| - 1;
      RenderAll(text[..n], styles[..n]) + Render(text[n], styles[n])
  }

  lemma {:induction false} CleanPrefix(a: string, b: string, n: nat)
    requires n <= |a|
    ensures Clean(a + b, n) == Clean(a, n)
  {
    if n > 0 {
      CleanPrefix(a, b, n - 1);
    }
  }

  lemma CleanRender(a: string, buf: string, c: char, style: Style)
    requires Clean(a, |a|) == Some(buf) && c != BACKSPACE
    ensures Clean(a + Render(c, style), |a + Render(c, style)|) == Some(buf + [c])
  {
    var s := a + Render(c, style);
    CleanPrefix(a, Render(c, style), |a|);
    if style != Plain {
      var first := s[|a|];
      assert Clean(s, |a| + 1) == Some(buf + [first]);
      assert Clean(s, |a| + 2) == Some((buf + [first])[..|buf|]);
      assert (buf + [first])[..|buf|] == buf;
    }
  }

  /** Cleaning undoes every mixture of plain, bold and underlined single-byte characters. */
  lemma {:induction false} CleanUndoesRender(text: string, styles: seq<Style>)
    requires |styles| == |text| && BACKSPACE !in text
    ensures Clean(RenderAll(text, styles), |RenderAll(text, styles)|) == Some(text)
  {
    if text != "" {
      var n := |text| - 1;
      var c: char := text[n];
      assert c in text;
      CleanUndoesRender(text[..n], styles[..n]);
      CleanRender(RenderAll(text[..n], styles[..n]), text[..n], c, styles[n]);
      assert text[..n] + [c] == text;
    }
  }

  lemma {:induction false} CleanPlain(a: string, m: string, buf: string)
    requires Clean(a, |a|) == Some(buf) && BACKSPACE !in m
    ensures Clean(a + m, |a + m|) == Some(buf + m)
  {
    if m == "" {
      assert a + m == a && buf + m == buf;
    } else {
      var n := |m| - 1;
      var c: char := m[n];
      assert c in m;
      CleanPlain(a, m[..n], buf);
      assert a + m == a + m[..n] + [c];
      CleanPrefix(a + m[..n], [c], |a + m[..n]|);
      assert buf + m == buf + m[..n] + [c];
    }
  }

  /**
   A character of several bytes, overstruck as one, loses only its last byte: bold text survives exactly if
   it is one byte.
   */
  lemma BoldSurvivesIff(m: string)
    requires m != "" && BACKSPACE !in m
    ensures var raw := m + [BACKSPACE] + m; Clean(raw, |raw|) == Some(m[..|m| - 1] + m)
    ensures var raw := m + [BACKSPACE] + m; Clean(raw, |raw|) == Some(m) <==> |m| == 1
  {
    var half := m + [BACKSPACE];
    assert "" + m == m;
    CleanPlain("", m, "");
    CleanPrefix(m, [BACKSPACE], |m|);
    assert Clean(half, |half|) == Some(m[..|m| - 1]);
    CleanPlain(half, m, m[..|m| - 1]);
    assert |m[..|m| - 1] + m| == 2 * |m| - 1;
    if |m| == 1 {
      assert m[..0] + m == m;
    }
  }

  // ---------------------------------------------------------------- search, offset and cap

  predicate Contains(s: string, sub: string) {
    exists i :: 0 <= i <= |s| - |sub| && OccursAt(s, sub, i)
  }

  predicate OccursAt(s: string, sub: string, i: int)
    requires 0 <= i <= |s| - |sub|
  {
    s[i..i + |sub|] == sub
  }

  predicate LineMatches(line: string, search: string) {
    Contains(ToLower(line), ToLower(search))
  }

  /** Position `j` is within `context` of a marked position. */
  ghost predicate Near(marks: seq<bool>, context: int, j: int) {
    exists i :: 0 <= i < |marks| && marks[i] && i - context <= j <= i + context
  }

  /** Which lines match, and which are near a match. */
  function MarksOf(lines: seq<string>, search: string): seq<bool> {
    seq(|lines|, i requires 0 <= i < |lines| => LineMatches(lines[i], search))
  }

  ghost function NearMarks(marks: seq<bool>, context: int): seq<bool> {
    seq(|marks|, j => Near(marks, context, j))
  }

  /** The lines at which `keep` holds, in order. */
  function Select(lines: seq<string>, keep: seq<bool>): seq<string>
    requires |keep| == |lines|
  {
    if lines == [] then []
    else
      var n := |lines| - 1;
      Select(lines[..n], keep[..n]) + if keep[n] then [lines[n]] else []
  }

  function Max(a: int, b: int): int { if a > b then a else b }

  function Min(a: int, b: int): int { if a < b then a else b }

  method MatchedLines(lines: seq<string>, search: string) returns (matched: array<bool>)
    ensures fresh(matched) && matched[..] == MarksOf(lines, search)
  {
    matched := new bool[|lines|](_ => false);
    for i := 0 to |lines|
      invariant forall j :: 0 <= j < |lines| ==> (matched[j] <==> j < i && LineMatches(lines[j], search))
    {
      if LineMatches(lines[i], search) {
        matched[i] := true;
      }
    }
  }

  /** The loop that marks the context lines around each match. */
  method IncludeContext(matched: array<bool>, contextLines: int) returns (included: array<bool>)
    ensures fresh(included) && included[..] == NearMarks(matched[..], contextLines)
  {
    var n := matched.Length;
    included := new bool[n](_ => false);
    for i := 0 to n
      invariant forall j :: 0 <= j < n ==>
                  (included[j] <==> exists m :: 0 <= m < i && matched[m] && m - contextLines <= j <= m + contextLines)
      modifies included
    {
      if matched[i] {
        var start, end := Max(i - contextLines, 0), Min(i + contextLines + 1, n);
        ghost var before := included[..];
        for j := start to Max(start, end)
          invariant forall k :: 0 <= k < n ==> (included[k] <==> before[k] || start <= k < j)
          modifies included
        {
          included[j] := true;
        }
      }
    }
  }

  /** The line contains the search text, in any case of its letters. */
  ghost predicate Mentions(line: string, search: string) {
    exists at :: 0 <= at <= |line| - |search| && SameLetters(line, at, search)
  }

  ghost predicate SameLetters(line: string, at: int, search: string)
    requires 0 <= at <= |line| - |search|
  {
    forall j :: 0 <= j < |search| ==> SameLetter(line[at + j], search[j])
  }

  lemma OccursIff(line: string, search: string, at: int)
    requires 0 <= at <= |line| - |search|
    ensures OccursAt(ToLower(line), ToLower(search), at) <==> SameLetters(line, at, search)
  {
    var l, s := ToLower(line), ToLower(search);
    forall j | 0 <= j < |search| ensures l[at + j] == s[j] <==> SameLetter(line[at + j], search[j]) {
      LowerSame(line[at + j], search[j]);
    }
    if OccursAt(l, s, at) {
      forall j | 0 <= j < |search| ensures l[at + j] == s[j] {
        assert l[at..at + |s|][j] == l[at + j];
      }
    }
  }

  lemma MatchesIff(line: string, search: string)
    ensures LineMatches(line, search) <==> Mentions(line, search)
  {
    if LineMatches(line, search) {
      var at :| 0 <= at <= |line| - |search| && OccursAt(ToLower(line), ToLower(search), at);
      OccursIff(line, search, at);
    }
    if at :| 0 <= at <= |line| - |search| && SameLetters(line, at, search) {
      OccursIff(line, search, at);
    }
  }

  /** A line that mentions the search text is at most `context` lines away. */
  ghost predicate NearMention(lines: seq<string>, search: string, context: int, i: int) {
    exists m :: 0 <= m < |lines| && m - context <= i <= m + context && Mentions(lines[m], search)
  }

  /** The lines near a mention, each once and in order. */
  ghost predicate FilteredAt(filtered: seq<string>, lines: seq<string>, search: string, context: int, idx: seq<nat>) {
    && Increasing(idx, |lines|) && |idx| == |filtered|
    && (forall k :: 0 <= k < |idx| ==> filtered[k] == lines[idx[k]])
    && forall i: nat :: i < |lines| ==> (i in idx <==> NearMention(lines, search, context, i))
  }

  lemma {:induction false} SelectPicks(lines: seq<string>, keep: seq<bool>) returns (idx: seq<nat>)
    requires |keep| == |lines|
    ensures Increasing(idx, |lines|) && |idx| == |Select(lines, keep)|
    ensures forall k :: 0 <= k < |idx| ==> Select(lines, keep)[k] == lines[idx[k]]
    ensures forall i: nat :: i < |lines| ==> (i in idx <==> keep[i])
  {
    idx := [];
    if lines != [] {
      var n := |lines| - 1;
      var before := SelectPicks(lines[..n], keep[..n]);
      idx := Grow(before, n, keep[n]);
      assert n !in before;
      forall i: nat | i < |lines| ensures i in idx <==> keep[i] {
        if i < n {
          assert keep[..n][i] == keep[i];
        }
      }
    }
  }

  lemma FilterPicks(lines: seq<string>, search: string, context: int) returns (idx: seq<nat>)
    ensures FilteredAt(Select(lines, NearMarks(MarksOf(lines, search), context)), lines, search, context, idx)
  {
    var marks := MarksOf(lines, search);
    idx := SelectPicks(lines, NearMarks(marks, context));
    forall i: nat | i < |lines| ensures Near(marks, context, i) <==> NearMention(lines, search, context, i) {
      if m :| 0 <= m < |marks| && marks[m] && m - context <= i <= m + context {
        MatchesIff(lines[m], search);
      }
      if m :| 0 <= m < |lines| && m - context <= i <= m + context && Mentions(lines[m], search) {
        MatchesIff(lines[m], search);
        assert marks[m];
      }
    }
  }

  /** The search filter: exactly the lines near a match, each once and in order. */
  method FilterLines(lines: seq<string>, search: string, contextLines: int)
    returns (filtered: seq<string>)
    ensures filtered == Select(lines, NearMarks(MarksOf(lines, search), contextLines))
    ensures exists idx :: FilteredAt(filtered, lines, search, contextLines, idx)
  {
    var matched := MatchedLines(lines, search);
    var included := IncludeContext(matched, contextLines);
    ghost var keep := included[..];
    filtered := [];
    for i := 0 to |lines|
      invariant filtered == Select(lines[..i], keep[..i])
    {
      assert lines[..i + 1][..i] == lines[..i] && keep[..i + 1][..i] == keep[..i];
      if included[i] {
        filtered := filtered + [lines[i]];
      }
    }
    assert lines[..|lines|] == lines && keep[..|lines|] == keep;
    ghost var idx := FilterPicks(lines, search, contextLines);
  }

  /** Offset, then cap: an offset at or past the end is ignored. */
  method Window(all: seq<string>, offset: int, maxLines: int) returns (lines: seq<string>, truncated: bool)
    ensures var from := if 0 < offset < |all| then offset else 0;
            && from + |lines| <= |all| && lines == all[from..from + |lines|]
            && (truncated <==> from + |lines| < |all|)
            && (maxLines > 0 ==> |lines| <= maxLines)
            && (truncated ==> maxLines > 0 && |lines| == maxLines)
  {
    lines := all;
    if offset > 0 && offset < |lines| {
      lines := lines[offset..];
    }
    truncated := false;
    if maxLines > 0 && |lines| > maxLines {
      lines := lines[..maxLines];
      truncated := true;
    }
  }
}
