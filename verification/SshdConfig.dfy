/**
 Reading sshd_config with its Include directives (tools/security_audit.go:51-82).

 The parser calls itself for every file an Include pattern matches and copies the sub-result over
 its own.  It keeps no record of the files it is in, so it need not return.  `Parse` takes the
 number of files that may be open at once; `None` means that this nesting was exceeded, and the
 code returns exactly when some nesting is enough.
 */
module SshdConfig {
  import opened Wrappers
  import opened Sequences
  import opened Text

  type Settings = map<string, string>

  /** The readable files, and what each Include pattern matches, in order. */
  datatype World = World(files: map<string, string>, glob: string -> seq<string>)

  datatype Directive = Skip | Include(pattern: string) | Set(key: string, value: string)

  /** One line: blank lines, comments and lines without a space say nothing. */
  function ParseLine(raw: string): Directive {
    var line := Trim(raw);
    if line == "" || HasPrefix(line, "#") then Skip
    else
      match Cut(line, ' ')
      case None => Skip
      case Some((first, second)) =>
        var key, val := ToLower(first), Trim(second);
        if key == "include" then Include(Trim(val)) else Set(key, val)
  }

  /** Text without white space at its ends. */
  ghost predicate Trimmed(s: string) {
    s != "" && !IsSpace(s[0]) && !IsSpace(s[|s| - 1])
  }

  /** A keyword up to the first blank, and a value behind it. */
  ghost predicate Says(raw: string, indent: string, key: string, gap: string, value: string, tail: string) {
    && raw == indent + key + " " + gap + value + tail
    && AllSpace(indent) && AllSpace(gap) && AllSpace(tail) && Trimmed(value)
    && key != "" && !IsSpace(key[0]) && key[0] != '#' && ' ' !in key
  }

  /** Nothing, a comment, or a text without a blank inside. */
  ghost predicate SaysNothing(raw: string, indent: string, line: string, tail: string) {
    && raw == indent + line + tail && AllSpace(indent) && AllSpace(tail)
    && (line == "" || (Trimmed(line) && (line[0] == '#' || ' ' !in line)))
  }

  /**
   A keyword is read in any case and behind any indentation; its value is kept as written, without white
   space around it.
   */
  lemma DirectiveLine(raw: string, indent: string, key: string, lower: string, gap: string, value: string, tail: string)
    requires Says(raw, indent, key, gap, value, tail) && Spells(key, lower)
    ensures ParseLine(raw) == if lower == "include" then Include(value) else Set(lower, value)
  {
    LowerIff(key, lower);
    var rest := gap + value;
    var line := key + [' '] + rest;
    assert raw == indent + line + tail;
    assert line[|line| - 1] == value[|value| - 1];
    TrimPadded(indent, line, tail);
    assert line[..1] != "#" by { assert line[..1][0] == key[0]; }
    CutAt(key, ' ', rest);
    assert gap + value + "" == rest;
    TrimPadded(gap, value, "");
    TrimNothing(value);
  }

  /** Lines that are blank, comments, or keywords without a value say nothing. */
  lemma SilentLine(raw: string, indent: string, line: string, tail: string)
    requires SaysNothing(raw, indent, line, tail)
    ensures ParseLine(raw) == Skip
  {
    if line == "" {
      assert raw == indent + tail;
      TrimLeftSpaces(indent, tail);
      assert tail + "" == tail;
      TrimLeftSpaces(tail, "");
    } else {
      TrimPadded(indent, line, tail);
      if line[0] == '#' {
        assert line[..1] == "#";
      } else {
        CutNone(line, ' ');
      }
    }
  }

  /** There are no other lines. */
  lemma LineForms(raw: string)
    ensures || (exists indent, line, tail :: SaysNothing(raw, indent, line, tail))
            || (exists indent, key, gap, value, tail :: Says(raw, indent, key, gap, value, tail))
  {
    var indent, tail := TrimParts(raw);
    var line := Trim(raw);
    if line == "" || line[0] == '#' || ' ' !in line {
      assert SaysNothing(raw, indent, line, tail);
    } else {
      var i := FirstAt(line, ' ');
      var key, rest := line[..i], line[i + 1..];
      assert rest[|rest| - 1] == line[|line| - 1];
      var gap := TrimGap(rest);
      assert line == key + " " + rest;
      assert raw == indent + key + " " + gap + Trim(rest) + tail;
      assert Says(raw, indent, key, gap, Trim(rest), tail);
    }
  }

  lemma TrimGap(s: string) returns (gap: string)
    requires s != "" && !IsSpace(s[|s| - 1])
    ensures AllSpace(gap) && s == gap + Trim(s) && Trimmed(Trim(s))
  {
    gap := TrimLeftParts(s);
    var rest := TrimLeft(s);
    assert rest != "" by {
      assert rest == "" ==> s == gap;
    }
    assert s[|s| - 1] == rest[|rest| - 1];
  }

  lemma {:induction false} FirstAt(s: string, c: char) returns (i: nat)
    requires c in s
    ensures i < |s| && s[i] == c && c !in s[..i]
  {
    if s[0] == c {
      i := 0;
    } else {
      var k := FirstAt(s[1..], c);
      i := k + 1;
      assert s[..i] == [s[0]] + s[1..][..k];
    }
  }

  function Lines(text: string): seq<string> {
    Split(text, '\n')
  }

  // ---------------------------------------------------------------- the parser

  /** The settings of the file at `path`, or no settings at all if it cannot be read. */
  function Parse(w: World, path: string, nesting: nat): (r: Option<Option<Settings>>)
    ensures r.Some? ==> (r.value.Some? <==> path in w.files)
    decreases nesting, 0
  {
    if path !in w.files then Some(None)
    else if nesting == 0 then None
    else
      match Eval(w, Lines(w.files[path]), map[], nesting - 1)
      case None => None
      case Some(m) => Some(Some(m))
  }

  /** The loop over the lines, from the settings collected so far. */
  function Eval(w: World, lines: seq<string>, acc: Settings, nesting: nat): Option<Settings>
    decreases nesting, 2, |lines|
  {
    if lines == [] then Some(acc)
    else
      match ParseLine(lines[0])
      case Skip => Eval(w, lines[1..], acc, nesting)
      case Set(k, v) => Eval(w, lines[1..], acc[k := v], nesting)
      case Include(p) =>
        match EvalMatches(w, w.glob(p), acc, nesting)
        case None => None
        case Some(m) => Eval(w, lines[1..], m, nesting)
  }

  /** The loop over the matched files; each sub-result is copied over the settings. */
  function EvalMatches(w: World, paths: seq<string>, acc: Settings, nesting: nat): Option<Settings>
    decreases nesting, 1, |paths|
  {
    if paths == [] then Some(acc)
    else
      match Parse(w, paths[0], nesting)
      case None => None
      case Some(None) => EvalMatches(w, paths[1..], acc, nesting)
      case Some(Some(sub)) => EvalMatches(w, paths[1..], acc + sub, nesting)
  }

  /** parseSSHDConfig, where `nesting` open files are enough. */
  method ParseNested(w: World, path: string, ghost nesting: nat) returns (result: Option<Settings>)
    requires Parse(w, path, nesting).Some?
    ensures Parse(w, path, nesting) == Some(result)
    decreases nesting
  {
    if path !in w.files {
      return None;
    }
    var lines := Lines(w.files[path]);
    var settings: Settings := map[];
    ghost var deeper := nesting - 1;
    for i := 0 to |lines|
      invariant Eval(w, lines[i..], settings, deeper).Some?
      invariant Eval(w, lines, map[], deeper) == Eval(w, lines[i..], settings, deeper)
    {
      assert lines[i..][0] == lines[i] && lines[i..][1..] == lines[i + 1..];
      match ParseLine(lines[i]) {
        case Skip =>
        case Set(key, val) => settings := settings[key := val];
        case Include(pattern) =>
          var matches := w.glob(pattern);
          ghost var before := settings;
          for j := 0 to |matches|
            invariant EvalMatches(w, matches[j..], settings, deeper).Some?
            invariant EvalMatches(w, matches, before, deeper) == EvalMatches(w, matches[j..], settings, deeper)
          {
            assert matches[j..][0] == matches[j] && matches[j..][1..] == matches[j + 1..];
            var sub := ParseNested(w, matches[j], deeper);
            if sub.Some? {
              settings := settings + sub.value;
            }
          }
          assert matches[|matches|..] == [];
      }
    }
    assert lines[|lines|..] == [];
    result := Some(settings);
  }

  // ---------------------------------------------------------------- inlining

  /** The lines of a file with every Include line replaced by the inlined lines of the files it matches. */
  function Inline(w: World, path: string, nesting: nat): Option<seq<string>>
    decreases nesting, 0
  {
    if path !in w.files then Some([])
    else if nesting == 0 then None
    else InlineLines(w, Lines(w.files[path]), nesting - 1)
  }

  function InlineLine(w: World, line: string, nesting: nat): Option<seq<string>>
    decreases nesting, 2
  {
    match ParseLine(line)
    case Include(p) => InlineMatches(w, w.glob(p), nesting)
    case _ => Some([line])
  }

  function InlineLines(w: World, lines: seq<string>, nesting: nat): Option<seq<string>>
    decreases nesting, 3, |lines|
  {
    if lines == [] then Some([])
    else
      var head := InlineLine(w, lines[0], nesting);
      var tail := InlineLines(w, lines[1..], nesting);
      if head.Some? && tail.Some? then Some(head.value + tail.value) else None
  }

  function InlineMatches(w: World, paths: seq<string>, nesting: nat): Option<seq<string>>
    decreases nesting, 1, |paths|
  {
    if paths == [] then Some([])
    else
      var head := Inline(w, paths[0], nesting);
      var tail := InlineMatches(w, paths[1..], nesting);
      if head.Some? && tail.Some? then Some(head.value + tail.value) else None
  }

  /** The value a text without Include lines gives to `key`: that of the last line setting it. */
  function LastSet(lines: seq<string>, key: string): Option<string> {
    if lines == [] then None
    else
      match LastSet(lines[1..], key)
      case Some(v) => Some(v)
      case None =>
        match ParseLine(lines[0])
        case Set(k, v) => if k == key then Some(v) else None
        case _ => None
  }

  /** `m` holds exactly the last-wins settings of `lines`, laid over `acc`. */
  ghost predicate Settles(m: Settings, acc: Settings, lines: seq<string>) {
    forall k ::
      match LastSet(lines, k)
      case Some(v) => k in m && m[k] == v
      case None => (k in m <==> k in acc) && (k in m ==> m[k] == acc[k])
  }

  ghost predicate NoIncludes(lines: seq<string>) {
    forall i :: 0 <= i < |lines| ==> !ParseLine(lines[i]).Include?
  }

  ghost predicate NoNewlines(lines: seq<string>) {
    forall i :: 0 <= i < |lines| ==> '\n' !in lines[i]
  }

  lemma {:induction false} LastSetConcat(a: seq<string>, b: seq<string>, key: string)
    ensures LastSet(a + b, key) == if LastSet(b, key).Some? then LastSet(b, key) else LastSet(a, key)
  {
    if a == [] {
      assert a + b == b;
    } else {
      assert (a + b)[1..] == a[1..] + b;
      LastSetConcat(a[1..], b, key);
    }
  }

  lemma SettlesConcat(m1: Settings, m2: Settings, acc: Settings, a: seq<string>, b: seq<string>)
    requires Settles(m1, acc, a) && Settles(m2, m1, b)
    ensures Settles(m2, acc, a + b)
  {
    forall k {
      LastSetConcat(a, b, k);
    }
  }

  /** Copying a sub-result over the settings is the same as evaluating its text after them. */
  lemma SettlesCopy(sub: Settings, acc: Settings, lines: seq<string>)
    requires Settles(sub, map[], lines)
    ensures Settles(acc + sub, acc, lines)
  {
  }

  lemma SettlesUnique(m1: Settings, m2: Settings, acc: Settings, lines: seq<string>)
    requires Settles(m1, acc, lines) && Settles(m2, acc, lines)
    ensures m1 == m2
  {
  }

  lemma {:induction false} ParseInlined(w: World, path: string, nesting: nat)
    ensures Parse(w, path, nesting).Some? <==> Inline(w, path, nesting).Some?
    ensures Inline(w, path, nesting).Some? ==>
              var ls := Inline(w, path, nesting).value;
              && NoIncludes(ls) && NoNewlines(ls)
              && match Parse(w, path, nesting).value
                 case None => path !in w.files && ls == []
                 case Some(m) => path in w.files && Settles(m, map[], ls)
    decreases nesting, 0
  {
    if path in w.files && nesting > 0 {
      SplitHasNoSep(w.files[path], '\n');
      assert NoNewlines(Lines(w.files[path])) by {
        forall i | 0 <= i < |Lines(w.files[path])| ensures '\n' !in Lines(w.files[path])[i] {
          assert Lines(w.files[path])[i] in Lines(w.files[path]);
        }
      }
      EvalInlined(w, Lines(w.files[path]), map[], nesting - 1);
    }
  }

  lemma {:induction false} EvalInlined(w: World, lines: seq<string>, acc: Settings, nesting: nat)
    requires NoNewlines(lines)
    ensures Eval(w, lines, acc, nesting).Some? <==> InlineLines(w, lines, nesting).Some?
    ensures InlineLines(w, lines, nesting).Some? ==>
              var ls := InlineLines(w, lines, nesting).value;
              NoIncludes(ls) && NoNewlines(ls) && Settles(Eval(w, lines, acc, nesting).value, acc, ls)
    decreases nesting, 2, |lines|
  {
    if lines != [] {
      var tail := InlineLines(w, lines[1..], nesting);
      match ParseLine(lines[0])
      case Skip =>
        EvalInlined(w, lines[1..], acc, nesting);
        if tail.Some? {
          SettlesConcat(acc, Eval(w, lines, acc, nesting).value, acc, [lines[0]], tail.value);
        }
      case Set(k, v) =>
        EvalInlined(w, lines[1..], acc[k := v], nesting);
        if tail.Some? {
          assert forall key :: LastSet([lines[0]], key) == if key == k then Some(v) else None;
          SettlesConcat(acc[k := v], Eval(w, lines, acc, nesting).value, acc, [lines[0]], tail.value);
        }
      case Include(p) =>
        MatchesInlined(w, w.glob(p), acc, nesting);
        match EvalMatches(w, w.glob(p), acc, nesting)
        case None =>
        case Some(m) =>
          EvalInlined(w, lines[1..], m, nesting);
          if tail.Some? {
            SettlesConcat(m, Eval(w, lines, acc, nesting).value, acc,
                          InlineMatches(w, w.glob(p), nesting).value, tail.value);
          }
    }
  }

  lemma {:induction false} MatchesInlined(w: World, paths: seq<string>, acc: Settings, nesting: nat)
    ensures EvalMatches(w, paths, acc, nesting).Some? <==> InlineMatches(w, paths, nesting).Some?
    ensures InlineMatches(w, paths, nesting).Some? ==>
              var ls := InlineMatches(w, paths, nesting).value;
              NoIncludes(ls) && NoNewlines(ls) && Settles(EvalMatches(w, paths, acc, nesting).value, acc, ls)
    decreases nesting, 1, |paths|
  {
    if paths != [] {
      ParseInlined(w, paths[0], nesting);
      var tail := InlineMatches(w, paths[1..], nesting);
      match Parse(w, paths[0], nesting)
      case None =>
      case Some(None) =>
        MatchesInlined(w, paths[1..], acc, nesting);
        if tail.Some? {
          assert [] + tail.value == tail.value;
        }
      case Some(Some(sub)) =>
        var ls := Inline(w, paths[0], nesting).value;
        SettlesCopy(sub, acc, ls);
        MatchesInlined(w, paths[1..], acc + sub, nesting);
        if tail.Some? {
          SettlesConcat(acc + sub, EvalMatches(w, paths, acc, nesting).value, acc, ls, tail.value);
        }
    }
  }

  lemma {:induction false} InlineFlat(w: World, lines: seq<string>, nesting: nat)
    requires NoIncludes(lines)
    ensures InlineLines(w, lines, nesting) == Some(lines)
    decreases |lines|
  {
    if lines != [] {
      InlineFlat(w, lines[1..], nesting);
      assert [lines[0]] + lines[1..] == lines;
    }
  }

  /**
   A file with includes means what the single text means that is obtained by putting the text of the
   matched files in place of each Include line, unreadable files counting as empty: parsing that text
   as one file gives the same settings.
   */
  lemma ParseIsInlinedText(w: World, path: string, nesting: nat)
    requires path in w.files && Inline(w, path, nesting).Some?
    ensures var text := Join(Inline(w, path, nesting).value, "\n");
            Parse(World(map[path := text], w.glob), path, 1) == Parse(w, path, nesting)
  {
    ParseInlined(w, path, nesting);
    var ls := Inline(w, path, nesting).value;
    var text := Join(ls, "\n");
    var flat := World(map[path := text], w.glob);
    if ls == [] {
      assert Lines(text) == [""];
      assert ParseLine("") == Skip;
      assert NoIncludes([""]) && LastSet([""], "") == None;
    } else {
      assert forall p :: p in ls ==> '\n' !in p;
      SplitJoin(ls, '\n');
      assert Lines(text) == ls;
    }
    InlineFlat(flat, Lines(text), 0);
    ParseInlined(flat, path, 1);
    assert forall k :: LastSet(Lines(text), k) == LastSet(ls, k);
    SettlesUnique(Parse(w, path, nesting).value.value, Parse(flat, path, 1).value.value, map[], ls);
  }

  ghost predicate SetsKey(line: string, key: string) {
    ParseLine(line).Set? && ParseLine(line).key == key
  }

  /** Line `i` sets `key`, and no later line does. */
  ghost predicate LastSetAt(lines: seq<string>, key: string, i: int) {
    0 <= i < |lines| && SetsKey(lines[i], key) && forall j :: i < j < |lines| ==> !SetsKey(lines[j], key)
  }

  lemma {:induction false} LastSetIff(lines: seq<string>, key: string)
    ensures match LastSet(lines, key)
            case Some(v) => exists i :: LastSetAt(lines, key, i) && ParseLine(lines[i]) == Set(key, v)
            case None => forall i :: 0 <= i < |lines| ==> !SetsKey(lines[i], key)
  {
    if lines != [] {
      LastSetIff(lines[1..], key);
      match LastSet(lines[1..], key)
      case Some(v) =>
        var i :| LastSetAt(lines[1..], key, i) && ParseLine(lines[1..][i]) == Set(key, v);
        assert forall j :: i + 1 < j < |lines| ==> lines[j] == lines[1..][j - 1];
        assert LastSetAt(lines, key, i + 1);
      case None =>
        assert forall j :: 0 < j < |lines| ==> lines[j] == lines[1..][j - 1];
        if SetsKey(lines[0], key) {
          assert LastSetAt(lines, key, 0);
        }
    }
  }

  /** Each key has the value of the last line that sets it in the inlined text, and no other key is present. */
  lemma LastLineWins(w: World, path: string, nesting: nat, key: string)
    requires path in w.files && Parse(w, path, nesting).Some? && Inline(w, path, nesting).Some?
    ensures var m, text := Parse(w, path, nesting).value.value, Inline(w, path, nesting).value;
            && (key in m <==> exists i :: LastSetAt(text, key, i))
            && forall i :: LastSetAt(text, key, i) && key in m ==> ParseLine(text[i]) == Set(key, m[key])
  {
    ParseInlined(w, path, nesting);
    LastSetIff(Inline(w, path, nesting).value, key);
  }

  /** The inlined lines of a file, none if it cannot be read. */
  function TextOf(w: World, path: string, nesting: nat): seq<string> {
    match Inline(w, path, nesting)
    case Some(lines) => lines
    case None => []
  }

  lemma {:induction false} MatchesText(w: World, paths: seq<string>, nesting: nat)
    requires InlineMatches(w, paths, nesting).Some?
    ensures forall p :: p in paths ==> Inline(w, p, nesting).Some?
    ensures InlineMatches(w, paths, nesting).value == FlatMap((p: string) => TextOf(w, p, nesting), paths)
    decreases |paths|
  {
    if paths != [] {
      MatchesText(w, paths[1..], nesting);
      assert paths == [paths[0]] + paths[1..];
      var f := (p: string) => TextOf(w, p, nesting);
      FlatMapConcat(f, [paths[0]], paths[1..]);
      FlatMapLast(f, [], paths[0]);
      assert [] + [paths[0]] == [paths[0]];
    }
  }

  lemma {:induction false} PartsInlined(w: World, a: seq<string>, b: seq<string>, nesting: nat)
    requires InlineLines(w, a + b, nesting).Some?
    ensures InlineLines(w, a, nesting).Some? && InlineLines(w, b, nesting).Some?
    decreases |a|
  {
    if a == [] {
      assert a + b == b;
    } else {
      assert (a + b)[1..] == a[1..] + b;
      PartsInlined(w, a[1..], b, nesting);
    }
  }

  /**
   The inlined text puts, in place of an Include line, the texts of all matched files in glob order, an
   unreadable file having none; every other line stays as it is.
   */
  lemma InlineReplaces(w: World, path: string, pre: seq<string>, line: string, post: seq<string>, nesting: nat)
    requires path in w.files && Lines(w.files[path]) == pre + [line] + post && Inline(w, path, nesting + 1).Some?
    ensures InlineLines(w, pre, nesting).Some? && InlineLines(w, post, nesting).Some?
    ensures Inline(w, path, nesting + 1).value
            == InlineLines(w, pre, nesting).value
               + (match ParseLine(line)
                  case Include(p) => FlatMap((m: string) => TextOf(w, m, nesting), w.glob(p))
                  case _ => [line])
               + InlineLines(w, post, nesting).value
    ensures forall m :: m !in w.files ==> TextOf(w, m, nesting) == []
  {
    PartsInlined(w, pre + [line], post, nesting);
    PartsInlined(w, pre, [line], nesting);
    InlineLinesConcat(w, pre + [line], post, nesting);
    InlineLinesConcat(w, pre, [line], nesting);
    assert [line][1..] == [];
    if ParseLine(line).Include? {
      MatchesText(w, w.glob(ParseLine(line).pattern), nesting);
    }
  }

  lemma {:induction false} InlineLinesConcat(w: World, a: seq<string>, b: seq<string>, nesting: nat)
    requires InlineLines(w, a, nesting).Some? && InlineLines(w, b, nesting).Some?
    ensures InlineLines(w, a + b, nesting) == Some(InlineLines(w, a, nesting).value + InlineLines(w, b, nesting).value)
    decreases |a|
  {
    if a == [] {
      assert a + b == b;
      assert [] + InlineLines(w, b, nesting).value == InlineLines(w, b, nesting).value;
    } else {
      assert (a + b)[1..] == a[1..] + b;
      InlineLinesConcat(w, a[1..], b, nesting);
      var head := InlineLine(w, a[0], nesting);
      var ta, tb := InlineLines(w, a[1..], nesting).value, InlineLines(w, b, nesting).value;
      assert head.value + (ta + tb) == (head.value + ta) + tb;
    }
  }

  /**
   The comment in the source says that included files have priority.  They do for a key exactly when no
   line after the Include sets that key to something else.
   */
  lemma IncludePriorityIff(w: World, pre: seq<string>, line: string, post: seq<string>, nesting: nat, key: string)
    requires ParseLine(line).Include? && NoNewlines(pre + [line] + post)
    requires InlineLines(w, pre, nesting).Some? && InlineLines(w, [line], nesting).Some?
    requires InlineLines(w, post, nesting).Some?
    requires LastSet(InlineLines(w, [line], nesting).value, key).Some?
    ensures var included := LastSet(InlineLines(w, [line], nesting).value, key);
            var later := LastSet(InlineLines(w, post, nesting).value, key);
            var all := Eval(w, pre + [line] + post, map[], nesting);
            && all.Some? && key in all.value
            && (all.value[key] == included.value <==> later == None || later == included)
  {
    InlineLinesConcat(w, pre, [line], nesting);
    InlineLinesConcat(w, pre + [line], post, nesting);
    EvalInlined(w, pre + [line] + post, map[], nesting);
    LastSetConcat(InlineLines(w, pre, nesting).value, InlineLines(w, [line], nesting).value, key);
    LastSetConcat(InlineLines(w, pre + [line], nesting).value, InlineLines(w, post, nesting).value, key);
  }

  // ---------------------------------------------------------------- termination

  /** The readable file `to` is included directly by `from`. */
  ghost predicate Includes(w: World, from: string, to: string) {
    && from in w.files && to in w.files
    && exists i :: 0 <= i < |Lines(w.files[from])| && IncludesAt(w, Lines(w.files[from])[i], to)
  }

  ghost predicate IncludesAt(w: World, line: string, to: string) {
    ParseLine(line).Include? && to in w.glob(ParseLine(line).pattern)
  }

  /** A chain of includes of readable files. */
  ghost predicate Chain(w: World, ps: seq<string>) {
    && ps != [] && (forall i :: 0 <= i < |ps| ==> ps[i] in w.files)
    && forall i :: 0 < i < |ps| ==> Includes(w, ps[i - 1], ps[i])
  }

  /** A chain of includes that comes back to the file at position `i`. */
  ghost predicate Loop(w: World, ps: seq<string>, i: nat) {
    Chain(w, ps) && i < |ps| - 1 && ps[i] == ps[|ps| - 1]
  }

  ghost predicate HasLoop(w: World, path: string) {
    exists ps, i :: Loop(w, ps, i) && ps[0] == path
  }

  lemma {:induction false} NestingCovers(w: World, ps: seq<string>, nesting: nat)
    requires Chain(w, ps) && Parse(w, ps[0], nesting).Some?
    ensures nesting >= |ps|
    decreases |ps|
  {
    if |ps| > 1 {
      assert Includes(w, ps[0], ps[1]);
      var lines := Lines(w.files[ps[0]]);
      var i :| 0 <= i < |lines| && IncludesAt(w, lines[i], ps[1]);
      EvalNeeds(w, lines, map[], nesting - 1, i, ps[1]);
      assert Chain(w, ps[1..]);
      NestingCovers(w, ps[1..], nesting - 1);
    }
  }

  lemma {:induction false} EvalNeeds(w: World, lines: seq<string>, acc: Settings, nesting: nat, i: nat, to: string)
    requires Eval(w, lines, acc, nesting).Some? && i < |lines| && IncludesAt(w, lines[i], to)
    ensures Parse(w, to, nesting).Some?
    decreases |lines|
  {
    match ParseLine(lines[0])
    case Skip => EvalNeeds(w, lines[1..], acc, nesting, i - 1, to);
    case Set(k, v) => EvalNeeds(w, lines[1..], acc[k := v], nesting, i - 1, to);
    case Include(p) =>
      if i == 0 {
        MatchesNeed(w, w.glob(p), acc, nesting, to);
      } else {
        EvalNeeds(w, lines[1..], EvalMatches(w, w.glob(p), acc, nesting).value, nesting, i - 1, to);
      }
  }

  lemma {:induction false} MatchesNeed(w: World, paths: seq<string>, acc: Settings, nesting: nat, to: string)
    requires EvalMatches(w, paths, acc, nesting).Some? && to in paths
    ensures Parse(w, to, nesting).Some?
    decreases |paths|
  {
    if paths[0] != to {
      match Parse(w, paths[0], nesting).value
      case None => MatchesNeed(w, paths[1..], acc, nesting, to);
      case Some(sub) => MatchesNeed(w, paths[1..], acc + sub, nesting, to);
    }
  }

  /** A loop can be followed any number of times. */
  lemma {:induction false} Pump(w: World, ps: seq<string>, i: nat, n: nat) returns (qs: seq<string>)
    requires Loop(w, ps, i)
    ensures Loop(w, qs, i) && qs[0] == ps[0] && |qs| >= n
    decreases n - |ps|
  {
    if |ps| >= n {
      qs := ps;
    } else {
      var longer := ps + ps[i + 1..];
      forall k | 0 < k < |longer| ensures Includes(w, longer[k - 1], longer[k]) {
        if k >= |ps| {
          assert longer[k] == ps[k - |ps| + i + 1] && longer[k - 1] == ps[k - |ps| + i];
        }
      }
      qs := Pump(w, longer, i, n);
    }
  }

  lemma {:induction false} EvalEnds(w: World, lines: seq<string>, acc: Settings, nesting: nat)
    requires forall i, to :: 0 <= i < |lines| && IncludesAt(w, lines[i], to) ==> Parse(w, to, nesting).Some?
    ensures Eval(w, lines, acc, nesting).Some?
    decreases |lines|
  {
    if lines != [] {
      forall i, to | 0 <= i < |lines[1..]| && IncludesAt(w, lines[1..][i], to) ensures Parse(w, to, nesting).Some? {
        assert IncludesAt(w, lines[i + 1], to);
      }
      match ParseLine(lines[0])
      case Skip => EvalEnds(w, lines[1..], acc, nesting);
      case Set(k, v) => EvalEnds(w, lines[1..], acc[k := v], nesting);
      case Include(p) =>
        assert forall to :: to in w.glob(p) ==> IncludesAt(w, lines[0], to);
        MatchesEnd(w, w.glob(p), acc, nesting);
        EvalEnds(w, lines[1..], EvalMatches(w, w.glob(p), acc, nesting).value, nesting);
    }
  }

  lemma {:induction false} MatchesEnd(w: World, paths: seq<string>, acc: Settings, nesting: nat)
    requires forall to :: to in paths ==> Parse(w, to, nesting).Some?
    ensures EvalMatches(w, paths, acc, nesting).Some?
    decreases |paths|
  {
    if paths != [] {
      match Parse(w, paths[0], nesting).value
      case None => MatchesEnd(w, paths[1..], acc, nesting);
      case Some(sub) => MatchesEnd(w, paths[1..], acc + sub, nesting);
    }
  }

  lemma {:induction false} ChainSize(w: World, ps: seq<string>)
    requires Chain(w, ps) && !HasLoop(w, ps[0])
    ensures |ps| <= |w.files|
  {
    forall i, j | 0 <= i < j < |ps| ensures ps[i] != ps[j] {
      if ps[i] == ps[j] {
        assert Loop(w, ps[..j + 1], i);
      }
    }
    DistinctSize(ps, w.files.Keys);
  }

  lemma {:induction false} DistinctSize(ps: seq<string>, all: set<string>)
    requires (forall i, j :: 0 <= i < j < |ps| ==> ps[i] != ps[j]) && forall p :: p in ps ==> p in all
    ensures |ps| <= |all|
  {
    if ps != [] {
      assert ps[0] in all;
      assert forall p :: p in ps[1..] ==> p in ps && p != ps[0];
      DistinctSize(ps[1..], all - {ps[0]});
    }
  }

  /** Without a loop, the nesting left over after a chain is enough for its last file. */
  lemma {:induction false} ChainEnds(w: World, ps: seq<string>)
    requires Chain(w, ps) && !HasLoop(w, ps[0])
    ensures |ps| <= |w.files| && Parse(w, ps[|ps| - 1], |w.files| + 1 - |ps|).Some?
    decreases |w.files| - |ps|
  {
    ChainSize(w, ps);
    var file := ps[|ps| - 1];
    var lines, nesting := Lines(w.files[file]), |w.files| - |ps|;
    forall i, to | 0 <= i < |lines| && IncludesAt(w, lines[i], to) ensures Parse(w, to, nesting).Some? {
      if to in w.files {
        assert Includes(w, file, to);
        assert Chain(w, ps + [to]);
        ChainSize(w, ps + [to]);
        ChainEnds(w, ps + [to]);
      }
    }
    EvalEnds(w, lines, map[], nesting);
  }

  /** The parser returns exactly when no chain of includes from `path` runs into a loop. */
  lemma ParseEndsIff(w: World, path: string)
    ensures (exists nesting: nat :: Parse(w, path, nesting).Some?) <==> !HasLoop(w, path)
    ensures !HasLoop(w, path) ==> Parse(w, path, |w.files|).Some?
  {
    if HasLoop(w, path) {
      var ps, i :| Loop(w, ps, i) && ps[0] == path;
      forall nesting: nat ensures !Parse(w, path, nesting).Some? {
        if Parse(w, path, nesting).Some? {
          var qs := Pump(w, ps, i, nesting + 1);
          NestingCovers(w, qs, nesting);
        }
      }
    } else {
      if path in w.files {
        assert Chain(w, [path]);
        ChainEnds(w, [path]);
      }
      assert Parse(w, path, |w.files|).Some?;
    }
  }

  /** More nesting never changes the result. */
  lemma {:induction false} NestingIrrelevant(w: World, path: string, n: nat, m: nat)
    requires Parse(w, path, n).Some? && n <= m
    ensures Parse(w, path, m) == Parse(w, path, n)
    decreases n, 0
  {
    if path in w.files {
      EvalIrrelevant(w, Lines(w.files[path]), map[], n - 1, m - 1);
    }
  }

  lemma {:induction false} EvalIrrelevant(w: World, lines: seq<string>, acc: Settings, n: nat, m: nat)
    requires Eval(w, lines, acc, n).Some? && n <= m
    ensures Eval(w, lines, acc, m) == Eval(w, lines, acc, n)
    decreases n, 2, |lines|
  {
    if lines != [] {
      match ParseLine(lines[0])
      case Skip => EvalIrrelevant(w, lines[1..], acc, n, m);
      case Set(k, v) => EvalIrrelevant(w, lines[1..], acc[k := v], n, m);
      case Include(p) =>
        MatchesIrrelevant(w, w.glob(p), acc, n, m);
        EvalIrrelevant(w, lines[1..], EvalMatches(w, w.glob(p), acc, n).value, n, m);
    }
  }

  lemma {:induction false} MatchesIrrelevant(w: World, paths: seq<string>, acc: Settings, n: nat, m: nat)
    requires EvalMatches(w, paths, acc, n).Some? && n <= m
    ensures EvalMatches(w, paths, acc, m) == EvalMatches(w, paths, acc, n)
    decreases n, 1, |paths|
  {
    if paths != [] {
      NestingIrrelevant(w, paths[0], n, m);
      match Parse(w, paths[0], n).value
      case None => MatchesIrrelevant(w, paths[1..], acc, n, m);
      case Some(sub) => MatchesIrrelevant(w, paths[1..], acc + sub, n, m);
    }
  }

  /** parseSSHDConfig, called where it returns at all. */
  method ParseSSHDConfig(w: World, path: string) returns (result: Option<Settings>)
    requires !HasLoop(w, path)
    ensures forall nesting: nat :: Parse(w, path, nesting).Some? ==> Parse(w, path, nesting).value == result
    ensures Parse(w, path, |w.files|) == Some(result)
  {
    ParseEndsIff(w, path);
    result := ParseNested(w, path, |w.files|);
    forall nesting: nat | Parse(w, path, nesting).Some? ensures Parse(w, path, nesting).value == result {
      if nesting <= |w.files| {
        NestingIrrelevant(w, path, nesting, |w.files|);
      } else {
        NestingIrrelevant(w, path, |w.files|, nesting);
      }
    }
  }
}
