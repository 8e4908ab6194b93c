/** Concrete inputs on the failing side of the exact conditions. */
module Examples {
  import opened MapOrder
  import opened Wrappers
  import opened Text
  import PT = ProcessTree
  import PL = ProcessListing
  import PP = ProcessPreorder
  import SshdConfig
  import ManPage

  // ---------------------------------------------------------------- process tree

  const SELF_PARENT: PT.Table := map[1 := PT.Proc(0, "init"), 7 := PT.Proc(7, "odd")]

  /** A process that is its own parent: no full listing ends, while its own subtree listing does. */
  lemma SelfParentListing(order1: seq<Pid>, order2: seq<Pid>)
    requires Enumerates(order1, SELF_PARENT.Keys) && Enumerates(order2, SELF_PARENT.Keys)
    ensures !exists f :: PT.Flattens(SELF_PARENT, order1, order2, 0, f)
    ensures exists f :: PT.Flattens(SELF_PARENT, order1, order2, 7, f)
  {
    assert 7 in SELF_PARENT && SELF_PARENT[7].ppid == 7;
    assert PT.HasSelfParent(SELF_PARENT);
    PT.FlattenEndsIff(SELF_PARENT, order1, order2, 0);
    PT.FlattenEndsIff(SELF_PARENT, order1, order2, 7);
  }

  const CYCLE: PT.Table := map[1 := PT.Proc(2, "a"), 2 := PT.Proc(1, "b")]

  /** Two processes that are each other's parent: both subtrees list both, so neither is a block of the other. */
  lemma CycleIsNoBlock(order1: seq<Pid>, order2: seq<Pid>, f: PT.Forest, g: PT.Forest)
    requires Enumerates(order1, CYCLE.Keys) && Enumerates(order2, CYCLE.Keys)
    requires PT.Flattens(CYCLE, order1, order2, 1, f) && PT.Flattens(CYCLE, order1, order2, 2, g)
    ensures PL.Times(PT.Flat(CYCLE, f, 0), 2) == 1 && PL.Times(PT.Flat(CYCLE, g, 0), 1) == 1
    ensures !exists pre, e, post :: PP.IsBlock(PT.Flat(CYCLE, g, 0), PT.Flat(CYCLE, f, 0), pre, e, post)
  {
    assert PT.Up(CYCLE, 2, 1) == PT.Up(CYCLE, 1, 0) == Some(1);
    assert PT.Up(CYCLE, 1, 1) == PT.Up(CYCLE, 2, 0) == Some(2);
    PL.SubtreeListing(CYCLE, order1, order2, 1, f, 2);
    PL.SubtreeListing(CYCLE, order1, order2, 2, g, 1);
    PP.SubtreeIsBlockIff(CYCLE, order1, order2, 1, f, 2, g);
  }

  const TWICE: PT.Table := map[0 := PT.Proc(0, "idle"), 1 := PT.Proc(0, "init")]

  /** Pid 0 in the table: its child is listed under it and as a root of its own. */
  lemma ChildOfZeroTwice(order1: seq<Pid>, order2: seq<Pid>, f: PT.Forest)
    requires Enumerates(order1, TWICE.Keys) && Enumerates(order2, TWICE.Keys)
    requires PT.Flattens(TWICE, order1, order2, 0, f)
    ensures PL.Times(PT.Flat(TWICE, f, 0), 1) == 2
  {
    assert PT.Up(TWICE, 1, 1) == PT.Up(TWICE, 0, 0) == Some(0);
    PL.FullListing(TWICE, order1, order2, f, 1);
  }

  // ---------------------------------------------------------------- sshd_config

  /** `files`, with every Include pattern matching the file of that name. */
  function Named(files: map<string, string>): SshdConfig.World {
    SshdConfig.World(files, pattern => [pattern])
  }

  lemma IncludeLine(name: string)
    requires SshdConfig.Trimmed(name)
    ensures SshdConfig.ParseLine("Include " + name) == SshdConfig.Include(name)
  {
    assert "" + "Include" + " " + "" + name + "" == "Include " + name;
    SshdConfig.DirectiveLine("Include " + name, "", "Include", "include", "", name, "");
  }

  /** A file whose first line includes the file itself is never parsed to the end. */
  lemma SelfIncluding(w: SshdConfig.World, path: string, line: string, nesting: nat)
    requires path in w.files && SshdConfig.Lines(w.files[path])[0] == line
    requires SshdConfig.ParseLine(line) == SshdConfig.Include(path) && w.glob(path) == [path]
    ensures SshdConfig.Parse(w, path, nesting).None?
  {
    assert SshdConfig.IncludesAt(w, line, path);
    assert SshdConfig.Includes(w, path, path);
    assert SshdConfig.Loop(w, [path, path], 0) && [path, path][0] == path;
    SshdConfig.ParseEndsIff(w, path);
  }

  lemma SelfIncludeLoops(path: string, nesting: nat)
    requires SshdConfig.Trimmed(path) && '\n' !in path
    ensures SshdConfig.Parse(Named(map[path := "Include " + path]), path, nesting).None?
  {
    IncludeLine(path);
    SplitNone("Include " + path, '\n');
    SelfIncluding(Named(map[path := "Include " + path]), path, "Include " + path, nesting);
  }

  /** An Include of a one-line file, and a line behind it that sets the same key. */
  lemma Overridden(w: SshdConfig.World, line: string, path: string, first: string, later: string,
                   key: string, v1: string, v2: string)
    requires SshdConfig.ParseLine(line) == SshdConfig.Include(path) && w.glob(path) == [path]
    requires path in w.files && SshdConfig.Lines(w.files[path]) == [first]
    requires SshdConfig.ParseLine(first) == SshdConfig.Set(key, v1)
    requires SshdConfig.ParseLine(later) == SshdConfig.Set(key, v2)
    ensures SshdConfig.Eval(w, [line, later], map[], 1) == Some(map[key := v2])
  {
    var m1, m2 := map[key := v1], map[key := v2];
    assert [first][1..] == [] && [path][1..] == [] && [line, later][1..] == [later] && [later][1..] == [];
    assert SshdConfig.Eval(w, [first], map[], 0) == SshdConfig.Eval(w, [], m1, 0);
    assert SshdConfig.Parse(w, path, 1) == Some(Some(m1));
    assert map[] + m1 == m1 && m1[key := v2] == m2;
    assert SshdConfig.EvalMatches(w, [path], map[], 1) == SshdConfig.EvalMatches(w, [], m1, 1);
    assert SshdConfig.Eval(w, [later], m1, 1) == SshdConfig.Eval(w, [], m2, 1);
  }

  /** A port set behind the Include overrides the included one, whatever the comment in the source says. */
  lemma LaterLineWins(included: string, later: string)
    requires SshdConfig.Trimmed(included) && SshdConfig.Trimmed(later) && '\n' !in included
    ensures SshdConfig.Eval(Named(map["d" := "Port " + included]), ["Include d", "Port " + later], map[], 1)
            == Some(map["port" := later])
  {
    IncludeLine("d");
    assert "Include " + "d" == "Include d";
    PortLine(included);
    PortLine(later);
    SplitNone("Port " + included, '\n');
    Overridden(Named(map["d" := "Port " + included]), "Include d", "d", "Port " + included, "Port " + later,
               "port", included, later);
  }

  lemma PortLine(value: string)
    requires SshdConfig.Trimmed(value)
    ensures SshdConfig.ParseLine("Port " + value) == SshdConfig.Set("port", value)
  {
    assert "" + "Port" + " " + "" + value + "" == "Port " + value;
    SshdConfig.DirectiveLine("Port " + value, "", "Port", "port", "", value, "");
  }

  // ---------------------------------------------------------------- man pages

  /** The two bytes of an accented e, overstruck as one character, leave three. */
  lemma BoldAccentBreaks()
    ensures var m := [0xc3 as char, 0xa9 as char];
            var raw := m + [ManPage.BACKSPACE] + m;
            ManPage.Clean(raw, |raw|) == Some([m[0]] + m)
  {
    var m := [0xc3 as char, 0xa9 as char];
    ManPage.BoldSurvivesIff(m);
    assert m[..1] == [m[0]];
  }

  /** More backspaces than characters: the code panics. */
  lemma TwoBackspacesPanic(c: char)
    requires c != ManPage.BACKSPACE
    ensures ManPage.Clean([c, ManPage.BACKSPACE, ManPage.BACKSPACE], 3) == None
  {
    var raw := [c, ManPage.BACKSPACE, ManPage.BACKSPACE];
    assert ManPage.Clean(raw, 0) == Some("") && "" + [raw[0]] == [c];
    assert ManPage.Clean(raw, 1) == Some([c]);
    assert ManPage.Clean(raw, 2) == Some([c][..0]);
  }
}
