/** The resource registry and its dispatch (tools/resources.go:42-51, 53-184 and 207-221). */
module Resources {
  import opened Wrappers
  import opened Text

  /** A registry entry: its path, with a parameter in braces for a template, and the tool that gates it. */
  datatype Entry = Entry(path: string, tool: string)

  /** The text before the parameter, or nothing for a static path. */
  function Prefix(e: Entry): string {
    match Cut(e.path, '{')
    case Some((before, _)) => before
    case None => ""
  }

  /** What is left of a path that the entry matches. */
  function Match(e: Entry, path: string): Option<string> {
    var prefix := Prefix(e);
    if prefix != "" then (if HasPrefix(path, prefix) then Some(path[|prefix|..]) else None)
    else if path == e.path then Some("")
    else None
  }

  /** findResource: the first entry that matches. */
  function Find(registry: seq<Entry>, path: string): Option<(Entry, string)> {
    if registry == [] then None
    else
      match Match(registry[0], path)
      case Some(rest) => Some((registry[0], rest))
      case None => Find(registry[1..], path)
  }

  /** No path is matched by two entries. */
  ghost predicate Unambiguous(registry: seq<Entry>) {
    forall i, j, path :: 0 <= i < j < |registry| && Match(registry[i], path).Some? ==> Match(registry[j], path).None?
  }

  /** Entry `i` matches, and no earlier one does. */
  ghost predicate FirstMatch(registry: seq<Entry>, path: string, i: int) {
    0 <= i < |registry| && Match(registry[i], path).Some? && forall j :: 0 <= j < i ==> Match(registry[j], path).None?
  }

  /** What is found is the first entry that matches; nothing is found only if nothing matches. */
  ghost predicate FoundFirst(registry: seq<Entry>, path: string, found: Option<(Entry, string)>) {
    match found
    case Some((e, rest)) =>
      exists i :: FirstMatch(registry, path, i) && registry[i] == e && Match(e, path) == Some(rest)
    case None => forall e :: e in registry ==> Match(e, path).None?
  }

  lemma {:induction false} FindMatches(registry: seq<Entry>, path: string)
    ensures FoundFirst(registry, path, Find(registry, path))
  {
    if registry != [] {
      FindMatches(registry[1..], path);
      assert registry == [registry[0]] + registry[1..];
      if Match(registry[0], path).Some? {
        assert FirstMatch(registry, path, 0);
      } else if Find(registry, path).Some? {
        var (e, rest) := Find(registry, path).value;
        var i :| FirstMatch(registry[1..], path, i) && registry[1..][i] == e;
        assert FirstMatch(registry, path, i + 1);
      }
    }
  }

  method FindResource(registry: seq<Entry>, path: string) returns (found: Option<(Entry, string)>)
    ensures found == Find(registry, path)
  {
    for i := 0 to |registry|
      invariant Find(registry, path) == Find(registry[i..], path)
    {
      var prefix := Prefix(registry[i]);
      if prefix != "" {
        if HasPrefix(path, prefix) {
          return Some((registry[i], path[|prefix|..]));
        }
      } else if path == registry[i].path {
        return Some((registry[i], ""));
      }
    }
    found := None;
  }

  /** In an unambiguous registry the entry that matches is the one found, wherever it stands. */
  lemma FindIff(registry: seq<Entry>, path: string, e: Entry, rest: string)
    requires Unambiguous(registry)
    ensures Find(registry, path) == Some((e, rest)) <==> e in registry && Match(e, path) == Some(rest)
  {
    FindMatches(registry, path);
    if e in registry && Match(e, path) == Some(rest) {
      var (found, _) := Find(registry, path).value;
      var i :| 0 <= i < |registry| && registry[i] == e;
      var j :| 0 <= j < |registry| && registry[j] == found;
      assert i == j;
    }
  }

  /** The order of an unambiguous registry does not matter. */
  lemma OrderIrrelevant(registry: seq<Entry>, other: seq<Entry>, path: string)
    requires Unambiguous(registry) && forall e :: e in registry <==> e in other
    ensures Find(other, path) == Find(registry, path)
  {
    FindMatches(registry, path);
    FindMatches(other, path);
    match Find(other, path)
    case Some((e, rest)) => FindIff(registry, path, e, rest);
    case None =>
  }

  /** The path that asks an entry for `rest`; a static entry has nothing to ask for. */
  function PathFor(e: Entry, rest: string): string {
    if Prefix(e) == "" then e.path else Prefix(e) + rest
  }

  /**
   In an unambiguous registry every static path finds its own entry, and every text behind a template's
   prefix, the empty one included, finds the template with exactly that text; nothing else is found.
   */
  lemma PathFinds(registry: seq<Entry>, path: string, e: Entry, rest: string)
    requires Unambiguous(registry)
    ensures Find(registry, path) == Some((e, rest))
            <==> e in registry && path == PathFor(e, rest) && (Prefix(e) == "" ==> rest == "")
  {
    FindIff(registry, path, e, rest);
    if Prefix(e) != "" && path == PathFor(e, rest) {
      assert path[..|Prefix(e)|] == Prefix(e) && path[|Prefix(e)|..] == rest;
    }
    if Match(e, path) == Some(rest) && Prefix(e) != "" {
      assert path == Prefix(e) + rest;
    }
  }

  /** No path can be matched by both entries. */
  predicate Apart(a: Entry, b: Entry) {
    if Prefix(a) == "" && Prefix(b) == "" then a.path != b.path
    else if Prefix(a) == "" then !HasPrefix(a.path, Prefix(b))
    else if Prefix(b) == "" then !HasPrefix(b.path, Prefix(a))
    else !HasPrefix(Prefix(a), Prefix(b)) && !HasPrefix(Prefix(b), Prefix(a))
  }

  lemma PrefixesNest(path: string, p: string, q: string)
    requires HasPrefix(path, p) && HasPrefix(path, q)
    ensures HasPrefix(p, q) || HasPrefix(q, p)
  {
    if |p| <= |q| {
      assert q[..|p|] == path[..|q|][..|p|] == path[..|p|];
    } else {
      assert p[..|q|] == path[..|p|][..|q|] == path[..|q|];
    }
  }

  lemma ApartUnambiguous(registry: seq<Entry>)
    requires forall i, j :: 0 <= i < j < |registry| ==> Apart(registry[i], registry[j])
    ensures Unambiguous(registry)
  {
    forall i, j, path | 0 <= i < j < |registry| && Match(registry[i], path).Some?
      ensures Match(registry[j], path).None?
    {
      var p, q := Prefix(registry[i]), Prefix(registry[j]);
      if p != "" && q != "" && HasPrefix(path, q) {
        PrefixesNest(path, p, q);
      }
    }
  }

  // ---------------------------------------------------------------- the registry

  const REGISTRY := [
    Entry("/info", "get_system_info"),
    Entry("/cpu", "get_cpu_info"),
    Entry("/memory", "get_memory_info"),
    Entry("/disk", "get_disk_info"),
    Entry("/network", "get_network_info"),
    Entry("/load", "get_load_average"),
    Entry("/temperature", "get_cpu_temperature"),
    Entry("/gpu", "get_gpu_info"),
    Entry("/logged_in_users", "get_logged_in_users"),
    Entry("/listening_ports", "get_network_connections"),
    Entry("/failed_logins", "get_failed_logins"),
    Entry("/block_devices", "get_block_devices"),
    Entry("/raid", "get_raid_status"),
    Entry("/time_sync", "get_time_sync_status"),
    Entry("/selinux_apparmor", "get_selinux_apparmor_status"),
    Entry("/logrotate", "get_logrotate_status"),
    Entry("/health", "get_system_health_check"),
    Entry("/disk/{mount_point}", "get_disk_info"),
    Entry("/service/{name}", "get_service_status") ]

  const STATIC := 17

  predicate NameChar(c: char) {
    'a' <= c <= 'z' || c == '_'
  }

  /** Static paths are a slash and a name. */
  lemma StaticPaths(i: nat)
    requires i < STATIC
    ensures |REGISTRY[i].path| > 3 && REGISTRY[i].path[0] == '/'
    ensures forall k :: 0 < k < |REGISTRY[i].path| ==> NameChar(REGISTRY[i].path[k])
  {
  }

  lemma StaticPrefix(i: nat)
    requires i < STATIC
    ensures Prefix(REGISTRY[i]) == ""
  {
    StaticPaths(i);
    CutNone(REGISTRY[i].path, '{');
  }

  lemma PrefixOf(e: Entry, before: string, after: string)
    requires e.path == before + "{" + after && forall k :: 0 <= k < |before| ==> before[k] != '{'
    ensures Prefix(e) == before
  {
    forall c | c in before ensures c != '{' {
    }
    CutAt(before, '{', after);
  }

  lemma DiskPrefix()
    ensures Prefix(REGISTRY[17]) == "/disk/"
  {
    PrefixOf(REGISTRY[17], "/disk/", "mount_point}");
  }

  lemma ServicePrefix()
    ensures Prefix(REGISTRY[18]) == "/service/"
  {
    PrefixOf(REGISTRY[18], "/service/", "name}");
  }

  /** Two characters and the length tell the static paths apart. */
  function Fingerprint(path: string): (int, char, char)
    requires |path| > 3
  {
    (|path|, path[1], path[2])
  }

  lemma StaticDistinct(i: nat, j: nat)
    requires i < j < STATIC
    ensures REGISTRY[i].path != REGISTRY[j].path
  {
    StaticPaths(i);
    StaticPaths(j);
    assert Fingerprint(REGISTRY[i].path) != Fingerprint(REGISTRY[j].path);
  }

  /** A path below a template has a second slash, which no static path has. */
  lemma StaticNotBelow(i: nat, prefix: string)
    requires i < STATIC && |prefix| > 1 && prefix[|prefix| - 1] == '/'
    ensures !HasPrefix(REGISTRY[i].path, prefix)
  {
    StaticPaths(i);
    PrefixAt(REGISTRY[i].path, prefix, |prefix| - 1);
  }

  lemma StaticsApart(i: nat, j: nat)
    requires i < j < STATIC
    ensures Apart(REGISTRY[i], REGISTRY[j])
  {
    StaticPrefix(i);
    StaticPrefix(j);
    StaticDistinct(i, j);
  }

  lemma StaticFromTemplate(i: nat, e: Entry, prefix: string)
    requires i < STATIC && Prefix(e) == prefix && |prefix| > 1 && prefix[|prefix| - 1] == '/'
    ensures Apart(REGISTRY[i], e)
  {
    StaticPrefix(i);
    StaticNotBelow(i, prefix);
  }

  lemma TemplatesApart(a: Entry, b: Entry)
    requires Prefix(a) == "/disk/" && Prefix(b) == "/service/"
    ensures Apart(a, b)
  {
    PrefixAt("/disk/", "/service/", 1);
    PrefixAt("/service/", "/disk/", 1);
  }

  lemma EntriesApart(i: nat, j: nat)
    requires i < j < |REGISTRY|
    ensures Apart(REGISTRY[i], REGISTRY[j])
  {
    if j < STATIC {
      StaticsApart(i, j);
    } else {
      BelowTemplate(i, j);
    }
  }

  lemma BelowTemplate(i: nat, j: nat)
    requires i < j < |REGISTRY| && STATIC <= j
    ensures Apart(REGISTRY[i], REGISTRY[j])
  {
    DiskPrefix();
    ServicePrefix();
    var disk, service := REGISTRY[17], REGISTRY[18];
    if i == 17 {
      TemplatesApart(disk, service);
    } else if j == 17 {
      StaticFromTemplate(i, disk, "/disk/");
    } else {
      StaticFromTemplate(i, service, "/service/");
    }
  }

  /** At most one entry of the registry matches any path. */
  lemma RegistryUnambiguous()
    ensures Unambiguous(REGISTRY)
  {
    forall i, j | 0 <= i < j < |REGISTRY| ensures Apart(REGISTRY[i], REGISTRY[j]) {
      EntriesApart(i, j);
    }
    ApartUnambiguous(REGISTRY);
  }
}
