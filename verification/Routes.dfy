/** The `ip route show` parser (tools/network.go:507-588), against a printer. */
module Routes {
  import opened Wrappers
  import opened Sequences
  import opened Text
  import opened Numbers

  datatype RouteEntry = RouteEntry(
    destination: string, gateway: string, iface: string, proto: string,
    scope: string, kind: string, metric: int, mtu: int)

  const KINDS := [ "kernel", "connected", "static", "broadcast", "local", "multicast",
                   "unreachable", "prohibit", "blackhole" ]

  datatype Keyword = ViaKey | DevKey | ProtoKey | ScopeKey | MetricKey | MtuKey

  function Spelling(k: Keyword): string {
    match k
    case ViaKey => "via"
    case DevKey => "dev"
    case ProtoKey => "proto"
    case ScopeKey => "scope"
    case MetricKey => "metric"
    case MtuKey => "mtu"
  }

  function KeywordOf(s: string): Option<Keyword> {
    if s == "via" then Some(ViaKey)
    else if s == "dev" then Some(DevKey)
    else if s == "proto" then Some(ProtoKey)
    else if s == "scope" then Some(ScopeKey)
    else if s == "metric" then Some(MetricKey)
    else if s == "mtu" then Some(MtuKey)
    else None
  }

  // ---------------------------------------------------------------- the parser

  /** The effect of a keyword with its value. */
  function SetField(entry: RouteEntry, keyword: Keyword, value: string): RouteEntry {
    match keyword
    case ViaKey => entry.(gateway := value)
    case DevKey => entry.(iface := value)
    case ProtoKey => entry.(proto := value)
    case ScopeKey => entry.(scope := value)
    case MetricKey => entry.(metric := Atoi(value))
    case MtuKey => entry.(mtu := Atoi(value))
  }

  /** The token loop from position `i`: a keyword takes the next token, whatever that is. */
  function Scan(fields: seq<string>, i: nat, entry: RouteEntry): RouteEntry
    decreases |fields| - i
  {
    if i >= |fields| then entry
    else
      match KeywordOf(fields[i])
      case Some(k) =>
        if i + 1 < |fields| then Scan(fields, i + 2, SetField(entry, k, fields[i + 1]))
        else Scan(fields, i + 1, entry)
      case None =>
        Scan(fields, i + 1, if fields[i] in KINDS then entry.(kind := fields[i]) else entry)
  }

  function Blank(destination: string): RouteEntry {
    RouteEntry(destination, "", "", "", "", "", 0, 0)
  }

  function LineRoute(line: string): seq<RouteEntry> {
    var fields := Fields(line);
    if |fields| < 2 then [] else [Scan(fields, 1, Blank(fields[0]))]
  }

  function LineRoutes(lines: seq<string>): seq<RouteEntry> {
    FlatMap(LineRoute, lines)
  }

  /** One route for each line of at least two fields, in order: the first field, then the token loop. */
  ghost predicate RoutesAt(routes: seq<RouteEntry>, lines: seq<string>, idx: seq<nat>) {
    && Increasing(idx, |lines|) && |idx| == |routes|
    && (forall i: nat :: i < |lines| ==> (i in idx <==> |Fields(lines[i])| >= 2))
    && forall k :: 0 <= k < |idx| ==>
         var fields := Fields(lines[idx[k]]);
         fields != [] && routes[k] == Scan(fields, 1, RouteEntry(fields[0], "", "", "", "", "", 0, 0))
  }

  lemma RoutesPicked(lines: seq<string>) returns (idx: seq<nat>)
    ensures RoutesAt(LineRoutes(lines), lines, idx)
  {
    idx := FlatMapPicks(LineRoute, lines);
    forall k | 0 <= k < |idx|
      ensures var fields := Fields(lines[idx[k]]);
              fields != []
              && LineRoutes(lines)[k] == Scan(fields, 1, RouteEntry(fields[0], "", "", "", "", "", 0, 0))
    {
      assert LineRoute(lines[idx[k]]) == [LineRoutes(lines)[k]];
    }
  }

  method ParseRoutes(lines: seq<string>) returns (routes: seq<RouteEntry>)
    ensures routes == LineRoutes(lines)
    ensures exists idx :: RoutesAt(routes, lines, idx)
  {
    routes := [];
    for n := 0 to |lines|
      invariant routes == LineRoutes(lines[..n])
    {
      assert lines[..n + 1][..n] == lines[..n];
      var fields := Fields(lines[n]);
      if |fields| < 2 {
        continue;
      }
      var entry := Blank(fields[0]);
      var i := 1;
      while i < |fields|
        invariant 1 <= i
        invariant Scan(fields, 1, Blank(fields[0])) == Scan(fields, i, entry)
        decreases |fields| - i
      {
        var keyword := KeywordOf(fields[i]);
        if keyword.Some? {
          if i + 1 < |fields| {
            entry := SetField(entry, keyword.value, fields[i + 1]);
            i := i + 1;
          }
        } else if fields[i] in KINDS {
          entry := entry.(kind := fields[i]);
        }
        i := i + 1;
      }
      routes := routes + [entry];
    }
    assert lines[..|lines|] == lines;
    ghost var idx := RoutesPicked(lines);
  }

  // ---------------------------------------------------------------- the vocabulary

  ghost predicate IsKeyword(s: string) {
    s == "via" || s == "dev" || s == "proto" || s == "scope" || s == "metric" || s == "mtu"
  }

  ghost predicate IsType(s: string) {
    || s == "kernel" || s == "connected" || s == "static" || s == "broadcast" || s == "local" || s == "multicast"
    || s == "unreachable" || s == "prohibit" || s == "blackhole"
  }

  lemma Vocabulary(s: string)
    ensures IsKeyword(s) <==> KeywordOf(s).Some?
    ensures IsType(s) <==> s in KINDS
    ensures IsKeyword(s) ==> !IsType(s)
  {
    if IsKeyword(s) {
      assert s[0] == 'v' || s[0] == 'd' || s[0] == 'p' || s[0] == 's' || s[0] == 'm';
    }
    if IsType(s) {
      assert s == KINDS[0] || s == KINDS[1] || s == KINDS[2] || s == KINDS[3] || s == KINDS[4] || s == KINDS[5]
          || s == KINDS[6] || s == KINDS[7] || s == KINDS[8];
    }
  }

  /** The effect of each keyword with its value. */
  lemma KeywordEffect(fields: seq<string>, i: nat, entry: RouteEntry)
    requires i + 1 < |fields| && IsKeyword(fields[i])
    ensures var s, v := fields[i], fields[i + 1];
            && (s == "via" ==> Scan(fields, i, entry) == Scan(fields, i + 2, entry.(gateway := v)))
            && (s == "dev" ==> Scan(fields, i, entry) == Scan(fields, i + 2, entry.(iface := v)))
            && (s == "proto" ==> Scan(fields, i, entry) == Scan(fields, i + 2, entry.(proto := v)))
            && (s == "scope" ==> Scan(fields, i, entry) == Scan(fields, i + 2, entry.(scope := v)))
            && (s == "metric" ==> Scan(fields, i, entry) == Scan(fields, i + 2, entry.(metric := Atoi(v))))
            && (s == "mtu" ==> Scan(fields, i, entry) == Scan(fields, i + 2, entry.(mtu := Atoi(v))))
  {
  }

  /** A keyword at the end of the line has no effect; a route type has one, and any other token has none. */
  lemma OtherEffect(fields: seq<string>, i: nat, entry: RouteEntry)
    requires i < |fields| && (IsKeyword(fields[i]) ==> i + 1 == |fields|)
    ensures Scan(fields, i, entry)
            == Scan(fields, i + 1, if IsType(fields[i]) then entry.(kind := fields[i]) else entry)
  {
    Vocabulary(fields[i]);
  }

  // ---------------------------------------------------------------- the printer

  /** One attribute of a route; Other stands for a token that the parser does not know. */
  datatype Attr =
    | Via(value: string) | Dev(value: string) | Proto(value: string) | Scope(value: string)
    | Metric(number: int) | Mtu(number: int) | Kind(name: string) | Other(token: string)

  ghost predicate AttrOk(a: Attr) {
    match a
    case Metric(n) => INT64_MIN <= n <= INT64_MAX
    case Mtu(n) => INT64_MIN <= n <= INT64_MAX
    case Kind(name) => IsType(name)
    case Other(token) => Word(token) && !IsKeyword(token) && !IsType(token)
    case _ => Word(a.value)
  }

  /** The keyword and value of an attribute that has them. */
  function KeyValue(a: Attr): (Keyword, string)
    requires !a.Kind? && !a.Other?
  {
    match a
    case Via(v) => (ViaKey, v)
    case Dev(v) => (DevKey, v)
    case Proto(v) => (ProtoKey, v)
    case Scope(v) => (ScopeKey, v)
    case Metric(n) => (MetricKey, Decimal(n))
    case Mtu(n) => (MtuKey, Decimal(n))
  }

  function AttrTokens(a: Attr): seq<string> {
    match a
    case Kind(name) => [name]
    case Other(token) => [token]
    case _ => [Spelling(KeyValue(a).0), KeyValue(a).1]
  }

  function Tokens(attrs: seq<Attr>): seq<string> {
    if attrs == [] then [] else AttrTokens(attrs[0]) + Tokens(attrs[1..])
  }

  /** A line; it may end in a keyword without a value. */
  datatype Route = Route(destination: string, attrs: seq<Attr>, cut: Option<string>)

  ghost predicate RouteOk(r: Route) {
    && Word(r.destination) && (forall a :: a in r.attrs ==> AttrOk(a))
    && (r.cut.Some? ==> IsKeyword(r.cut.value))
  }

  function CutTokens(cut: Option<string>): seq<string> {
    match cut
    case Some(keyword) => [keyword]
    case None => []
  }

  function PrintRoute(r: Route): string {
    Join([r.destination] + Tokens(r.attrs) + CutTokens(r.cut), " ")
  }

  /** What one attribute means. */
  function Meaning(entry: RouteEntry, a: Attr): RouteEntry {
    match a
    case Via(v) => entry.(gateway := v)
    case Dev(v) => entry.(iface := v)
    case Proto(v) => entry.(proto := v)
    case Scope(v) => entry.(scope := v)
    case Metric(n) => entry.(metric := n)
    case Mtu(n) => entry.(mtu := n)
    case Kind(name) => entry.(kind := name)
    case Other(_) => entry
  }

  function MeaningAll(entry: RouteEntry, attrs: seq<Attr>): RouteEntry
    decreases |attrs|
  {
    if attrs == [] then entry else MeaningAll(Meaning(entry, attrs[0]), attrs[1..])
  }

  lemma SpellingRead(k: Keyword)
    ensures KeywordOf(Spelling(k)) == Some(k) && Word(Spelling(k))
  {
    assert |Spelling(k)| >= 3;
    assert Spelling(k)[0] == match k
                             case ViaKey => 'v' case DevKey => 'd' case ProtoKey => 'p' case ScopeKey => 's'
                             case _ => 'm';
  }

  lemma KindWord(s: string)
    requires IsType(s)
    ensures KeywordOf(s).None? && s in KINDS && Word(s)
  {
    Vocabulary(s);
  }

  lemma KeywordWord(s: string)
    requires IsKeyword(s)
    ensures Word(s)
  {
  }

  /** The value text of an attribute reads back as the value. */
  ghost predicate ReadsBack(a: Attr, text: string) {
    match a
    case Metric(n) => Atoi(text) == n
    case Mtu(n) => Atoi(text) == n
    case Kind(_) => false
    case Other(_) => false
    case _ => text == a.value
  }

  lemma ValueReadsBack(a: Attr)
    requires AttrOk(a) && !a.Kind? && !a.Other?
    ensures ReadsBack(a, KeyValue(a).1)
  {
    if a.Metric? || a.Mtu? {
      AtoiDecimal(a.number);
    }
  }

  lemma ScanPair(fields: seq<string>, i: nat, entry: RouteEntry, a: Attr, text: string)
    requires i + 1 < |fields| && ReadsBack(a, text)
    requires fields[i] == Spelling(KeyValue(a).0) && fields[i + 1] == text
    ensures Scan(fields, i, entry) == Scan(fields, i + 2, Meaning(entry, a))
  {
    SpellingRead(KeyValue(a).0);
    assert SetField(entry, KeyValue(a).0, text) == Meaning(entry, a);
  }

  lemma ScanAttr(fields: seq<string>, i: nat, entry: RouteEntry, a: Attr)
    requires AttrOk(a) && i + |AttrTokens(a)| <= |fields| && fields[i..i + |AttrTokens(a)|] == AttrTokens(a)
    ensures Scan(fields, i, entry) == Scan(fields, i + |AttrTokens(a)|, Meaning(entry, a))
  {
    var ts := AttrTokens(a);
    assert fields[i] == ts[0];
    if a.Kind? || a.Other? {
      OtherEffect(fields, i, entry);
      Vocabulary(fields[i]);
    } else {
      ValueReadsBack(a);
      assert fields[i + 1] == ts[1];
      ScanPair(fields, i, entry, a, ts[1]);
    }
  }

  lemma ScanCut(fields: seq<string>, i: nat, entry: RouteEntry, cut: Option<string>)
    requires i <= |fields| && fields[i..] == CutTokens(cut) && (cut.Some? ==> IsKeyword(cut.value))
    ensures Scan(fields, i, entry) == entry
  {
    if cut.Some? {
      assert fields[i] == cut.value;
      Vocabulary(cut.value);
      OtherEffect(fields, i, entry);
    }
  }

  lemma HeadAndRest(fields: seq<string>, i: nat, head: seq<string>, rest: seq<string>)
    requires i <= |fields| && fields[i..] == head + rest
    ensures i + |head| <= |fields| && fields[i..i + |head|] == head && fields[i + |head|..] == rest
  {
    assert fields[i..i + |head|] == fields[i..][..|head|];
    assert fields[i + |head|..] == fields[i..][|head|..];
  }

  lemma {:induction false} ScanAttrs(fields: seq<string>, i: nat, entry: RouteEntry, attrs: seq<Attr>,
                                     cut: Option<string>)
    requires i <= |fields| && fields[i..] == Tokens(attrs) + CutTokens(cut) && forall a :: a in attrs ==> AttrOk(a)
    requires cut.Some? ==> IsKeyword(cut.value)
    ensures Scan(fields, i, entry) == MeaningAll(entry, attrs)
    decreases |attrs|
  {
    if attrs == [] {
      ScanCut(fields, i, entry, cut);
    } else {
      var a, rest := attrs[0], Tokens(attrs[1..]) + CutTokens(cut);
      assert a in attrs;
      var n := |AttrTokens(a)|;
      assert Tokens(attrs) + CutTokens(cut) == AttrTokens(a) + rest;
      HeadAndRest(fields, i, AttrTokens(a), rest);
      ScanAttr(fields, i, entry, a);
      ScanAttrs(fields, i + n, Meaning(entry, a), attrs[1..], cut);
    }
  }

  lemma AttrWords(a: Attr)
    requires AttrOk(a)
    ensures forall t :: t in AttrTokens(a) ==> Word(t)
  {
    if a.Kind? {
      KindWord(a.name);
    } else if !a.Other? {
      SpellingRead(KeyValue(a).0);
      if a.Metric? || a.Mtu? {
        DecimalWord(a.number);
      }
    }
  }

  lemma {:induction false} TokensAreWords(attrs: seq<Attr>)
    requires forall a :: a in attrs ==> AttrOk(a)
    ensures forall t :: t in Tokens(attrs) ==> Word(t)
    ensures attrs != [] <==> Tokens(attrs) != []
  {
    if attrs != [] {
      AttrWords(attrs[0]);
      TokensAreWords(attrs[1..]);
    }
  }

  /**
   A printed route parses to what its attributes say, even when a value is spelled like a keyword or a
   route type, and a keyword without a value says nothing; a route with a destination only is dropped.
   */
  lemma LineRoundTrip(r: Route)
    requires RouteOk(r)
    ensures LineRoute(PrintRoute(r))
            == if r.attrs == [] && r.cut.None? then []
               else [MeaningAll(RouteEntry(r.destination, "", "", "", "", "", 0, 0), r.attrs)]
  {
    TokensAreWords(r.attrs);
    if r.cut.Some? {
      KeywordWord(r.cut.value);
    }
    var fields := [r.destination] + Tokens(r.attrs) + CutTokens(r.cut);
    FieldsJoin(fields);
    assert fields[1..] == Tokens(r.attrs) + CutTokens(r.cut);
    ScanAttrs(fields, 1, Blank(r.destination), r.attrs, r.cut);
  }

  // ---------------------------------------------------------------- order of the attributes

  predicate SameSlot(a: Attr, b: Attr) {
    || (a.Via? && b.Via?) || (a.Dev? && b.Dev?) || (a.Proto? && b.Proto?) || (a.Scope? && b.Scope?)
    || (a.Metric? && b.Metric?) || (a.Mtu? && b.Mtu?) || (a.Kind? && b.Kind?)
  }

  /** Each keyword, and the route type, is given at most once. */
  ghost predicate OncePerSlot(attrs: seq<Attr>) {
    forall i, j :: 0 <= i < j < |attrs| ==> !SameSlot(attrs[i], attrs[j])
  }

  /** The entry says about the slot of `a` what `a` says. */
  predicate Agrees(entry: RouteEntry, a: Attr) {
    Meaning(entry, a) == entry
  }

  lemma {:induction false} Undisturbed(entry: RouteEntry, attrs: seq<Attr>, a: Attr)
    requires Agrees(entry, a) && forall b :: b in attrs ==> !SameSlot(a, b)
    ensures Agrees(MeaningAll(entry, attrs), a)
    decreases |attrs|
  {
    if attrs != [] {
      assert attrs[0] in attrs;
      Undisturbed(Meaning(entry, attrs[0]), attrs[1..], a);
    }
  }

  lemma {:induction false} AllAgree(entry: RouteEntry, attrs: seq<Attr>, i: nat)
    requires OncePerSlot(attrs) && i < |attrs|
    ensures Agrees(MeaningAll(entry, attrs), attrs[i])
    decreases |attrs|
  {
    if i == 0 {
      forall b | b in attrs[1..] ensures !SameSlot(attrs[0], b) {
        var j :| 0 <= j < |attrs[1..]| && attrs[1..][j] == b;
        assert attrs[j + 1] == b;
      }
      Undisturbed(Meaning(entry, attrs[0]), attrs[1..], attrs[0]);
    } else {
      AllAgree(Meaning(entry, attrs[0]), attrs[1..], i - 1);
    }
  }

  /** The attribute that spells out one slot of an entry. */
  function SlotOf(entry: RouteEntry, a: Attr): Attr {
    match a
    case Via(_) => Via(entry.gateway)
    case Dev(_) => Dev(entry.iface)
    case Proto(_) => Proto(entry.proto)
    case Scope(_) => Scope(entry.scope)
    case Metric(_) => Metric(entry.metric)
    case Mtu(_) => Mtu(entry.mtu)
    case Kind(_) => Kind(entry.kind)
    case Other(t) => Other(t)
  }

  lemma SlotsDecide(e1: RouteEntry, e2: RouteEntry)
    requires e1.destination == e2.destination
    requires forall a :: SlotOf(e1, a) == SlotOf(e2, a)
    ensures e1 == e2
  {
    assert SlotOf(e1, Via("")) == SlotOf(e2, Via("")) && SlotOf(e1, Dev("")) == SlotOf(e2, Dev(""));
    assert SlotOf(e1, Proto("")) == SlotOf(e2, Proto("")) && SlotOf(e1, Scope("")) == SlotOf(e2, Scope(""));
    assert SlotOf(e1, Metric(0)) == SlotOf(e2, Metric(0)) && SlotOf(e1, Mtu(0)) == SlotOf(e2, Mtu(0));
    assert SlotOf(e1, Kind("")) == SlotOf(e2, Kind(""));
  }

  /** Attributes of one entry lead to that entry once every slot that differs is among them. */
  lemma {:induction false} Converges(start: RouteEntry, entry: RouteEntry, attrs: seq<Attr>)
    requires start.destination == entry.destination && forall a :: a in attrs ==> Agrees(entry, a)
    requires forall a :: SlotOf(entry, a) in attrs || SlotOf(entry, a) == SlotOf(start, a)
    ensures MeaningAll(start, attrs) == entry
    decreases |attrs|
  {
    if attrs == [] {
      SlotsDecide(start, entry);
    } else {
      var a := attrs[0];
      assert a in attrs;
      var next := Meaning(start, a);
      forall b ensures SlotOf(entry, b) in attrs[1..] || SlotOf(entry, b) == SlotOf(next, b) {
        assert SlotOf(entry, b) in attrs || SlotOf(entry, b) == SlotOf(start, b);
      }
      Converges(next, entry, attrs[1..]);
    }
  }

  /** Each slot of the result comes from an attribute or is unchanged. */
  lemma {:induction false} SlotSource(entry: RouteEntry, attrs: seq<Attr>, a: Attr)
    ensures var e := MeaningAll(entry, attrs);
            e.destination == entry.destination && (SlotOf(e, a) in attrs || SlotOf(e, a) == SlotOf(entry, a))
    decreases |attrs|
  {
    if attrs != [] {
      assert attrs[0] in attrs;
      SlotSource(Meaning(entry, attrs[0]), attrs[1..], a);
    }
  }

  /** With each keyword given at most once, neither the order of the attributes nor unknown tokens matter. */
  lemma OrderIrrelevant(entry: RouteEntry, attrs: seq<Attr>, other: seq<Attr>)
    requires OncePerSlot(attrs) && forall a: Attr :: !a.Other? ==> (a in attrs <==> a in other)
    ensures MeaningAll(entry, other) == MeaningAll(entry, attrs)
  {
    var e := MeaningAll(entry, attrs);
    forall a | a in other ensures Agrees(e, a) {
      if a.Other? {
        assert Meaning(e, a) == e;
      } else {
        assert a in attrs;
        var i :| 0 <= i < |attrs| && attrs[i] == a;
        AllAgree(entry, attrs, i);
      }
    }
    forall a ensures e.destination == entry.destination && (SlotOf(e, a) in other || SlotOf(e, a) == SlotOf(entry, a)) {
      SlotSource(entry, attrs, a);
    }
    SlotSource(entry, attrs, Via(""));
    Converges(entry, e, other);
  }

  /** Printing an entry's attributes in any order, and parsing the line, gives the entry back. */
  lemma EntryRoundTrip(entry: RouteEntry, attrs: seq<Attr>, cut: Option<string>)
    requires RouteOk(Route(entry.destination, attrs, cut)) && (attrs != [] || cut.Some?)
    requires forall a :: a in attrs ==> Agrees(entry, a)
    requires entry.gateway == "" || Via(entry.gateway) in attrs
    requires entry.iface == "" || Dev(entry.iface) in attrs
    requires entry.proto == "" || Proto(entry.proto) in attrs
    requires entry.scope == "" || Scope(entry.scope) in attrs
    requires entry.kind == "" || Kind(entry.kind) in attrs
    requires entry.metric == 0 || Metric(entry.metric) in attrs
    requires entry.mtu == 0 || Mtu(entry.mtu) in attrs
    ensures LineRoute(PrintRoute(Route(entry.destination, attrs, cut))) == [entry]
  {
    LineRoundTrip(Route(entry.destination, attrs, cut));
    var start := RouteEntry(entry.destination, "", "", "", "", "", 0, 0);
    forall a ensures SlotOf(entry, a) in attrs || SlotOf(entry, a) == SlotOf(start, a) {
    }
    Converges(start, entry, attrs);
  }

  function PrintRoutes(rs: seq<Route>): seq<string> {
    seq(|rs|, i requires 0 <= i < |rs| => PrintRoute(rs[i]))
  }

  /** The entries of the routes that have more than a destination. */
  function Meanings(rs: seq<Route>): seq<RouteEntry> {
    if rs == [] then []
    else
      var r := rs[|rs| - 1];
      Meanings(rs[..|rs| - 1])
      + if r.attrs == [] && r.cut.None? then []
        else [MeaningAll(RouteEntry(r.destination, "", "", "", "", "", 0, 0), r.attrs)]
  }

  /** A whole printed table parses to its entries, in order. */
  lemma {:induction false} TableRoundTrip(rs: seq<Route>)
    requires forall r :: r in rs ==> RouteOk(r)
    ensures LineRoutes(PrintRoutes(rs)) == Meanings(rs)
  {
    if rs != [] {
      var n := |rs| - 1;
      assert rs[n] in rs;
      LineRoundTrip(rs[n]);
      assert PrintRoutes(rs)[..n] == PrintRoutes(rs[..n]);
      TableRoundTrip(rs[..n]);
    }
  }
}
