/**
 NewDNSHosts of hosts/hosts.go as a whole: the configured hosts are a map that is walked in any order, the hosts files
 are read in theirs, and the map of wildcards is walked in any order again.
 */
module HostsConf {
  import opened Options
  import opened Messages
  import opened Permutations
  import opened Selections
  import opened Sorting
  import opened Hosts
  import opened Texts

  /** The addresses configured for each key. */
  type Conf = map<string, seq<HostIP>>

  /** An order in which the keys can be walked. */
  ghost predicate Walks(walk: seq<string>, keys: set<string>) {
    Distinct(walk) && forall k :: k in walk <==> k in keys
  }

  function GivenAlong(conf: Conf, walk: seq<string>): seq<Given>
    requires forall k | k in walk :: k in conf
  {
    if walk == [] then []
    else
      var k := walk[|walk| - 1];
      assert k in walk;
      GivenAlong(conf, walk[..|walk| - 1]) + GivenBy(k, conf[k])
  }

  /** r is what can come of the given addresses, for some walk over the wildcards. */
  ghost predicate IsReader(r: HostReader, given: seq<Given>) {
    && ExactTable(r.domainMap, given)
    && exists order :: Lists(order, given) && IsTable(r.patterns, given, order)
  }

  // ------------------------------------------------------------------------------------------------
  // Loading

  function Parsed(hosts: map<string, seq<string>>, parse: string -> Option<RRType>): Conf {
    map k | k in hosts :: AddressesOf(hosts[k], parse)
  }

  function GivenByLines(lines: seq<string>, parse: string -> Option<RRType>): seq<Given> {
    if lines == [] then []
    else GivenByLines(lines[..|lines| - 1], parse) + GivenByLine(lines[|lines| - 1], parse)
  }

  predicate AllLoadWell(hosts: map<string, seq<string>>, parse: string -> Option<RRType>) {
    forall k | k in hosts :: LoadsWell(k, hosts[k], parse)
  }

  predicate LinesLoad(lines: seq<string>, parse: string -> Option<RRType>) {
    forall i | 0 <= i < |lines| :: LineLoads(lines[i], parse)
  }

  method LoadConf(t: HostTables, hosts: map<string, seq<string>>, parse: string -> Option<RRType>)
    returns (ok: bool, ghost walk: seq<string>)
    requires t.Valid() && t.given == []
    modifies t
    ensures t.Valid() && ok == AllLoadWell(hosts, parse)
    ensures ok ==> Walks(walk, hosts.Keys) && t.given == GivenAlong(Parsed(hosts, parse), walk)
  {
    walk := [];
    var todo := hosts.Keys;
    while todo != {}
      invariant todo <= hosts.Keys && t.Valid() && Distinct(walk)
      invariant forall k :: k in walk <==> k in hosts && k !in todo
      invariant forall k | k in walk :: LoadsWell(k, hosts[k], parse)
      invariant t.given == GivenAlong(Parsed(hosts, parse), walk)
    {
      var k :| k in todo;
      WalkOneMore(Parsed(hosts, parse), walk, k);
      ok := t.Load(k, hosts[k], parse);
      if !ok {
        return;
      }
      walk := walk + [k];
      todo := todo - {k};
    }
    ok := true;
  }

  method LoadLines(t: HostTables, lines: seq<string>, parse: string -> Option<RRType>) returns (ok: bool)
    requires t.Valid()
    modifies t
    ensures t.Valid() && ok == LinesLoad(lines, parse)
    ensures ok ==> t.given == old(t.given) + GivenByLines(lines, parse)
  {
    var i := 0;
    ghost var done: seq<Given> := [];
    while i < |lines|
      invariant 0 <= i <= |lines| && t.Valid() && LinesLoad(lines[..i], parse)
      invariant done == GivenByLines(lines[..i], parse) && t.given == old(t.given) + done
    {
      OneMoreLine(lines, parse, i);
      OneMoreLoads(lines, parse, i);
      Regrouped(old(t.given), done, GivenByLine(lines[i], parse));
      ok := t.LoadLine(lines[i], parse);
      if !ok {
        return;
      }
      done := done + GivenByLine(lines[i], parse);
      i := i + 1;
    }
    Whole(lines);
    ok := true;
  }

  /** A hosts file: one that cannot be opened, or its lines up to its end or to a failure of reading. */
  datatype HostsFile = Missing | Opened(lines: seq<string>, intact: bool)

  predicate FileLoads(file: HostsFile, parse: string -> Option<RRType>) {
    file.Opened? && LinesLoad(file.lines, parse) && file.intact
  }

  predicate FilesLoad(files: seq<HostsFile>, parse: string -> Option<RRType>) {
    forall i | 0 <= i < |files| :: FileLoads(files[i], parse)
  }

  function GivenByFiles(files: seq<HostsFile>, parse: string -> Option<RRType>): seq<Given> {
    if files == [] then []
    else
      var last := files[|files| - 1];
      GivenByFiles(files[..|files| - 1], parse) + if last.Opened? then GivenByLines(last.lines, parse) else []
  }

  method LoadFile(t: HostTables, file: HostsFile, parse: string -> Option<RRType>) returns (ok: bool)
    requires t.Valid()
    modifies t
    ensures t.Valid() && ok == FileLoads(file, parse)
    ensures ok ==> t.given == old(t.given) + GivenByLines(file.lines, parse)
  {
    match file
    case Missing =>
      return false;
    case Opened(lines, intact) =>
      ok := LoadLines(t, lines, parse);
      ok := ok && intact;
  }

  method LoadFiles(t: HostTables, files: seq<HostsFile>, parse: string -> Option<RRType>) returns (ok: bool)
    requires t.Valid()
    modifies t
    ensures t.Valid() && ok == FilesLoad(files, parse)
    ensures ok ==> t.given == old(t.given) + GivenByFiles(files, parse)
  {
    var i := 0;
    ghost var done: seq<Given> := [];
    while i < |files|
      invariant 0 <= i <= |files| && t.Valid() && FilesLoad(files[..i], parse)
      invariant done == GivenByFiles(files[..i], parse) && t.given == old(t.given) + done
    {
      OneMoreFile(files, parse, i);
      ok := LoadFile(t, files[i], parse);
      if !ok {
        return;
      }
      Regrouped(old(t.given), done, GivenByLines(files[i].lines, parse));
      done := done + GivenByLines(files[i].lines, parse);
      i := i + 1;
    }
    Whole(files);
    ok := true;
  }

  lemma OneMoreFile(files: seq<HostsFile>, parse: string -> Option<RRType>, i: nat)
    requires i < |files| && FilesLoad(files[..i], parse)
    ensures FilesLoad(files[..i + 1], parse) <==> FileLoads(files[i], parse)
    ensures FilesLoad(files, parse) ==> FileLoads(files[i], parse)
    ensures var done := GivenByFiles(files[..i], parse);
            FileLoads(files[i], parse) ==>
              GivenByFiles(files[..i + 1], parse) == done + GivenByLines(files[i].lines, parse)
  {
    var upto := files[..i + 1];
    assert upto[..i] == files[..i] && upto[i] == files[i];
    forall k | 0 <= k < i ensures FileLoads(upto[k], parse) {
      assert upto[k] == files[..i][k];
    }
  }

  /**
   None when an address does not parse, a wildcard does not compile, or a file cannot be opened or read to its end.
   */
  method NewDNSHosts(hosts: map<string, seq<string>>, files: seq<HostsFile>, parse: string -> Option<RRType>)
    returns (r: Option<HostReader>, ghost walk: seq<string>)
    ensures r.Some? <==> AllLoadWell(hosts, parse) && FilesLoad(files, parse)
    ensures r.Some? ==>
              && Walks(walk, hosts.Keys)
              && IsReader(r.value, GivenAlong(Parsed(hosts, parse), walk) + GivenByFiles(files, parse))
  {
    var t := new HostTables();
    var ok;
    ok, walk := LoadConf(t, hosts, parse);
    if !ok {
      return None, walk;
    }
    ok := LoadFiles(t, files, parse);
    if !ok {
      return None, walk;
    }
    TablesAre(t.given);
    var reader, order := t.Build();
    return Some(reader), walk;
  }

  lemma WalkOneMore(conf: Conf, walk: seq<string>, k: string)
    requires k in conf && forall j | j in walk :: j in conf
    ensures GivenAlong(conf, walk + [k]) == GivenAlong(conf, walk) + GivenBy(k, conf[k])
  {
    assert (walk + [k])[..|walk|] == walk;
  }

  lemma OneMoreLine(lines: seq<string>, parse: string -> Option<RRType>, i: nat)
    requires i < |lines|
    ensures GivenByLines(lines[..i + 1], parse) == GivenByLines(lines[..i], parse) + GivenByLine(lines[i], parse)
  {
    assert lines[..i + 1][..i] == lines[..i];
  }

  lemma OneMoreLoads(lines: seq<string>, parse: string -> Option<RRType>, i: nat)
    requires i < |lines| && LinesLoad(lines[..i], parse)
    ensures LinesLoad(lines[..i + 1], parse) <==> LineLoads(lines[i], parse)
    ensures LinesLoad(lines, parse) ==> LineLoads(lines[i], parse)
  {
    var upto := lines[..i + 1];
    assert upto[i] == lines[i];
    forall k | 0 <= k < i ensures LineLoads(upto[k], parse) {
      assert upto[k] == lines[..i][k];
    }
  }

  // ------------------------------------------------------------------------------------------------
  // Lists of addresses

  /** x, then what y adds to it. */
  function Merge(x: seq<HostIP>, y: seq<HostIP>): (r: seq<HostIP>)
    ensures x <= r
  {
    if y == [] then x
    else
      var m, ip := Merge(x, y[..|y| - 1]), y[|y| - 1];
      if ip in m then m else m + [ip]
  }

  /** Each address once, in the order of the list. */
  function Dedup(ips: seq<HostIP>): seq<HostIP> {
    Merge([], ips)
  }

  lemma {:induction false} MergeMembers(x: seq<HostIP>, y: seq<HostIP>)
    requires Distinct(x)
    ensures Distinct(Merge(x, y)) && forall ip :: ip in Merge(x, y) <==> ip in x || ip in y
  {
    if y != [] {
      var front, ip := y[..|y| - 1], y[|y| - 1];
      MergeMembers(x, front);
      assert forall z :: z in y <==> z in front || z == ip;
    }
  }

  /** A list merged into one that starts with it. */
  lemma {:induction false} MergeInto(x: seq<HostIP>, y: seq<HostIP>)
    requires Distinct(x) && (forall ip | ip in y :: ip in x)
    ensures Merge(x, y) == x
  {
    if y != [] {
      MergeInto(x, y[..|y| - 1]);
    }
  }

  lemma {:induction false} MergeOnto(x: seq<HostIP>, y: seq<HostIP>)
    requires Distinct(y) && x <= y
    ensures Merge(x, y) == y
  {
    if |y| == |x| {
      MergeInto(x, y);
    } else {
      var front, ip := y[..|y| - 1], y[|y| - 1];
      MergeOnto(x, front);
      assert ip !in front;
    }
  }

  lemma {:induction false} MergeMerged(x: seq<HostIP>, y: seq<HostIP>, z: seq<HostIP>)
    ensures Merge(x, Merge(y, z)) == Merge(Merge(x, y), z)
  {
    if z != [] {
      var front, ip := z[..|z| - 1], z[|z| - 1];
      MergeMerged(x, y, front);
      var m := Merge(y, front);
      if ip in m {
        MergeHas(x, m, ip);
      } else {
        assert (m + [ip])[..|m|] == m;
      }
    }
  }

  lemma {:induction false} MergeHas(x: seq<HostIP>, y: seq<HostIP>, ip: HostIP)
    requires ip in y
    ensures ip in Merge(x, y)
  {
    if ip != y[|y| - 1] {
      MergeHas(x, y[..|y| - 1], ip);
    }
  }

  /** One list is the front of the other. */
  predicate Comparable(x: seq<HostIP>, y: seq<HostIP>) {
    x <= y || y <= x
  }

  lemma FrontsCompare(x: seq<HostIP>, y: seq<HostIP>, z: seq<HostIP>)
    requires x <= z && y <= z
    ensures Comparable(x, y)
  {
  }

  lemma {:induction false} IPsConcat(a: seq<Given>, b: seq<Given>, h: string)
    ensures IPsOf(a + b, h) == Merge(IPsOf(a, h), IPsOf(b, h))
  {
    if b == [] {
      assert a + b == a;
    } else {
      var front, g := b[..|b| - 1], b[|b| - 1];
      assert (a + b)[..|a + b| - 1] == a + front;
      IPsConcat(a, front, h);
      var m := IPsOf(front, h);
      if g.host == h && g.ip !in m {
        assert (m + [g.ip])[..|m|] == m;
      } else if g.host == h {
        MergeHas(IPsOf(a, h), m, g.ip);
      }
    }
  }

  lemma {:induction false} IPsGivenTo(host: string, ips: seq<HostIP>, h: string)
    ensures IPsOf(GivenTo(host, ips), h) == if host == h then Dedup(ips) else []
  {
    if ips != [] {
      IPsGivenTo(host, ips[..|ips| - 1], h);
      assert GivenTo(host, ips)[..|ips| - 1] == GivenTo(host, ips[..|ips| - 1]);
    }
  }

  /** What an entry gives host h. */
  function Share(conf: Conf, k: string, h: string): seq<HostIP>
    requires k in conf
  {
    if Fold(k) == h && h != "" then Dedup(conf[k]) else []
  }

  lemma IPsOneMore(conf: Conf, walk: seq<string>, k: string, h: string)
    requires k in conf && forall j | j in walk :: j in conf
    ensures IPsOf(GivenAlong(conf, walk + [k]), h) == Merge(IPsOf(GivenAlong(conf, walk), h), Share(conf, k, h))
  {
    WalkOneMore(conf, walk, k);
    IPsConcat(GivenAlong(conf, walk), GivenBy(k, conf[k]), h);
    IPsGivenTo(Fold(k), conf[k], h);
  }

  // ------------------------------------------------------------------------------------------------
  // When the walk over the configured hosts does not matter

  /** Keys that stand for one host give it lists of which one is the front of the other. */
  ghost predicate Consistent(conf: Conf) {
    forall k, l | k in conf && l in conf && Fold(k) == Fold(l) && Fold(k) != "" ::
      Comparable(Dedup(conf[k]), Dedup(conf[l]))
  }

  lemma DedupDistinct(ips: seq<HostIP>)
    ensures Distinct(Dedup(ips))
  {
    MergeMembers([], ips);
  }

  /** ips is the longest of the lists the keys of walk give h. */
  ghost predicate Longest(conf: Conf, walk: seq<string>, h: string, ips: seq<HostIP>)
    requires forall k | k in walk :: k in conf
  {
    && (ips == [] || exists k | k in walk :: ips == Share(conf, k, h))
    && forall k | k in walk :: Share(conf, k, h) <= ips
  }

  lemma SharesCompare(conf: Conf, k: string, l: string, h: string)
    requires Consistent(conf) && k in conf && l in conf
    ensures Comparable(Share(conf, k, h), Share(conf, l, h)) && Distinct(Share(conf, k, h))
  {
    DedupDistinct(conf[k]);
  }

  lemma MergeLongest(conf: Conf, front: seq<string>, k: string, h: string, ips: seq<HostIP>)
    requires Consistent(conf) && k in conf && (forall j | j in front :: j in conf) && Longest(conf, front, h, ips)
    ensures Merge(ips, Share(conf, k, h)) == if ips <= Share(conf, k, h) then Share(conf, k, h) else ips
    ensures Comparable(ips, Share(conf, k, h))
  {
    SharesCompare(conf, k, k, h);
    if ips <= Share(conf, k, h) {
      MergeOnto(ips, Share(conf, k, h));
    } else {
      var j :| j in front && ips == Share(conf, j, h);
      SharesCompare(conf, j, k, h);
      MergeInto(ips, Share(conf, k, h));
    }
  }

  /** Along any walk the host ends with the longest of its keys' lists. */
  lemma {:induction false} WalkGivesLongest(conf: Conf, walk: seq<string>, h: string)
    requires Consistent(conf) && forall k | k in walk :: k in conf
    ensures Longest(conf, walk, h, IPsOf(GivenAlong(conf, walk), h))
  {
    if walk != [] {
      var front, k := walk[..|walk| - 1], walk[|walk| - 1];
      assert walk == front + [k];
      assert forall j :: j in walk <==> j in front || j == k;
      WalkGivesLongest(conf, front, h);
      IPsOneMore(conf, front, k, h);
      LongestOneMore(conf, front, k, walk, h, IPsOf(GivenAlong(conf, front), h));
    }
  }

  lemma LongestOneMore(conf: Conf, front: seq<string>, k: string, walk: seq<string>, h: string, ips: seq<HostIP>)
    requires Consistent(conf) && k in conf && (forall j | j in front :: j in conf) && Longest(conf, front, h, ips)
    requires forall j :: j in walk <==> j in front || j == k
    ensures Longest(conf, walk, h, Merge(ips, Share(conf, k, h)))
  {
    MergeLongest(conf, front, k, h, ips);
  }

  lemma WalksAgree(conf: Conf, walk: seq<string>, walk': seq<string>, h: string)
    requires Consistent(conf) && Walks(walk, conf.Keys) && Walks(walk', conf.Keys)
    ensures IPsOf(GivenAlong(conf, walk), h) == IPsOf(GivenAlong(conf, walk'), h)
  {
    WalkGivesLongest(conf, walk, h);
    WalkGivesLongest(conf, walk', h);
  }

  ghost predicate KeysOf(walk: seq<string>, conf: Conf) {
    forall k | k in walk :: k in conf
  }

  lemma KeysConcat(a: seq<string>, b: seq<string>, conf: Conf)
    ensures KeysOf(a + b, conf) <==> KeysOf(a, conf) && KeysOf(b, conf)
  {
    assert forall k | k in a :: k in a + b;
    assert forall k | k in b :: k in a + b;
  }

  lemma {:induction false} AlongConcat(conf: Conf, a: seq<string>, b: seq<string>)
    requires KeysOf(a, conf) && KeysOf(b, conf)
    ensures KeysOf(a + b, conf) && GivenAlong(conf, a + b) == GivenAlong(conf, a) + GivenAlong(conf, b)
    decreases |b|, 1
  {
    KeysConcat(a, b, conf);
    if b == [] {
      assert a + b == a;
    } else {
      AlongConcatStep(conf, a, b[..|b| - 1], b[|b| - 1], b);
    }
  }

  lemma {:induction false} AlongConcatStep(conf: Conf, a: seq<string>, front: seq<string>, k: string, b: seq<string>)
    requires KeysOf(a, conf) && KeysOf(b, conf) && b == front + [k]
    ensures KeysOf(a + b, conf) && GivenAlong(conf, a + b) == GivenAlong(conf, a) + GivenAlong(conf, b)
    decreases |b|, 0
  {
    KeysConcat(front, [k], conf);
    KeysConcat(a, b, conf);
    KeysConcat(a, front, conf);
    assert k in b;
    AlongConcat(conf, a, front);
    assert a + b == (a + front) + [k];
    WalkOneMore(conf, a + front, k);
    WalkOneMore(conf, front, k);
    Regrouped(GivenAlong(conf, a), GivenAlong(conf, front), GivenBy(k, conf[k]));
  }

  lemma AlongTwo(conf: Conf, k: string, l: string, h: string)
    requires k in conf && l in conf
    ensures IPsOf(GivenAlong(conf, [k, l]), h) == Merge(Dedup(Share(conf, k, h)), Share(conf, l, h))
  {
    var none: seq<string> := [];
    IPsOneMore(conf, none, k, h);
    IPsOneMore(conf, [k], l, h);
    assert none + [k] == [k] && [k] + [l] == [k, l];
  }

  /** Two keys of one host walked first: the other hosts do not notice in which order, and this one's list shows it. */
  lemma FirstTwo(conf: Conf, k: string, l: string, others: seq<string>, rest: seq<Given>, h: string)
    requires k in conf && l in conf && Fold(k) == Fold(l) != "" && forall j | j in others :: j in conf
    ensures forall j | j in [k, l] + others :: j in conf
    ensures var ips := IPsOf(GivenAlong(conf, [k, l] + others) + rest, h);
            && (h == Fold(k) ==> Dedup(conf[k]) <= ips)
            && (h != Fold(k) ==> ips == IPsOf(GivenAlong(conf, others) + rest, h))
  {
    AlongConcat(conf, [k, l], others);
    AlongTwo(conf, k, l, h);
    var two, more := GivenAlong(conf, [k, l]), GivenAlong(conf, others);
    IPsConcat(two, more, h);
    IPsConcat(two + more, rest, h);
    IPsConcat(more, rest, h);
    if h == Fold(k) {
      DedupDistinct(conf[k]);
      MergeOnto([], Dedup(conf[k]));
    } else {
      DedupDistinct([]);
      IPsAreDistinct(more, h);
      MergeOnto([], IPsOf(more, h));
    }
  }

  lemma {:induction false} IPsAreDistinct(given: seq<Given>, h: string)
    ensures Distinct(IPsOf(given, h))
  {
    if given != [] {
      IPsAreDistinct(given[..|given| - 1], h);
    }
  }

  // ------------------------------------------------------------------------------------------------
  // Readers

  lemma {:induction false} HostsOf(given: seq<Given>) returns (hosts: set<string>)
    ensures forall h :: HasWildcard(given, h) <==> h in hosts
  {
    if given == [] {
      hosts := {};
    } else {
      hosts := HostsOf(given[..|given| - 1]);
      var g := given[|given| - 1];
      if IsWildcard(g.host) {
        hosts := hosts + {g.host};
      }
    }
  }

  lemma ReaderExists(given: seq<Given>) returns (r: HostReader)
    ensures IsReader(r, given)
  {
    TablesAre(given);
    var hosts := HostsOf(given);
    var order := Listing(hosts);
    BeforeIsOrder();
    var patterns := SortedExists(PatternsIn(given, order), Before);
    assert Lists(order, given) && IsTable(patterns, given, order);
    r := HostReader(DomainMapOf(given), patterns);
  }

  lemma ReadersEqual(r: HostReader, given: seq<Given>, r': HostReader, given': seq<Given>)
    requires IsReader(r, given) && IsReader(r', given') && TextsDecide(given)
    requires forall h :: IPsOf(given, h) == IPsOf(given', h)
    ensures r == r'
  {
    var order :| Lists(order, given) && IsTable(r.patterns, given, order);
    var order' :| Lists(order', given') && IsTable(r'.patterns, given', order');
    TableUnique(r.patterns, given, order, r'.patterns, given', order');
    assert r.domainMap == r'.domainMap;
  }

  /** Two lists of entries that differ in one host's addresses never come to the same reader. */
  lemma ReadersDiffer(r: HostReader, given: seq<Given>, r': HostReader, given': seq<Given>, h: string)
    requires IsReader(r, given) && IsReader(r', given')
    requires IPsOf(given, h) != IPsOf(given', h) && IPsOf(given, h) != [] && IPsOf(given', h) != []
    requires forall g | g != h :: IPsOf(given, g) == IPsOf(given', g)
    ensures r != r'
  {
    if IsWildcard(h) {
      var order :| Lists(order, given) && IsTable(r.patterns, given, order);
      var order' :| Lists(order', given') && IsTable(r'.patterns, given', order');
      PatternsDiffer(given, order, given', order', h);
    } else {
      assert r.domainMap[h] != r'.domainMap[h];
    }
  }

  lemma PatternsDiffer(given: seq<Given>, order: seq<string>, given': seq<Given>, order': seq<string>, h: string)
    requires Lists(order, given) && Lists(order', given') && IsWildcard(h)
    requires IPsOf(given, h) != IPsOf(given', h) && IPsOf(given, h) != [] && IPsOf(given', h) != []
    requires forall g | g != h :: IPsOf(given, g) == IPsOf(given', g)
    ensures multiset(PatternsIn(given, order)) != multiset(PatternsIn(given', order'))
  {
    assert forall g :: HasWildcard(given, g) <==> HasWildcard(given', g);
    DistinctPermutes(order, order');
    AlikePermute(order', PatternsIn(given', order'), order, PatternsIn(given', order));
    assert HasWildcard(given, h) && h in order;
    var i :| 0 <= i < |order| && order[i] == h;
    var ps, p := PatternsIn(given, order), PatternOf(given', h);
    assert ps[i].ips != p.ips;
    forall j | 0 <= j < |order| ensures PatternsIn(given', order)[j] == ps[i := p][j] {
      if j != i {
        assert order[j] != h;
      }
    }
    assert PatternsIn(given', order) == ps[i := p];
    OtherElement(ps, i, p);
  }

  // ------------------------------------------------------------------------------------------------
  // The result

  /** Every walk of the configured hosts, and every walk of the wildcards, comes to the same reader. */
  ghost predicate Independent(conf: Conf, rest: seq<Given>) {
    forall walk, walk', r, r' |
      && Walks(walk, conf.Keys) && IsReader(r, GivenAlong(conf, walk) + rest)
      && Walks(walk', conf.Keys) && IsReader(r', GivenAlong(conf, walk') + rest) :: r == r'
  }

  lemma ConsistentSuffices(conf: Conf, rest: seq<Given>, walk: seq<string>)
    requires Walks(walk, conf.Keys) && Consistent(conf) && TextsDecide(GivenAlong(conf, walk) + rest)
    ensures Independent(conf, rest)
  {
    var given := GivenAlong(conf, walk) + rest;
    forall w, r | Walks(w, conf.Keys) && IsReader(r, GivenAlong(conf, w) + rest)
      ensures forall r0 | IsReader(r0, given) :: r == r0
    {
      forall h ensures IPsOf(given, h) == IPsOf(GivenAlong(conf, w) + rest, h) {
        WalksAgree(conf, walk, w, h);
        IPsConcat(GivenAlong(conf, walk), rest, h);
        IPsConcat(GivenAlong(conf, w), rest, h);
      }
      forall r0 | IsReader(r0, given) ensures r == r0 {
        ReadersEqual(r0, given, r, GivenAlong(conf, w) + rest);
      }
    }
    var r0 := ReaderExists(given);
  }

  lemma InconsistentDiffers(conf: Conf, rest: seq<Given>, k: string, l: string)
    requires k in conf && l in conf && Fold(k) == Fold(l) != "" && !Comparable(Dedup(conf[k]), Dedup(conf[l]))
    ensures !Independent(conf, rest)
  {
    var others := TwoWalks(conf, k, l);
    var given, given' := GivenAlong(conf, [k, l] + others) + rest, GivenAlong(conf, [l, k] + others) + rest;
    OthersAgree(conf, k, l, others, rest);
    FirstTwo(conf, k, l, others, rest, Fold(k));
    FirstTwo(conf, l, k, others, rest, Fold(k));
    var r := ReaderExists(given);
    var r' := ReaderExists(given');
    NotCompared(Dedup(conf[k]), Dedup(conf[l]), IPsOf(given, Fold(k)), IPsOf(given', Fold(k)));
    ReadersDiffer(r, given, r', given', Fold(k));
    TwoReaders(conf, rest, [k, l] + others, r, [l, k] + others, r');
  }

  lemma TwoReaders(conf: Conf, rest: seq<Given>, walk: seq<string>, r: HostReader, walk': seq<string>, r': HostReader)
    requires Walks(walk, conf.Keys) && IsReader(r, GivenAlong(conf, walk) + rest)
    requires Walks(walk', conf.Keys) && IsReader(r', GivenAlong(conf, walk') + rest) && r != r'
    ensures !Independent(conf, rest)
  {
  }

  lemma OthersAgree(conf: Conf, k: string, l: string, others: seq<string>, rest: seq<Given>)
    requires k in conf && l in conf && Fold(k) == Fold(l) != "" && forall j | j in others :: j in conf
    ensures (forall j | j in [k, l] + others :: j in conf) && (forall j | j in [l, k] + others :: j in conf)
    ensures forall h | h != Fold(k) ::
              IPsOf(GivenAlong(conf, [k, l] + others) + rest, h) == IPsOf(GivenAlong(conf, [l, k] + others) + rest, h)
  {
    forall h | h != Fold(k)
      ensures IPsOf(GivenAlong(conf, [k, l] + others) + rest, h) == IPsOf(GivenAlong(conf, [l, k] + others) + rest, h)
    {
      FirstTwo(conf, k, l, others, rest, h);
      FirstTwo(conf, l, k, others, rest, h);
    }
  }

  lemma NotCompared(x: seq<HostIP>, y: seq<HostIP>, a: seq<HostIP>, b: seq<HostIP>)
    requires x <= a && y <= b && !Comparable(x, y)
    ensures a != b && a != [] && b != []
  {
    if a == b {
      FrontsCompare(x, y, a);
    }
  }

  lemma TwoWalks(conf: Conf, k: string, l: string) returns (others: seq<string>)
    requires k in conf && l in conf && k != l
    ensures (forall j | j in others :: j in conf)
    ensures Walks([k, l] + others, conf.Keys) && Walks([l, k] + others, conf.Keys)
  {
    others := Listing(conf.Keys - {k, l});
  }

  /**
   The reader is the same for every order in which the configured hosts and the wildcards are walked if and only if any
   two keys of one host give it lists of which one is the front of the other, and equal texts come with equal addresses.
   */
  lemma IndependentIff(conf: Conf, rest: seq<Given>, walk: seq<string>)
    requires Walks(walk, conf.Keys)
    ensures Independent(conf, rest) <==> Consistent(conf) && TextsDecide(GivenAlong(conf, walk) + rest)
  {
    if Consistent(conf) && TextsDecide(GivenAlong(conf, walk) + rest) {
      ConsistentSuffices(conf, rest, walk);
    }
    if Independent(conf, rest) {
      if !Consistent(conf) {
        var k, l :| k in conf && l in conf && Fold(k) == Fold(l) && Fold(k) != ""
                    && !Comparable(Dedup(conf[k]), Dedup(conf[l]));
        InconsistentDiffers(conf, rest, k, l);
      }
      UndecidedDiffers(conf, rest, walk);
    }
  }

  lemma UndecidedDiffers(conf: Conf, rest: seq<Given>, walk: seq<string>)
    requires Walks(walk, conf.Keys) && Independent(conf, rest)
    ensures TextsDecide(GivenAlong(conf, walk) + rest)
  {
    var given := GivenAlong(conf, walk) + rest;
    var r := ReaderExists(given);
    var order :| Lists(order, given) && IsTable(r.patterns, given, order);
    OrderIndependentIff(r.patterns, given, order);
    forall qs, order' | Lists(order', given) && IsTable(qs, given, order') ensures qs == r.patterns {
      assert IsReader(HostReader(r.domainMap, qs), given);
    }
  }

  /** Keys that differ in case alone are such a pair: with different addresses the walk decides which comes first. */
  lemma CaseMattersToWalk(x: HostIP, y: HostIP, rest: seq<Given>)
    requires x != y
    ensures !Independent(map["*.A" := [x], "*.a" := [y]], rest)
  {
    var conf := map["*.A" := [x], "*.a" := [y]];
    FoldsOfCase();
    OneAddress(x);
    OneAddress(y);
    InconsistentDiffers(conf, rest, "*.A", "*.a");
  }

  lemma FoldsOfCase()
    ensures Fold("*.A") == "*.a" && Fold("*.a") == "*.a"
  {
    assert !IsSpace('*') && !IsSpace('A') && !IsSpace('a');
    assert "*.A"[0] == '*' && "*.A"[2] == 'A' && "*.a"[0] == '*' && "*.a"[2] == 'a';
    assert TrimSpace("*.A") == "*.A" && TrimSpace("*.a") == "*.a";
    assert ToLower("*.A")[0] == '*' && ToLower("*.A")[1] == '.' && ToLower("*.A")[2] == 'a';
    assert ToLower("*.a")[0] == '*' && ToLower("*.a")[1] == '.' && ToLower("*.a")[2] == 'a';
    assert ToLower("*.A") == ToLower("*.a") == "*.a";
  }

  lemma OneAddress(x: HostIP)
    ensures Dedup([x]) == [x]
  {
    var none: seq<HostIP> := [];
    assert [x][..0] == none && Merge(none, none) == none;
  }

  // ------------------------------------------------------------------------------------------------
  // Files and lines, in order

  lemma {:induction false} LinesAreGathered(lines: seq<string>, parse: string -> Option<RRType>)
    ensures GivenByLines(lines, parse) == Gathered(lines, (line: string) => GivenByLine(line, parse))
  {
    if lines != [] {
      LinesAreGathered(lines[..|lines| - 1], parse);
    }
  }

  lemma LinesInOrder(a: seq<string>, b: seq<string>, parse: string -> Option<RRType>)
    ensures GivenByLines(a + b, parse) == GivenByLines(a, parse) + GivenByLines(b, parse)
  {
    LinesAreGathered(a + b, parse);
    LinesAreGathered(a, parse);
    LinesAreGathered(b, parse);
    GatheredConcat(a, b, (line: string) => GivenByLine(line, parse));
  }

  function GivenByFile(file: HostsFile, parse: string -> Option<RRType>): seq<Given> {
    if file.Opened? then GivenByLines(file.lines, parse) else []
  }

  lemma {:induction false} FilesInOrder(a: seq<HostsFile>, b: seq<HostsFile>, parse: string -> Option<RRType>)
    ensures GivenByFiles(a + b, parse) == GivenByFiles(a, parse) + GivenByFiles(b, parse)
    ensures |b| == 1 ==> GivenByFiles(b, parse) == GivenByFile(b[0], parse)
  {
    if b == [] {
      assert a + b == a;
    } else {
      var front, last := b[..|b| - 1], b[|b| - 1];
      FilesInOrder(a, front, parse);
      assert (a + b)[..|a + b| - 1] == a + front;
      Regrouped(GivenByFiles(a, parse), GivenByFiles(front, parse), GivenByFile(last, parse));
    }
  }

  /** Files load if each is opened and read to its end, and each of its lines loads. */
  lemma FilesLoadIff(files: seq<HostsFile>, parse: string -> Option<RRType>)
    ensures FilesLoad(files, parse) <==>
              forall file | file in files ::
                file.Opened? && file.intact && forall line | line in file.lines :: LineLoads(line, parse)
  {
    forall file | file in files && file.Opened?
      ensures LinesLoad(file.lines, parse) <==> forall line | line in file.lines :: LineLoads(line, parse)
    {
      LinesLoadIff(file.lines, parse);
    }
    if FilesLoad(files, parse) {
      forall file | file in files ensures FileLoads(file, parse) {
        var i :| 0 <= i < |files| && files[i] == file;
      }
    } else {
      var i :| 0 <= i < |files| && !FileLoads(files[i], parse);
      assert files[i] in files;
    }
  }

  lemma LinesLoadIff(lines: seq<string>, parse: string -> Option<RRType>)
    ensures LinesLoad(lines, parse) <==> forall line | line in lines :: LineLoads(line, parse)
  {
    if LinesLoad(lines, parse) {
      forall line | line in lines ensures LineLoads(line, parse) {
        var i :| 0 <= i < |lines| && lines[i] == line;
      }
    } else {
      var i :| 0 <= i < |lines| && !LineLoads(lines[i], parse);
      assert lines[i] in lines;
    }
  }
}
