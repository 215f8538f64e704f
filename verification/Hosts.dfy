/**
 The hosts tables of hosts/hosts.go: how entries build them, the sorted table of wildcards, and lookup. `parse` is what
 net.ParseIP makes of a text: the kind of address, or None.
 */
module Hosts {
  import opened Options
  import opened Messages
  import opened Permutations
  import opened Regexps
  import opened Sorting
  import opened Texts
  import opened Wildcards

  datatype HostIP = HostIP(val: string, kind: RRType)

  datatype Pattern = Pattern(pattern: string, reg: Re, ips: seq<HostIP>)

  predicate IsWildcard(host: string) {
    '*' in host || '?' in host
  }

  /** One address given to one host. */
  datatype Given = Given(host: string, ip: HostIP)

  /** The addresses given to a host, each once, in the order first given. */
  function IPsOf(given: seq<Given>, host: string): seq<HostIP> {
    if given == [] then []
    else
      var front, g := IPsOf(given[..|given| - 1], host), given[|given| - 1];
      if g.host == host && g.ip !in front then front + [g.ip] else front
  }

  function PatternOf(given: seq<Given>, host: string): Pattern {
    var reg := Compile("^" + Translate(host) + "$");
    Pattern(Translate(host), if reg.Some? then reg.value else Empty, IPsOf(given, host))
  }

  // ------------------------------------------------------------------------------------------------
  // Building the tables

  /** Each host that was given addresses, with all of them. */
  ghost predicate ExactTable(table: map<string, seq<HostIP>>, given: seq<Given>) {
    && (forall h :: h in table <==> !IsWildcard(h) && IPsOf(given, h) != [])
    && (forall h | h in table :: table[h] == IPsOf(given, h))
  }

  ghost predicate PatternTable(table: map<string, Pattern>, given: seq<Given>) {
    && (forall h :: h in table <==> IsWildcard(h) && IPsOf(given, h) != [])
    && (forall h | h in table :: table[h] == PatternOf(given, h))
  }

  /** The two tables after entries have given addresses one by one. */
  function DomainMapOf(given: seq<Given>): map<string, seq<HostIP>> {
    if given == [] then map[]
    else
      var table, g := DomainMapOf(given[..|given| - 1]), given[|given| - 1];
      if IsWildcard(g.host) then table else ExactWith(table, g)
  }

  function ExactWith(table: map<string, seq<HostIP>>, g: Given): map<string, seq<HostIP>> {
    var ips := if g.host in table then table[g.host] else [];
    if g.ip in ips then table else table[g.host := ips + [g.ip]]
  }

  function PatternMapOf(given: seq<Given>): map<string, Pattern> {
    if given == [] then map[]
    else
      var table, g := PatternMapOf(given[..|given| - 1]), given[|given| - 1];
      if IsWildcard(g.host) then PatternsWith(table, g) else table
  }

  function PatternsWith(table: map<string, Pattern>, g: Given): map<string, Pattern> {
    if g.host !in table then table[g.host := PatternOf([], g.host).(ips := [g.ip])]
    else if g.ip in table[g.host].ips then table
    else table[g.host := table[g.host].(ips := table[g.host].ips + [g.ip])]
  }

  lemma FirstPattern(host: string, reg: Re, ip: HostIP)
    requires Compile("^" + Translate(host) + "$") == Some(reg)
    ensures PatternOf([], host).(ips := [ip]) == Pattern(Translate(host), reg, [ip])
  {
  }

  lemma OneMoreGiven(given: seq<Given>, g: Given)
    ensures DomainMapOf(given + [g])
         == if IsWildcard(g.host) then DomainMapOf(given) else ExactWith(DomainMapOf(given), g)
    ensures PatternMapOf(given + [g])
         == if IsWildcard(g.host) then PatternsWith(PatternMapOf(given), g) else PatternMapOf(given)
  {
    assert (given + [g])[..|given|] == given;
  }

  lemma ExactStep(table: map<string, seq<HostIP>>, given: seq<Given>, g: Given)
    requires ExactTable(table, given)
    ensures ExactTable(if IsWildcard(g.host) then table else ExactWith(table, g), given + [g])
  {
    GivenOneMore(given, g);
  }

  lemma PatternOneMore(given: seq<Given>, g: Given, h: string)
    ensures PatternOf(given + [g], h) == PatternOf(given, h).(ips := IPsOf(given + [g], h))
    ensures h != g.host ==> PatternOf(given + [g], h) == PatternOf(given, h)
    ensures PatternOf(given, h) == PatternOf([], h).(ips := IPsOf(given, h))
  {
    GivenOneMore(given, g);
  }

  lemma PatternStep(table: map<string, Pattern>, given: seq<Given>, g: Given)
    requires PatternTable(table, given)
    ensures PatternTable(if IsWildcard(g.host) then PatternsWith(table, g) else table, given + [g])
  {
    var now := if IsWildcard(g.host) then PatternsWith(table, g) else table;
    forall h
      ensures h in now <==> IsWildcard(h) && IPsOf(given + [g], h) != []
      ensures h in now ==> now[h] == PatternOf(given + [g], h)
    {
      PatternStepAt(table, given, g, h);
    }
  }

  lemma PatternStepAt(table: map<string, Pattern>, given: seq<Given>, g: Given, h: string)
    requires PatternTable(table, given)
    ensures var now := if IsWildcard(g.host) then PatternsWith(table, g) else table;
            && (h in now <==> IsWildcard(h) && IPsOf(given + [g], h) != [])
            && (h in now ==> now[h] == PatternOf(given + [g], h))
  {
    GivenOneMore(given, g);
    PatternOneMore(given, g, h);
    assert h in table <==> IsWildcard(h) && IPsOf(given, h) != [];
    assert h in table ==> table[h] == PatternOf(given, h);
  }

  /** They hold, for each host, all its addresses once, in the order first given. */
  lemma {:induction false} TablesAre(given: seq<Given>)
    ensures ExactTable(DomainMapOf(given), given) && PatternTable(PatternMapOf(given), given)
  {
    if given != [] {
      var front, g := given[..|given| - 1], given[|given| - 1];
      TablesAre(front);
      ExactStep(DomainMapOf(front), front, g);
      PatternStep(PatternMapOf(front), front, g);
      assert given == front + [g];
    }
  }

  /** The map of wildcards, walked in some order. */
  method ListPatterns(table: map<string, Pattern>) returns (list: seq<Pattern>, ghost order: seq<string>)
    ensures Distinct(order) && forall h :: h in order <==> h in table
    ensures |list| == |order| && forall i | 0 <= i < |order| :: list[i] == table[order[i]]
  {
    list, order := [], [];
    var todo := table.Keys;
    while todo != {}
      invariant todo <= table.Keys && Distinct(order)
      invariant forall h :: h in order <==> h in table && h !in todo
      invariant |list| == |order| && forall i | 0 <= i < |order| :: order[i] in table && list[i] == table[order[i]]
    {
      var h :| h in todo;
      list := list + [table[h]];
      order := order + [h];
      todo := todo - {h};
    }
  }

  class HostTables {
    var domainMap: map<string, seq<HostIP>>
    var patternMap: map<string, Pattern>
    ghost var given: seq<Given>

    ghost predicate Valid()
      reads this
    {
      domainMap == DomainMapOf(given) && patternMap == PatternMapOf(given)
    }

    constructor ()
      ensures Valid() && given == []
    {
      domainMap, patternMap, given := map[], map[], [];
    }

    method AddDomainIP(host: string, ip: HostIP)
      requires Valid() && !IsWildcard(host)
      modifies this
      ensures Valid() && given == old(given) + [Given(host, ip)]
    {
      OneMoreGiven(given, Given(host, ip));
      var ips := if host in domainMap then domainMap[host] else [];
      if ip !in ips {
        domainMap := domainMap[host := ips + [ip]];
      }
      given := given + [Given(host, ip)];
    }

    method AddPatternIP(host: string, reg: Re, ip: HostIP)
      requires Valid() && IsWildcard(host) && Compile("^" + Translate(host) + "$") == Some(reg)
      modifies this
      ensures Valid() && given == old(given) + [Given(host, ip)]
    {
      OneMoreGiven(given, Given(host, ip));
      FirstPattern(host, reg, ip);
      if host in patternMap {
        var p := patternMap[host];
        if ip !in p.ips {
          patternMap := patternMap[host := p.(ips := p.ips + [ip])];
        }
      } else {
        patternMap := patternMap[host := Pattern(Translate(host), reg, [ip])];
      }
      given := given + [Given(host, ip)];
    }

    /** One address for one host, wildcard or not; false when the expression does not compile. */
    method AddHost(host: string, ip: HostIP) returns (ok: bool)
      requires Valid()
      modifies this
      ensures Valid() && ok == (IsWildcard(host) ==> Compile("^" + Translate(host) + "$").Some?)
      ensures given == old(given) + if ok then [Given(host, ip)] else []
    {
      if !IsWildcard(host) {
        AddDomainIP(host, ip);
        return true;
      }
      var reg := Compile("^" + Translate(host) + "$");
      if reg.None? {
        return false;
      }
      AddPatternIP(host, reg.value, ip);
      return true;
    }

    /** Several addresses, as they are written, for one folded host; false is an error. */
    method AddTexts(host: string, texts: seq<string>, parse: string -> Option<RRType>) returns (ok: bool)
      requires Valid()
      modifies this
      ensures Valid()
      ensures ok == AllLoad(host, texts, parse)
      ensures ok ==> given == old(given) + GivenTo(host, ParsedAll(texts, parse))
    {
      var i := 0;
      ghost var done: seq<Given> := [];
      while i < |texts|
        invariant 0 <= i <= |texts| && Valid()
        invariant AllLoad(host, texts[..i], parse)
        invariant done == GivenTo(host, ParsedAll(texts[..i], parse)) && given == old(given) + done
      {
        OneMoreLoads(host, texts, parse, i);
        var kind := parse(texts[i]);
        if kind.None? {
          return false;
        }
        OneMoreText(host, texts, parse, i);
        ghost var more := [Given(host, HostIP(texts[i], kind.value))];
        Regrouped(old(given), done, more);
        ok := AddHost(host, HostIP(texts[i], kind.value));
        if !ok {
          return false;
        }
        done := done + more;
        i := i + 1;
      }
      Whole(texts);
      return true;
    }

    /** All texts of an entry, each a list of addresses. */
    method AddRaws(host: string, raws: seq<string>, parse: string -> Option<RRType>) returns (ok: bool)
      requires Valid()
      modifies this
      ensures Valid() && ok == RawsLoad(host, raws, parse)
      ensures ok ==> given == old(given) + GivenTo(host, AddressesOf(raws, parse))
    {
      var i := 0;
      ghost var done: seq<Given> := [];
      while i < |raws|
        invariant 0 <= i <= |raws| && Valid()
        invariant RawsLoad(host, raws[..i], parse)
        invariant done == GivenTo(host, AddressesOf(raws[..i], parse)) && given == old(given) + done
      {
        OneMoreRaw(host, raws, parse, i);
        OneMoreRawLoads(host, raws, parse, i);
        ghost var more := GivenTo(host, ParsedAll(SplitIPs(raws[i]), parse));
        Regrouped(old(given), done, more);
        ok := AddTexts(host, SplitIPs(raws[i]), parse);
        if !ok {
          return false;
        }
        done := done + more;
        i := i + 1;
      }
      Whole(raws);
      return true;
    }

    /** One entry: a host and its addresses, several to a text. False is an error; the tables are then not used. */
    method Load(host: string, raws: seq<string>, parse: string -> Option<RRType>) returns (ok: bool)
      requires Valid()
      modifies this
      ensures Valid() && ok == LoadsWell(host, raws, parse)
      ensures ok ==> given == old(given) + GivenBy(host, AddressesOf(raws, parse))
    {
      var h := Fold(host);
      if h == "" {
        return true;
      }
      ok := AddRaws(h, raws, parse);
    }

    /** One address for the host a word stands for, if it stands for any. */
    method AddKey(ip: HostIP, key: string) returns (ok: bool)
      requires Valid()
      modifies this
      ensures Valid() && ok == KeyLoads(key)
      ensures ok ==> given == old(given) + GivenBy(key, [ip])
    {
      var h := Fold(key);
      if h == "" {
        return true;
      }
      assert GivenTo(h, [ip]) == [Given(h, ip)];
      ok := AddHost(h, ip);
    }

    /** The rest of a line that starts with an address: hosts, each given that one. */
    method AddHosts(ip: HostIP, hosts: seq<string>) returns (ok: bool)
      requires Valid()
      modifies this
      ensures Valid() && ok == KeysLoad(hosts)
      ensures ok ==> given == old(given) + GivenEach(ip, hosts)
    {
      var i := 0;
      ghost var done: seq<Given> := [];
      while i < |hosts|
        invariant 0 <= i <= |hosts| && Valid() && KeysLoad(hosts[..i])
        invariant done == GivenEach(ip, hosts[..i]) && given == old(given) + done
      {
        OneMoreHost(ip, hosts, i);
        Regrouped(old(given), done, GivenBy(hosts[i], [ip]));
        ok := AddKey(ip, hosts[i]);
        if !ok {
          return false;
        }
        done := done + GivenBy(hosts[i], [ip]);
        i := i + 1;
      }
      Whole(hosts);
      return true;
    }

    /** One line of a hosts file: a comment, an address with hosts, or a host with addresses. */
    method LoadLine(text: string, parse: string -> Option<RRType>) returns (ok: bool)
      requires Valid()
      modifies this
      ensures Valid() && ok == LineLoads(text, parse)
      ensures ok ==> given == old(given) + GivenByLine(text, parse)
    {
      var line := TrimSpace(text);
      if HasPrefix(line, "#") || HasPrefix(line, "//") {
        return true;
      }
      var parts := Fields(line, IsSpace);
      if |parts| < 2 {
        return true;
      }
      var kind := parse(parts[0]);
      if kind.Some? {
        ok := AddHosts(HostIP(parts[0], kind.value), parts[1..]);
        return;
      }
      ok := Load(parts[0], parts[1..], parse);
    }

    /** The table of wildcards, listed and sorted. */
    method Build() returns (r: HostReader, ghost order: seq<string>)
      requires Valid()
      ensures r.domainMap == domainMap && Lists(order, given) && IsTable(r.patterns, given, order)
    {
      var list;
      TablesAre(given);
      list, order := ListPatterns(patternMap);
      Listed(patternMap, given, order, list);
      BeforeIsOrder();
      var patterns := SortSlice(list, Before);
      r := HostReader(domainMap, patterns);
    }
  }

  lemma Listed(table: map<string, Pattern>, given: seq<Given>, order: seq<string>, list: seq<Pattern>)
    requires PatternTable(table, given) && Distinct(order) && forall h :: h in order <==> h in table
    requires |list| == |order| && forall i | 0 <= i < |order| :: order[i] in table && list[i] == table[order[i]]
    ensures Lists(order, given) && list == PatternsIn(given, order)
  {
  }

  // ------------------------------------------------------------------------------------------------
  // What the texts of entries and lines give

  /** The host an entry's key stands for. */
  function Fold(key: string): string {
    ToLower(TrimSpace(key))
  }

  function SplitIPs(raw: string): seq<string> {
    Fields(raw, c => IsSpace(c) || c == ',')
  }

  predicate HostCompiles(host: string) {
    IsWildcard(host) ==> Compile("^" + Translate(host) + "$").Some?
  }

  /** The addresses that parse, in order. */
  function ParsedAll(texts: seq<string>, parse: string -> Option<RRType>): seq<HostIP> {
    if texts == [] then []
    else
      var front, kind := ParsedAll(texts[..|texts| - 1], parse), parse(texts[|texts| - 1]);
      if kind.Some? then front + [HostIP(texts[|texts| - 1], kind.value)] else front
  }

  function AddressesOf(raws: seq<string>, parse: string -> Option<RRType>): seq<HostIP> {
    if raws == [] then []
    else AddressesOf(raws[..|raws| - 1], parse) + ParsedAll(SplitIPs(raws[|raws| - 1]), parse)
  }

  function GivenTo(host: string, ips: seq<HostIP>): (r: seq<Given>)
    ensures |r| == |ips| && forall i | 0 <= i < |ips| :: r[i] == Given(host, ips[i])
  {
    seq(|ips|, i requires 0 <= i < |ips| => Given(host, ips[i]))
  }

  /** What an entry gives: nothing when its key is blank. */
  function GivenBy(key: string, ips: seq<HostIP>): seq<Given> {
    if Fold(key) == "" then [] else GivenTo(Fold(key), ips)
  }

  function GivenEach(ip: HostIP, hosts: seq<string>): seq<Given> {
    if hosts == [] then []
    else GivenEach(ip, hosts[..|hosts| - 1]) + GivenBy(hosts[|hosts| - 1], [ip])
  }

  predicate KeyLoads(key: string) {
    Fold(key) != "" ==> HostCompiles(Fold(key))
  }

  predicate KeysLoad(keys: seq<string>) {
    forall i | 0 <= i < |keys| :: KeyLoads(keys[i])
  }

  predicate AllLoad(host: string, texts: seq<string>, parse: string -> Option<RRType>) {
    forall i | 0 <= i < |texts| :: parse(texts[i]).Some? && HostCompiles(host)
  }

  predicate RawsLoad(host: string, raws: seq<string>, parse: string -> Option<RRType>) {
    forall k | 0 <= k < |raws| :: AllLoad(host, SplitIPs(raws[k]), parse)
  }

  lemma OneMoreLoads(host: string, texts: seq<string>, parse: string -> Option<RRType>, i: nat)
    requires i < |texts| && AllLoad(host, texts[..i], parse)
    ensures AllLoad(host, texts[..i + 1], parse) <==> parse(texts[i]).Some? && HostCompiles(host)
    ensures AllLoad(host, texts, parse) ==> parse(texts[i]).Some? && HostCompiles(host)
  {
    var upto := texts[..i + 1];
    assert upto[i] == texts[i] && forall k | 0 <= k < i :: upto[k] == texts[..i][k];
  }

  lemma OneMoreRawLoads(host: string, raws: seq<string>, parse: string -> Option<RRType>, i: nat)
    requires i < |raws| && RawsLoad(host, raws[..i], parse)
    ensures RawsLoad(host, raws[..i + 1], parse) <==> AllLoad(host, SplitIPs(raws[i]), parse)
    ensures RawsLoad(host, raws, parse) ==> AllLoad(host, SplitIPs(raws[i]), parse)
  {
    var upto := raws[..i + 1];
    assert upto[i] == raws[i] && forall k | 0 <= k < i :: upto[k] == raws[..i][k];
  }

  /** An entry loads when its addresses parse and, if it has any and its host is a wildcard, that compiles. */
  predicate LoadsWell(key: string, raws: seq<string>, parse: string -> Option<RRType>) {
    Fold(key) != "" ==> RawsLoad(Fold(key), raws, parse)
  }

  predicate LineLoads(text: string, parse: string -> Option<RRType>) {
    var line := TrimSpace(text);
    var parts := Fields(line, IsSpace);
    HasPrefix(line, "#") || HasPrefix(line, "//") || |parts| < 2
    || if parse(parts[0]).Some? then
         KeysLoad(parts[1..])
       else LoadsWell(parts[0], parts[1..], parse)
  }

  function GivenByLine(text: string, parse: string -> Option<RRType>): seq<Given> {
    var line := TrimSpace(text);
    var parts := Fields(line, IsSpace);
    if HasPrefix(line, "#") || HasPrefix(line, "//") || |parts| < 2 then []
    else
      match parse(parts[0])
      case Some(kind) => GivenEach(HostIP(parts[0], kind), parts[1..])
      case None => GivenBy(parts[0], AddressesOf(parts[1..], parse))
  }

  lemma Whole<T>(s: seq<T>)
    ensures s[..|s|] == s
  {
  }

  lemma OneMoreHost(ip: HostIP, hosts: seq<string>, i: nat)
    requires i < |hosts|
    ensures GivenEach(ip, hosts[..i + 1]) == GivenEach(ip, hosts[..i]) + GivenBy(hosts[i], [ip])
    ensures KeysLoad(hosts[..i]) && KeyLoads(hosts[i]) ==> KeysLoad(hosts[..i + 1])
    ensures KeysLoad(hosts) ==> KeyLoads(hosts[i])
  {
    assert hosts[..i + 1][..i] == hosts[..i];
  }

  lemma OneMoreText(host: string, texts: seq<string>, parse: string -> Option<RRType>, i: nat)
    requires i < |texts| && parse(texts[i]).Some?
    ensures GivenTo(host, ParsedAll(texts[..i + 1], parse))
         == GivenTo(host, ParsedAll(texts[..i], parse)) + [Given(host, HostIP(texts[i], parse(texts[i]).value))]
  {
    assert texts[..i + 1][..i] == texts[..i];
  }

  lemma OneMoreRaw(host: string, raws: seq<string>, parse: string -> Option<RRType>, i: nat)
    requires i < |raws|
    ensures GivenTo(host, AddressesOf(raws[..i + 1], parse))
         == GivenTo(host, AddressesOf(raws[..i], parse)) + GivenTo(host, ParsedAll(SplitIPs(raws[i]), parse))
  {
    assert raws[..i + 1][..i] == raws[..i];
  }

  lemma GivenOneMore(given: seq<Given>, g: Given)
    ensures forall h :: IPsOf(given + [g], h)
                     == if g.host == h && g.ip !in IPsOf(given, h) then IPsOf(given, h) + [g.ip] else IPsOf(given, h)
  {
    assert (given + [g])[..|given|] == given;
  }

  // ------------------------------------------------------------------------------------------------
  // The sorted table

  /** Longer translated text first, then the lesser text. */
  predicate Before(p: Pattern, q: Pattern) {
    if |p.pattern| != |q.pattern| then |p.pattern| > |q.pattern| else LessText(p.pattern, q.pattern)
  }

  lemma BeforeIsOrder()
    ensures StrictWeak(Before)
  {
    forall p: Pattern ensures !Before(p, p) {
      LessTextTotal(p.pattern, p.pattern);
    }
    forall p: Pattern, q: Pattern, r: Pattern | Before(p, q) && Before(q, r) ensures Before(p, r) {
      if |p.pattern| == |q.pattern| == |r.pattern| {
        LessTextTransitive(p.pattern, q.pattern, r.pattern);
      }
    }
    forall p: Pattern, q: Pattern, r: Pattern | !Before(p, q) && !Before(q, r) ensures !Before(p, r) {
      LessTextTotal(p.pattern, q.pattern);
      LessTextTotal(q.pattern, r.pattern);
      LessTextTotal(p.pattern, r.pattern);
      if |p.pattern| == |q.pattern| == |r.pattern| && p.pattern != q.pattern && q.pattern != r.pattern {
        LessTextTransitive(r.pattern, q.pattern, p.pattern);
      }
    }
  }

  ghost predicate HasWildcard(given: seq<Given>, host: string) {
    IsWildcard(host) && IPsOf(given, host) != []
  }

  /** An order in which the iteration over the map can list the wildcards. */
  ghost predicate Lists(order: seq<string>, given: seq<Given>) {
    Distinct(order) && forall h :: h in order <==> HasWildcard(given, h)
  }

  function PatternsIn(given: seq<Given>, order: seq<string>): (r: seq<Pattern>)
    ensures |r| == |order| && forall i | 0 <= i < |order| :: r[i] == PatternOf(given, order[i])
  {
    seq(|order|, i requires 0 <= i < |order| => PatternOf(given, order[i]))
  }

  ghost predicate IsTable(patterns: seq<Pattern>, given: seq<Given>, order: seq<string>) {
    Sorted(patterns, Before) && multiset(patterns) == multiset(PatternsIn(given, order))
  }

  /** Wildcards with the same expression text have the same addresses too. */
  ghost predicate TextsDecide(given: seq<Given>) {
    forall g, h | HasWildcard(given, g) && HasWildcard(given, h) && Translate(g) == Translate(h) ::
      PatternOf(given, g) == PatternOf(given, h)
  }

  lemma TableHas(patterns: seq<Pattern>, given: seq<Given>, order: seq<string>, p: Pattern)
    requires Lists(order, given) && IsTable(patterns, given, order)
    ensures p in patterns <==> exists h :: HasWildcard(given, h) && p == PatternOf(given, h)
  {
    var list := PatternsIn(given, order);
    assert p in patterns <==> p in multiset(patterns);
    assert p in list <==> p in multiset(list);
    if p in list {
      var i :| 0 <= i < |list| && list[i] == p;
      assert order[i] in order && HasWildcard(given, order[i]);
    }
    if h :| HasWildcard(given, h) && p == PatternOf(given, h) {
      assert h in order;
      var i :| 0 <= i < |order| && order[i] == h;
      assert list[i] == p;
    }
  }

  lemma TableSeparates(patterns: seq<Pattern>, given: seq<Given>, order: seq<string>)
    requires Lists(order, given) && IsTable(patterns, given, order) && TextsDecide(given)
    ensures Separates(patterns, Before)
  {
    forall p: Pattern, q: Pattern | p in patterns && q in patterns ensures p == q || Before(p, q) || Before(q, p) {
      TableHas(patterns, given, order, p);
      TableHas(patterns, given, order, q);
      LessTextTotal(p.pattern, q.pattern);
    }
  }

  /** Two tables built from the same entries, or from entries that give each host the same addresses, are equal. */
  lemma TableUnique(ps: seq<Pattern>, given: seq<Given>, order: seq<string>,
                    qs: seq<Pattern>, given': seq<Given>, order': seq<string>)
    requires Lists(order, given) && IsTable(ps, given, order) && Lists(order', given') && IsTable(qs, given', order')
    requires TextsDecide(given) && forall h :: IPsOf(given, h) == IPsOf(given', h)
    ensures ps == qs
  {
    DistinctPermutes(order, order');
    AlikePermute(order, PatternsIn(given, order), order', PatternsIn(given', order'));
    TableSeparates(ps, given, order);
    BeforeIsOrder();
    SortedUnique(ps, qs, Before);
  }

  /** The table does not depend on the order of iteration exactly when texts decide. */
  lemma OrderIndependentIff(ps: seq<Pattern>, given: seq<Given>, order: seq<string>)
    requires Lists(order, given) && IsTable(ps, given, order)
    ensures TextsDecide(given) <==> forall qs, order' | Lists(order', given) && IsTable(qs, given, order') :: qs == ps
  {
    if TextsDecide(given) {
      forall qs, order' | Lists(order', given) && IsTable(qs, given, order') ensures qs == ps {
        TableUnique(ps, given, order, qs, given, order');
      }
    } else {
      var g, h :| HasWildcard(given, g) && HasWildcard(given, h) && Translate(g) == Translate(h)
                  && PatternOf(given, g) != PatternOf(given, h);
      var qs := TiedTables(ps, given, order, g, h);
      assert IsTable(qs, given, order);
    }
  }

  lemma TiedTables(ps: seq<Pattern>, given: seq<Given>, order: seq<string>, g: string, h: string)
    returns (qs: seq<Pattern>)
    requires Lists(order, given) && IsTable(ps, given, order)
    requires HasWildcard(given, g) && HasWildcard(given, h) && Translate(g) == Translate(h)
    requires PatternOf(given, g) != PatternOf(given, h)
    ensures IsTable(qs, given, order) && qs != ps
  {
    TableHas(ps, given, order, PatternOf(given, g));
    TableHas(ps, given, order, PatternOf(given, h));
    var i :| 0 <= i < |ps| && ps[i] == PatternOf(given, g);
    var j :| 0 <= j < |ps| && ps[j] == PatternOf(given, h);
    BeforeIsOrder();
    LessTextTotal(Translate(g), Translate(g));
    if i < j {
      SwapTied(ps, i, j, Before);
      qs := ps[i := ps[j]][j := ps[i]];
    } else {
      SwapTied(ps, j, i, Before);
      qs := ps[j := ps[i]][i := ps[j]];
    }
    assert qs[i] == ps[j];
  }

  /** Said without the expressions: wildcards that agree once every `\?` is a dot were given the same addresses. */
  lemma TextsDecideIff(given: seq<Given>)
    ensures TextsDecide(given) <==>
            forall g, h | HasWildcard(given, g) && HasWildcard(given, h) && Plainer(g) == Plainer(h) ::
              IPsOf(given, g) == IPsOf(given, h)
  {
    forall g, h | HasWildcard(given, g) && HasWildcard(given, h)
      ensures Translate(g) == Translate(h) <==> Plainer(g) == Plainer(h)
      ensures Translate(g) == Translate(h) ==>
                (PatternOf(given, g) == PatternOf(given, h) <==> IPsOf(given, g) == IPsOf(given, h))
    {
      TextsCollideIff(g, h);
    }
  }

  /** So without backslashes, or without question marks, in a wildcard, texts always decide. */
  lemma PlainTextsDecide(given: seq<Given>)
    requires forall h | HasWildcard(given, h) :: '\\' !in h || '?' !in h
    ensures TextsDecide(given)
  {
    forall h | HasWildcard(given, h) ensures Plainer(h) == h {
      PlainerIsSame(h);
    }
    TextsDecideIff(given);
  }

  /** With both they need not: these two entries leave it to the iteration which address a query gets. */
  lemma BackslashLeavesOrderOpen(a: HostIP, b: HostIP)
    requires a != b
    ensures !TextsDecide([Given("*\\?", a), Given("*.", b)])
  {
    BackslashCollides();
    assert "*\\?"[0] == '*' && "*."[0] == '*';
    TiedTexts("*\\?", a, "*.", b);
  }

  lemma TiedTexts(g: string, a: HostIP, h: string, b: HostIP)
    requires IsWildcard(g) && IsWildcard(h) && g != h && Translate(g) == Translate(h) && a != b
    ensures !TextsDecide([Given(g, a), Given(h, b)])
  {
    var given := [Given(g, a), Given(h, b)];
    TwoGiven(g, a, h, b);
    assert HasWildcard(given, g) && HasWildcard(given, h);
    assert PatternOf(given, g).ips[0] != PatternOf(given, h).ips[0];
  }

  lemma TwoGiven(g: string, a: HostIP, h: string, b: HostIP)
    requires g != h
    ensures IPsOf([Given(g, a), Given(h, b)], g) == [a] && IPsOf([Given(g, a), Given(h, b)], h) == [b]
  {
    var one := [Given(g, a)];
    assert [Given(g, a), Given(h, b)][..1] == one && one[..0] == [];
    assert IPsOf([], g) == [] && IPsOf([], h) == [];
    assert IPsOf(one, g) == [a] && IPsOf(one, h) == [];
  }

  // ------------------------------------------------------------------------------------------------
  // Lookup

  /** The first pattern of the list that matches. */
  function FirstMatch(patterns: seq<Pattern>, host: string): Option<Pattern> {
    if patterns == [] then None
    else if MatchString(patterns[0].reg, host) then Some(patterns[0])
    else FirstMatch(patterns[1..], host)
  }

  /** Whether the record of an address under a host can be built from its text. */
  type Builds = (string, HostIP) -> bool

  datatype HostReader = HostReader(domainMap: map<string, seq<HostIP>>, patterns: seq<Pattern>) {

    /** One pass: the exact entry, else the first pattern. */
    function Find(host: string): Option<seq<HostIP>> {
      if host in domainMap then Some(domainMap[host])
      else
        match FirstMatch(patterns, host)
        case None => None
        case Some(p) => Some(p.ips)
    }

    /** A dotted name is tried as it stands, then without its dot. */
    function FindDotted(host: string): Option<seq<HostIP>> {
      if Find(host).None? && HasSuffix(host, ".") then Find(host[..|host| - 1]) else Find(host)
    }

    /** The answer to one question; None when the hosts do not answer it. */
    function Answer(q: Question, builds: Builds): Option<seq<RRVal>> {
      var host := ToLower(q.name);
      if Wanted(q.qtype).None? || FindDotted(host).None? then None
      else
        var records := Records(host, FindDotted(host).value, Wanted(q.qtype).value, builds);
        if records == [] then None else Some(records)
    }

    method GetIPs(host: string) returns (r: Option<seq<HostIP>>)
      ensures r == Find(host)
    {
      if host in domainMap {
        return Some(domainMap[host]);
      }
      var i := 0;
      assert patterns[0..] == patterns;
      while i < |patterns|
        invariant 0 <= i <= |patterns|
        invariant FirstMatch(patterns, host) == FirstMatch(patterns[i..], host)
      {
        assert patterns[i..][1..] == patterns[i + 1..];
        if MatchString(patterns[i].reg, host) {
          return Some(patterns[i].ips);
        }
        i := i + 1;
      }
      return None;
    }

    method Get(questions: seq<Question>, builds: Builds) returns (r: Option<seq<RRVal>>)
      ensures r == if questions == [] then None else Answer(questions[0], builds)
    {
      if |questions| == 0 {
        return None;
      }
      var host, qtype := ToLower(questions[0].name), questions[0].qtype;
      if qtype != TYPE_A && qtype != TYPE_AAAA {
        return None;
      }
      var ips := GetIPs(host);
      if ips.None? && HasSuffix(host, ".") {
        ips := GetIPs(host[..|host| - 1]);
      }
      if ips.None? {
        return None;
      }
      var answers: seq<RRVal> := [];
      var i := 0;
      while i < |ips.value|
        invariant 0 <= i <= |ips.value|
        invariant answers == Records(host, ips.value[..i], Wanted(qtype).value, builds)
      {
        assert ips.value[..i + 1][..i] == ips.value[..i];
        if Some(ips.value[i].kind) == Wanted(qtype) && builds(host, ips.value[i]) {
          answers := answers + [RRVal(host, ips.value[i].kind, 0, ips.value[i].val)];
        }
        i := i + 1;
      }
      assert ips.value[..|ips.value|] == ips.value;
      if |answers| == 0 {
        return None;
      }
      return Some(answers);
    }
  }

  /** The addresses of one kind as records of host, in order; those whose record cannot be built are left out. */
  function Records(host: string, ips: seq<HostIP>, kind: RRType, builds: Builds): seq<RRVal> {
    if ips == [] then []
    else
      var front, ip := Records(host, ips[..|ips| - 1], kind, builds), ips[|ips| - 1];
      if ip.kind == kind && builds(host, ip) then front + [RRVal(host, kind, 0, ip.val)] else front
  }

  /** Addresses of another kind are left out, those of the kind asked become records of the host, and order stays. */
  lemma {:induction false} RecordsSplit(host: string, a: seq<HostIP>, ip: HostIP, b: seq<HostIP>, kind: RRType,
                                        builds: Builds)
    ensures Records(host, a + [ip] + b, kind, builds)
         == Records(host, a, kind, builds)
            + (if ip.kind == kind && builds(host, ip) then [RRVal(host, kind, 0, ip.val)] else [])
            + Records(host, b, kind, builds)
  {
    var s := a + [ip] + b;
    if b == [] {
      assert s[..|s| - 1] == a;
    } else {
      assert s[..|s| - 1] == a + [ip] + b[..|b| - 1] && s[|s| - 1] == b[|b| - 1];
      RecordsSplit(host, a, ip, b[..|b| - 1], kind, builds);
    }
  }

  /** In a sorted table the first match is a best match. */
  lemma {:induction false} FirstMatchIsBest(patterns: seq<Pattern>, host: string)
    requires Sorted(patterns, Before)
    ensures FirstMatch(patterns, host).None? <==> forall p | p in patterns :: !MatchString(p.reg, host)
    ensures FirstMatch(patterns, host).Some? ==>
              var p := FirstMatch(patterns, host).value;
              p in patterns && MatchString(p.reg, host)
              && forall q | q in patterns && MatchString(q.reg, host) :: !Before(q, p)
  {
    if patterns != [] {
      FirstMatchIsBest(patterns[1..], host);
      assert forall p | p in patterns :: p == patterns[0] || p in patterns[1..];
      BeforeIsOrder();
    }
  }

  /** The wildcards are made of host characters, `*` and `?`, so that each compiles to what it means. */
  ghost predicate PlainWildcards(given: seq<Given>) {
    forall h | HasWildcard(given, h) :: Plain(h)
  }

  /** Wildcard h accepts host, and no wildcard that accepts it has a longer text, or an equally long lesser one. */
  ghost predicate BestWildcard(given: seq<Given>, host: string, h: string) {
    && HasWildcard(given, h) && Glob(h, host)
    && forall g | HasWildcard(given, g) && Glob(g, host) :: !Before(PatternOf(given, g), PatternOf(given, h))
  }

  lemma PatternMeaning(given: seq<Given>, h: string, host: string)
    requires PlainWildcards(given) && HasWildcard(given, h) && '\n' !in host
    ensures MatchString(PatternOf(given, h).reg, host) <==> Glob(h, host)
  {
    WildcardMeaning(h, host);
  }

  /**
   Lookup of a host without an exact entry, in the entries' own terms: it is found when some wildcard accepts it, and
   gets the addresses given to the best such wildcard, whatever order the table was listed in.
   */
  lemma FindIsBestWildcard(r: HostReader, given: seq<Given>, order: seq<string>, host: string)
    requires Lists(order, given) && IsTable(r.patterns, given, order) && host !in r.domainMap
    requires PlainWildcards(given) && '\n' !in host
    ensures r.Find(host).None? <==> forall h | HasWildcard(given, h) :: !Glob(h, host)
    ensures r.Find(host).Some? ==> exists h :: BestWildcard(given, host, h) && r.Find(host).value == IPsOf(given, h)
    ensures forall h | BestWildcard(given, host, h) :: r.Find(host) == Some(IPsOf(given, h))
  {
    FirstMatchIsBest(r.patterns, host);
    forall h | HasWildcard(given, h)
      ensures PatternOf(given, h) in r.patterns && (MatchString(PatternOf(given, h).reg, host) <==> Glob(h, host))
    {
      TableHas(r.patterns, given, order, PatternOf(given, h));
      PatternMeaning(given, h, host);
    }
    var first := FirstMatch(r.patterns, host);
    if first.Some? {
      TableHas(r.patterns, given, order, first.value);
      var h :| HasWildcard(given, h) && first.value == PatternOf(given, h);
      assert BestWildcard(given, host, h);
      forall g | BestWildcard(given, host, g) ensures g == h {
        BestIsOne(given, host, g, h);
      }
    }
  }

  lemma PlainHasNoBackslash(given: seq<Given>)
    requires PlainWildcards(given)
    ensures forall h | HasWildcard(given, h) :: '\\' !in h
  {
    forall h | HasWildcard(given, h) ensures '\\' !in h {
      assert Plain(h);
      assert '\\' in "\\^$" by { assert "\\^$"[0] == '\\'; }
    }
  }

  lemma BestIsOne(given: seq<Given>, host: string, g: string, h: string)
    requires PlainWildcards(given) && BestWildcard(given, host, g) && BestWildcard(given, host, h)
    ensures g == h
  {
    PlainHasNoBackslash(given);
    LessTextTotal(Translate(g), Translate(h));
    TranslateInjective'(g, h);
  }

  lemma TranslateInjective'(g: string, h: string)
    requires '\\' !in g && '\\' !in h
    ensures Translate(g) == Translate(h) ==> g == h
  {
    if Translate(g) == Translate(h) {
      TranslateInjective(g, h);
    }
  }

  // ------------------------------------------------------------------------------------------------
  // Exact entries and dotted queries

  lemma {:induction false} GlobEnd(glob: string, s: string)
    requires Glob(glob, s) && s != "" && (glob == "" || (glob[|glob| - 1] != '*' && glob[|glob| - 1] != '?'))
    ensures glob != "" && glob[|glob| - 1] == s[|s| - 1]
    decreases |glob|
  {
    var rest := glob[1..];
    if glob[0] == '*' {
      var k :| 0 <= k <= |s| && Glob(rest, s[k..]);
      assert rest != "" && rest[|rest| - 1] == glob[|glob| - 1];
      if k < |s| {
        GlobEnd(rest, s[k..]);
      } else {
        assert s[k..] == "" && rest[|rest| - 1] in rest;
        EmptyGlob(rest);
      }
    } else if |s| > 1 {
      assert rest != "" ==> rest[|rest| - 1] == glob[|glob| - 1];
      GlobEnd(rest, s[1..]);
    } else if rest != "" {
      assert s[1..] == "" && rest[|rest| - 1] in rest;
      EmptyGlob(rest);
    }
  }

  lemma {:induction false} EmptyGlob(glob: string)
    requires Glob(glob, "")
    ensures forall c | c in glob :: c == '*'
  {
    if glob != "" {
      assert ""[0..] == "";
      EmptyGlob(glob[1..]);
      assert glob == [glob[0]] + glob[1..];
    }
  }

  /** No wildcard ends in a dot, `*` or `?`. */
  ghost predicate WildcardsEndPlain(given: seq<Given>) {
    forall h | HasWildcard(given, h) :: h != "" && h[|h| - 1] != '.' && h[|h| - 1] != '*' && h[|h| - 1] != '?'
  }

  /**
   A fully qualified query for a host with an exact entry, whose dotted name has none: the exact entry answers if no
   wildcard accepts the dotted name, and otherwise the best wildcard that does.
   */
  lemma DottedQuery(r: HostReader, given: seq<Given>, order: seq<string>, host: string)
    requires Lists(order, given) && IsTable(r.patterns, given, order) && PlainWildcards(given) && '\n' !in host
    requires host in r.domainMap && host + "." !in r.domainMap
    ensures (forall h | HasWildcard(given, h) :: !Glob(h, host + ".")) ==>
              r.FindDotted(host + ".") == Some(r.domainMap[host])
    ensures (exists h :: HasWildcard(given, h) && Glob(h, host + ".")) ==>
              exists h :: BestWildcard(given, host + ".", h) && r.FindDotted(host + ".") == Some(IPsOf(given, h))
  {
    var dotted := host + ".";
    FindIsBestWildcard(r, given, order, dotted);
    assert dotted[..|dotted| - 1] == host && dotted[|dotted| - 1..] == ".";
  }

  /** No wildcard accepts a dotted name when none ends in a dot, `*` or `?`. */
  lemma ExactBeatsWildcards(r: HostReader, given: seq<Given>, order: seq<string>, host: string)
    requires Lists(order, given) && IsTable(r.patterns, given, order) && PlainWildcards(given) && '\n' !in host
    requires host in r.domainMap && host + "." !in r.domainMap && WildcardsEndPlain(given)
    ensures r.FindDotted(host + ".") == Some(r.domainMap[host])
  {
    var dotted := host + ".";
    forall h | HasWildcard(given, h) ensures !Glob(h, dotted) {
      if Glob(h, dotted) {
        GlobEnd(h, dotted);
      }
    }
    DottedQuery(r, given, order, host);
  }

  /** A bare `*` accepts every one, so beside it no fully qualified query reaches an exact entry without a dot. */
  lemma StarBeatsExact(r: HostReader, given: seq<Given>, order: seq<string>, host: string)
    requires Lists(order, given) && IsTable(r.patterns, given, order) && PlainWildcards(given) && '\n' !in host
    requires host in r.domainMap && host + "." !in r.domainMap && HasWildcard(given, "*")
    ensures exists h :: BestWildcard(given, host + ".", h) && r.FindDotted(host + ".") == Some(IPsOf(given, h))
  {
    StarAcceptsAll(host + ".");
    assert HasWildcard(given, "*") && Glob("*", host + ".");
    DottedQuery(r, given, order, host);
  }
}
