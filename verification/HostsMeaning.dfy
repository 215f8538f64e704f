/**
 The hosts of hosts/hosts.go in the terms of whoever writes them: what lines and entries give, which addresses a host
 ends with, and which of them answer a query.
 */
module HostsMeaning {
  import opened Options
  import opened Messages
  import opened Permutations
  import opened Selections
  import opened Hosts
  import opened Regexps
  import opened Sorting
  import opened Texts
  import opened Wildcards

  // ------------------------------------------------------------------------------------------------
  // Addresses of a host

  /** A host has exactly the addresses given to it, each once. */
  lemma {:induction false} IPsAre(given: seq<Given>, host: string)
    ensures Distinct(IPsOf(given, host))
    ensures forall ip :: ip in IPsOf(given, host) <==> Given(host, ip) in given
  {
    if given != [] {
      var front, g := given[..|given| - 1], given[|given| - 1];
      IPsAre(front, host);
      assert forall x :: x in given <==> x in front || x == g;
    }
  }

  /** They stand in the order they were first given. */
  lemma {:induction false} IPsInOrder(given: seq<Given>, host: string, k: nat)
    requires k < |given| && given[k].host == host && given[k] !in given[..k]
    ensures IPsOf(given[..k], host) + [given[k].ip] <= IPsOf(given, host)
    decreases |given|
  {
    if k == |given| - 1 {
      IPsAre(given[..k], host);
    } else {
      var front := given[..|given| - 1];
      assert front[..k] == given[..k];
      IPsInOrder(front, host, k);
    }
  }

  // ------------------------------------------------------------------------------------------------
  // Entries

  lemma {:induction false} SpacesInFront(a: string, s: string)
    requires forall c | c in a :: IsSpace(c)
    ensures TrimSpace(a + s) == TrimSpace(s)
  {
    if a == "" {
      assert a + s == s;
    } else {
      assert (a + s)[0] == a[0] && a[0] in a && (a + s)[1..] == a[1..] + s;
      SpacesInFront(a[1..], s);
    }
  }

  lemma {:induction false} SpacesBehind(host: string, b: string)
    requires (forall c | c in b :: IsSpace(c)) && host != "" && !IsSpace(host[0]) && !IsSpace(host[|host| - 1])
    ensures TrimSpace(host + b) == host
    decreases |b|
  {
    if b == "" {
      assert host + b == host;
    } else {
      var s, n := host + b, |b| - 1;
      assert s[0] == host[0] && s[|s| - 1] == b[n] && b[n] in b && s[..|s| - 1] == host + b[..n];
      SpacesBehind(host, b[..n]);
    }
  }

  lemma TrimSpaceOf(a: string, host: string, b: string)
    requires (forall c | c in a :: IsSpace(c)) && forall c | c in b :: IsSpace(c)
    requires host != "" ==> !IsSpace(host[0]) && !IsSpace(host[|host| - 1])
    ensures TrimSpace(a + host + b) == host
  {
    assert a + host + b == a + (host + b);
    SpacesInFront(a, host + b);
    if host == "" {
      assert host + b == b == b + "";
      SpacesInFront(b, "");
    } else {
      SpacesBehind(host, b);
    }
  }

  /** A key stands for its host in lower case, whatever space is around it. */
  lemma FoldIs(a: string, host: string, b: string)
    requires (forall c | c in a :: IsSpace(c)) && forall c | c in b :: IsSpace(c)
    requires host != "" ==> !IsSpace(host[0]) && !IsSpace(host[|host| - 1])
    ensures Fold(a + host + b) == ToLower(host)
  {
    TrimSpaceOf(a, host, b);
  }

  predicate IsWord(w: string) {
    w != "" && forall c | c in w :: !IsSpace(c)
  }

  lemma FoldWord(w: string)
    requires IsWord(w)
    ensures Fold(w) == ToLower(w) != ""
  {
    assert w[0] in w && w[|w| - 1] in w;
    assert "" + w + "" == w;
    FoldIs("", w, "");
  }

  /** An entry loads if its key is blank, or if all its addresses parse and, if it has any, its wildcard compiles. */
  lemma EntryLoadsIff(key: string, raws: seq<string>, parse: string -> Option<RRType>)
    ensures LoadsWell(key, raws, parse) <==>
              Fold(key) == "" || forall k, text | 0 <= k < |raws| && text in SplitIPs(raws[k]) ::
                                   parse(text).Some? && HostCompiles(Fold(key))
  {
    var host := Fold(key);
    forall k | 0 <= k < |raws|
      ensures AllLoad(host, SplitIPs(raws[k]), parse) <==> TextsLoad(host, SplitIPs(raws[k]), parse)
    {
      AllLoadIff(host, SplitIPs(raws[k]), parse);
    }
    if host != "" && !LoadsWell(key, raws, parse) {
      var k :| 0 <= k < |raws| && !AllLoad(host, SplitIPs(raws[k]), parse);
      var text :| text in SplitIPs(raws[k]) && !(parse(text).Some? && HostCompiles(host));
    }
  }

  predicate TextsLoad(host: string, texts: seq<string>, parse: string -> Option<RRType>) {
    forall text | text in texts :: parse(text).Some? && HostCompiles(host)
  }

  lemma AllLoadIff(host: string, texts: seq<string>, parse: string -> Option<RRType>)
    ensures AllLoad(host, texts, parse) <==> TextsLoad(host, texts, parse)
  {
    if AllLoad(host, texts, parse) {
      forall text | text in texts ensures parse(text).Some? && HostCompiles(host) {
        var i :| 0 <= i < |texts| && texts[i] == text;
      }
    } else {
      var i :| 0 <= i < |texts| && !(parse(texts[i]).Some? && HostCompiles(host));
      assert texts[i] in texts;
    }
  }

  /** Addresses are separated by spaces or commas. */
  lemma SplitIPsIs(words: seq<string>, sep: char)
    requires (IsSpace(sep) || sep == ',') && forall w | w in words :: IsWord(w) && ',' !in w
    ensures SplitIPs(Join(words, sep)) == words
  {
    FieldsOfJoin(words, sep, c => IsSpace(c) || c == ',');
  }

  lemma {:induction false} ParsedInOrder(a: seq<string>, b: seq<string>, parse: string -> Option<RRType>)
    ensures ParsedAll(a + b, parse) == ParsedAll(a, parse) + ParsedAll(b, parse)
  {
    if b == [] {
      assert a + b == a;
    } else {
      assert (a + b)[..|a + b| - 1] == a + b[..|b| - 1];
      ParsedInOrder(a, b[..|b| - 1], parse);
    }
  }

  lemma {:induction false} AddressesAreGathered(raws: seq<string>, parse: string -> Option<RRType>)
    ensures AddressesOf(raws, parse) == Gathered(raws, (raw: string) => ParsedAll(SplitIPs(raw), parse))
  {
    if raws != [] {
      AddressesAreGathered(raws[..|raws| - 1], parse);
    }
  }

  /** The addresses of an entry, in the order they are written. */
  lemma AddressesInOrder(a: seq<string>, b: seq<string>, parse: string -> Option<RRType>)
    ensures AddressesOf(a + b, parse) == AddressesOf(a, parse) + AddressesOf(b, parse)
    ensures |a| == 1 ==> AddressesOf(a, parse) == ParsedAll(SplitIPs(a[0]), parse)
  {
    AddressesAreGathered(a + b, parse);
    AddressesAreGathered(a, parse);
    AddressesAreGathered(b, parse);
    GatheredConcat(a, b, (raw: string) => ParsedAll(SplitIPs(raw), parse));
    assert |a| == 1 ==> a[..0] == [];
  }

  lemma {:induction false} ParsedIs(texts: seq<string>, parse: string -> Option<RRType>)
    requires forall text | text in texts :: parse(text).Some?
    ensures |ParsedAll(texts, parse)| == |texts|
    ensures forall i | 0 <= i < |texts| :: ParsedAll(texts, parse)[i] == HostIP(texts[i], parse(texts[i]).value)
  {
    if texts != [] {
      ParsedIs(texts[..|texts| - 1], parse);
      assert texts[|texts| - 1] in texts && forall text | text in texts[..|texts| - 1] :: text in texts;
    }
  }

  // ------------------------------------------------------------------------------------------------
  // Lines

  /** A comment gives nothing. */
  lemma CommentLine(text: string, parse: string -> Option<RRType>)
    requires HasPrefix(TrimSpace(text), "#") || HasPrefix(TrimSpace(text), "//")
    ensures LineLoads(text, parse) && GivenByLine(text, parse) == []
  {
  }

  predicate IsLine(words: seq<string>) {
    && words != [] && IsWord(words[0]) && (forall w | w in words :: IsWord(w))
    && words[0][0] != '#' && !HasPrefix(words[0], "//")
  }

  lemma {:induction false} JoinShape(words: seq<string>)
    requires words != [] && forall w | w in words :: IsWord(w)
    ensures var s := Join(words, ' ');
            && |s| >= |words[0]| && s[..|words[0]|] == words[0]
            && s != "" && !IsSpace(s[0]) && !IsSpace(s[|s| - 1])
  {
    assert words[0] in words;
    if |words| > 1 {
      assert forall w | w in words[1..] :: w in words;
      JoinShape(words[1..]);
    }
    assert words[0][0] in words[0] && words[0][|words[0]| - 1] in words[0];
  }

  lemma LineFields(words: seq<string>)
    requires IsLine(words)
    ensures var s := Join(words, ' ');
            TrimSpace(s) == s && Fields(s, IsSpace) == words && !HasPrefix(s, "#") && !HasPrefix(s, "//")
  {
    var s := Join(words, ' ');
    JoinShape(words);
    FieldsOfJoin(words, ' ', IsSpace);
    assert "" + s + "" == s;
    TrimSpaceOf("", s, "");
    assert s[0] == words[0][0];
    SlashesAreFirst(s, words);
  }

  lemma SlashesAreFirst(s: string, words: seq<string>)
    requires words != [] && IsWord(words[0]) && s == Join(words, ' ')
    requires |s| >= |words[0]| && s[..|words[0]|] == words[0]
    ensures HasPrefix(s, "//") ==> HasPrefix(words[0], "//")
  {
    var w := words[0];
    if HasPrefix(s, "//") {
      assert s[1] == s[..2][1] == '/';
      assert |words| > 1 ==> s == w + [' '] + Join(words[1..], ' ');
      assert |words| > 1 ==> s[|w|] == ' ';
      assert |words| == 1 ==> s == w;
      assert |w| >= 2;
      assert w[..2] == s[..2];
    }
  }

  /** A line that starts with an address gives it to each host behind it. */
  lemma AddressLine(address: string, hosts: seq<string>, parse: string -> Option<RRType>)
    requires IsLine([address] + hosts) && hosts != [] && parse(address).Some?
    ensures var text := Join([address] + hosts, ' ');
            && (LineLoads(text, parse) <==> forall h | h in hosts :: HostCompiles(ToLower(h)))
            && |GivenByLine(text, parse)| == |hosts|
            && forall i | 0 <= i < |hosts| ::
                 GivenByLine(text, parse)[i] == Given(ToLower(hosts[i]), HostIP(address, parse(address).value))
  {
    AddressLineGives(address, hosts, parse);
    var words := [address] + hosts;
    assert forall h | h in hosts :: h in words;
    EachIs(HostIP(address, parse(address).value), hosts);
    WordsLoad(hosts);
  }

  lemma AddressLineGives(address: string, hosts: seq<string>, parse: string -> Option<RRType>)
    requires IsLine([address] + hosts) && hosts != [] && parse(address).Some?
    ensures var text := Join([address] + hosts, ' ');
            && (LineLoads(text, parse) <==> KeysLoad(hosts))
            && GivenByLine(text, parse) == GivenEach(HostIP(address, parse(address).value), hosts)
  {
    var words := [address] + hosts;
    LineFields(words);
    assert words[0] == address && words[1..] == hosts;
  }

  lemma WordsLoad(hosts: seq<string>)
    requires forall h | h in hosts :: IsWord(h)
    ensures KeysLoad(hosts) <==> forall h | h in hosts :: HostCompiles(ToLower(h))
  {
    forall i | 0 <= i < |hosts| ensures KeyLoads(hosts[i]) <==> HostCompiles(ToLower(hosts[i])) {
      assert hosts[i] in hosts;
      FoldWord(hosts[i]);
    }
    if !KeysLoad(hosts) {
      var i :| 0 <= i < |hosts| && !KeyLoads(hosts[i]);
      assert hosts[i] in hosts;
    }
  }

  lemma EachThen(ip: HostIP, front: seq<string>, h: string)
    requires IsWord(h)
    ensures GivenEach(ip, front + [h]) == GivenEach(ip, front) + [Given(ToLower(h), ip)]
  {
    FoldWord(h);
    assert (front + [h])[..|front|] == front;
    assert GivenTo(ToLower(h), [ip]) == [Given(ToLower(h), ip)];
  }

  lemma {:induction false} EachIs(ip: HostIP, hosts: seq<string>)
    requires forall h | h in hosts :: IsWord(h)
    ensures |GivenEach(ip, hosts)| == |hosts|
    ensures forall i | 0 <= i < |hosts| :: GivenEach(ip, hosts)[i] == Given(ToLower(hosts[i]), ip)
  {
    if hosts != [] {
      var front, h := hosts[..|hosts| - 1], hosts[|hosts| - 1];
      assert h in hosts && forall x | x in front :: x in hosts;
      EachIs(ip, front);
      EachThen(ip, front, h);
      assert hosts == front + [h];
    }
  }

  /** Any other line is an entry: its first word, with the addresses in the words behind it. A lone word is none. */
  lemma EntryLine(host: string, raws: seq<string>, parse: string -> Option<RRType>)
    requires IsLine([host] + raws) && (raws != [] ==> parse(host) == None)
    ensures var text := Join([host] + raws, ' ');
            if raws == [] then LineLoads(text, parse) && GivenByLine(text, parse) == []
            else
              && (LineLoads(text, parse) <==> LoadsWell(host, raws, parse))
              && GivenByLine(text, parse) == GivenTo(ToLower(host), AddressesOf(raws, parse))
  {
    var words := [host] + raws;
    LineFields(words);
    assert words[0] == host && words[1..] == raws && host in words;
    FoldWord(host);
  }

  // ------------------------------------------------------------------------------------------------
  // Lookup

  /** The best wildcard that accepts a host has the longest text, and of the longest ones the least. */
  lemma BestIs(given: seq<Given>, host: string, h: string)
    ensures BestWildcard(given, host, h) <==>
              && HasWildcard(given, h) && Glob(h, host)
              && forall g | HasWildcard(given, g) && Glob(g, host) ::
                   var s, t := Translate(g), Translate(h);
                   |s| < |t| || (|s| == |t| && (s == t || LessText(t, s)))
  {
    forall g ensures !Before(PatternOf(given, g), PatternOf(given, h)) <==>
                       var s, t := Translate(g), Translate(h);
                       |s| < |t| || (|s| == |t| && (s == t || LessText(t, s)))
    {
      LessTextTotal(Translate(g), Translate(h));
    }
  }

  /** What one pass finds for a name: its exact entry, or the best wildcard's addresses, or nothing. */
  ghost predicate Finds(r: HostReader, given: seq<Given>, name: string, found: Option<seq<HostIP>>) {
    if name in r.domainMap then found == Some(r.domainMap[name])
    else if exists h :: HasWildcard(given, h) && Glob(h, name) then
      exists h :: BestWildcard(given, name, h) && found == Some(IPsOf(given, h))
    else found == None
  }

  lemma FindIs(r: HostReader, given: seq<Given>, order: seq<string>, name: string)
    requires Lists(order, given) && IsTable(r.patterns, given, order) && PlainWildcards(given) && '\n' !in name
    ensures Finds(r, given, name, r.Find(name))
  {
    if name !in r.domainMap {
      FindIsBestWildcard(r, given, order, name);
    }
  }

  /** A name with a final dot is looked up as it stands first, and without the dot only if that finds nothing. */
  lemma LookupIs(r: HostReader, given: seq<Given>, order: seq<string>, name: string, found: Option<seq<HostIP>>)
    requires Lists(order, given) && IsTable(r.patterns, given, order) && PlainWildcards(given) && '\n' !in name
    requires Finds(r, given, name, found)
    ensures name == "" || name[|name| - 1] != '.' || found.Some? ==> r.FindDotted(name) == r.Find(name)
    ensures r.Find(name).Some? <==> found.Some?
    ensures name != "" && name[|name| - 1] == '.' && found.None? ==>
              Finds(r, given, name[..|name| - 1], r.FindDotted(name))
  {
    FindIs(r, given, order, name);
    assert HasSuffix(name, ".") <==> name != "" && name[|name| - 1] == '.' by {
      if name != "" {
        assert name[|name| - 1..] == [name[|name| - 1]];
      }
    }
    if name != "" && name[|name| - 1] == '.' {
      FindIs(r, given, order, name[..|name| - 1]);
    }
  }

  /** The records of the answer: those addresses found that are of the kind asked and whose record builds, in order. */
  ghost predicate Answers(host: string, ips: seq<HostIP>, kind: RRType, builds: Builds, records: seq<RRVal>) {
    exists kept: seq<HostIP> ::
      && Selected(ips, kept, (ip: HostIP) => ip.kind == kind && builds(host, ip))
      && |records| == |kept| && forall i | 0 <= i < |kept| :: records[i] == RRVal(host, kind, 0, kept[i].val)
  }

  lemma {:induction false} RecordsAre(host: string, ips: seq<HostIP>, kind: RRType, builds: Builds)
    returns (kept: seq<HostIP>)
    ensures Selected(ips, kept, (ip: HostIP) => ip.kind == kind && builds(host, ip))
    ensures |Records(host, ips, kind, builds)| == |kept|
    ensures forall i | 0 <= i < |kept| :: Records(host, ips, kind, builds)[i] == RRVal(host, kind, 0, kept[i].val)
  {
    var keep := (ip: HostIP) => ip.kind == kind && builds(host, ip);
    if ips == [] {
      kept := [];
      NoneSelected(keep);
    } else {
      var front, last := ips[..|ips| - 1], ips[|ips| - 1];
      var before := RecordsAre(host, front, kind, builds);
      SelectAtEnd(front, last, before, keep);
      assert ips == front + [last];
      kept := before + if keep(last) then [last] else [];
    }
  }

  /** A query is answered if it asks for addresses and some of those found for its lower-cased name are of the kind. */
  lemma AnswerIs(r: HostReader, q: Question, builds: Builds) returns (records: seq<RRVal>)
    ensures q.qtype != 1 && q.qtype != 28 ==> r.Answer(q, builds) == None
    ensures r.FindDotted(ToLower(q.name)) == None ==> r.Answer(q, builds) == None
    ensures (q.qtype == 1 || q.qtype == 28) && r.FindDotted(ToLower(q.name)).Some? ==>
              && Answers(ToLower(q.name), r.FindDotted(ToLower(q.name)).value, if q.qtype == 1 then A else AAAA, builds,
                         records)
              && r.Answer(q, builds) == if records == [] then None else Some(records)
  {
    var host := ToLower(q.name);
    records := [];
    if (q.qtype == 1 || q.qtype == 28) && r.FindDotted(host).Some? {
      records := Records(host, r.FindDotted(host).value, if q.qtype == 1 then A else AAAA, builds);
      RecordsAnswer(host, r.FindDotted(host).value, if q.qtype == 1 then A else AAAA, builds);
    }
  }

  lemma RecordsAnswer(host: string, ips: seq<HostIP>, kind: RRType, builds: Builds)
    ensures Answers(host, ips, kind, builds, Records(host, ips, kind, builds))
  {
    var kept := RecordsAre(host, ips, kind, builds);
  }

  // ------------------------------------------------------------------------------------------------
  // The tables

  /** A host with a `*` or `?` that was given addresses is in the table of wildcards, any other in the exact one. */
  lemma TablesHold(given: seq<Given>, host: string)
    ensures host in DomainMapOf(given) <==> '*' !in host && '?' !in host && exists ip :: Given(host, ip) in given
    ensures host in PatternMapOf(given) <==> ('*' in host || '?' in host) && exists ip :: Given(host, ip) in given
    ensures host in DomainMapOf(given) ==> DomainMapOf(given)[host] == IPsOf(given, host)
    ensures host in PatternMapOf(given) ==>
              var p := PatternMapOf(given)[host];
              && p.pattern == Translate(host) && p.ips == IPsOf(given, host)
              && (Compile("^" + Translate(host) + "$").Some? ==> Compile("^" + Translate(host) + "$") == Some(p.reg))
  {
    TablesAre(given);
    IPsAre(given, host);
    if ip :| Given(host, ip) in given {
      assert ip in IPsOf(given, host);
    }
    if IPsOf(given, host) != [] {
      assert IPsOf(given, host)[0] in IPsOf(given, host);
    }
  }

  /** An entry gives its addresses, in order, to the host its key stands for; a blank key stands for none. */
  lemma EntryGives(key: string, ips: seq<HostIP>)
    ensures |GivenBy(key, ips)| == if Fold(key) == "" then 0 else |ips|
    ensures forall i | 0 <= i < |GivenBy(key, ips)| :: GivenBy(key, ips)[i] == Given(Fold(key), ips[i])
  {
  }
}
