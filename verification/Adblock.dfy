/** The rule matcher of matcher/adblock.go: a domain trie, then blocking expressions, then unblocking ones. */
module Adblock {
  import opened Options
  import opened Texts
  import opened Regexps
  import opened DomainTrie
  import opened Wildcards
  import opened RuleText

  /** The name Match looks up: lower case, without one trailing dot. */
  function Normal(domain: string): string
    requires domain != ""
  {
    var d := ToLower(domain);
    if d[|d| - 1] == '.' then d[..|d| - 1] else d
  }

  predicate AnyMatch(regs: seq<Re>, s: string) {
    exists k | 0 <= k < |regs| :: MatchString(regs[k], s)
  }

  /** Whether a domain is blocked; None when no rule speaks of it. Merged expressions play no part in the answer. */
  function Decide(rules: Rules, blocked: seq<Re>, unblocked: seq<Re>, domain: string): Option<bool> {
    if domain == "" then None
    else
      var d := Normal(domain);
      if d != "" && Lookup(rules, DomainOf(d)).Some? then Lookup(rules, DomainOf(d))
      else if AnyMatch(blocked, d) then Some(true)
      else if AnyMatch(unblocked, d) then Some(false)
      else None
  }

  /** A domain ends in a top-level domain of letters, or in an internationalised one. */
  predicate ValidTLD(tld: string) {
    || (|tld| >= 2 && forall i | 0 <= i < |tld| :: IsLetter(tld[i]))
    || (|tld| >= 7 && tld[..4] == "xn--" && forall i | 4 <= i < |tld| :: IsLetter(tld[i]) || '0' <= tld[i] <= '9')
  }

  predicate IsLetter(c: char) {
    'a' <= c <= 'z' || 'A' <= c <= 'Z'
  }

  /** What follows the last dot; None without a dot. */
  function TLD(domain: string): Option<string> {
    var parts := Split(domain, '.');
    if |parts| == 1 then None else Some(parts[|parts| - 1])
  }

  /** Whether a rule's domain goes to the trie. */
  predicate IsDomainRule(domain: string) {
    '*' !in domain && TLD(domain).Some? && ValidTLD(TLD(domain).value)
  }

  class ABPlus {
    const trie: Trie
    var blockedRegs: seq<Regexp>
    var unblockedRegs: seq<Regexp>
    var combinedBlockedReg: Option<Re>
    var combinedUnblockedReg: Option<Re>

    /** A merged expression, when there is one, merges the present list. */
    ghost predicate Valid()
      reads this, trie, trie.nodes.Values
    {
      && trie.Valid() && Sound(trie.rules) && Compiled(blockedRegs) && Compiled(unblockedRegs)
      && Merged(combinedBlockedReg, blockedRegs) && Merged(combinedUnblockedReg, unblockedRegs)
    }

    constructor ()
      ensures Valid() && trie.rules == map[] && blockedRegs == [] && unblockedRegs == []
      ensures combinedBlockedReg == None && combinedUnblockedReg == None
      ensures fresh(trie) && fresh(trie.nodes.Values)
    {
      trie := new Trie();
      blockedRegs, unblockedRegs := [], [];
      combinedBlockedReg, combinedUnblockedReg := None, None;
    }

    /** An expression joins the list of its kind, if it compiles. */
    method AddRegexp(text: string, isBlock: bool) returns (ok: bool)
      requires Valid() && combinedBlockedReg == None && combinedUnblockedReg == None
      modifies `blockedRegs, `unblockedRegs
      ensures Valid() && ok == Compile(text).Some?
      ensures var more := if ok then [CompiledText(text)] else [];
              && blockedRegs == old(blockedRegs) + (if isBlock then more else [])
              && unblockedRegs == old(unblockedRegs) + (if isBlock then [] else more)
    {
      var re := Compile(text);
      if re.None? {
        return false;
      }
      if isBlock {
        blockedRegs := blockedRegs + [Regexp(text, re.value)];
      } else {
        unblockedRegs := unblockedRegs + [Regexp(text, re.value)];
      }
      return true;
    }

    /**
     One line's entry, before the expressions are merged: a wildcard becomes an expression, any other domain a domain of
     the trie if it ends like one. False where the code panics.
     */
    method AddEntry(e: Entry) returns (ok: bool)
      requires Valid() && combinedBlockedReg == None && combinedUnblockedReg == None
      modifies this, trie, trie.nodes.Values
      ensures Valid() && combinedBlockedReg == None && combinedUnblockedReg == None
      ensures fresh(trie.nodes.Values - old(trie.nodes.Values))
      ensures ok == Loads(e)
      ensures trie.rules == if IsDomainEntry(e) then AddRule(old(trie.rules), ToLower(e.domain), e.isBlock)
                            else old(trie.rules)
      ensures blockedRegs == old(blockedRegs) + (if ok then RegsOf(e, true) else [])
      ensures unblockedRegs == old(unblockedRegs) + (if ok then RegsOf(e, false) else [])
    {
      match e
      case Skip =>
        return true;
      case Panics =>
        return false;
      case Expression(text) =>
        ok := AddRegexp(text, true);
      case Rule(domain, isBlock) =>
        if '*' in domain {
          ok := AddRegexp("^" + TranslateRule(domain) + "$", isBlock);
          return;
        }
        var tld := TLD(domain);
        if tld.None? || !ValidTLD(tld.value) {
          return true;
        }
        AddKeepsSound(trie.rules, domain, isBlock);
        trie.Add(ToLower(domain), isBlock);
        return true;
    }

    /** mergeRegs: the groups of all expressions, joined by bars and compiled. */
    method MergeRegs(regs: seq<Regexp>) returns (r: Option<Re>)
      requires Compiled(regs)
      ensures r == if regs == [] then None else Some(AnyOf(ResOf(regs)))
    {
      if |regs| == 0 {
        return None;
      }
      var patterns: seq<string> := [];
      var i := 0;
      while i < |regs|
        invariant 0 <= i <= |regs| && patterns == Groups(regs)[..i]
      {
        patterns := patterns + ["(?:" + regs[i].text + ")"];
        i := i + 1;
      }
      assert patterns == Groups(regs);
      JoinedCompiles(regs);
      return CompileAlternatives(Join(patterns, '|'));
    }

    method Optimize()
      requires trie.Valid() && Sound(trie.rules) && Compiled(blockedRegs) && Compiled(unblockedRegs)
      modifies `combinedBlockedReg, `combinedUnblockedReg
      ensures Valid()
    {
      combinedBlockedReg := MergeRegs(blockedRegs);
      combinedUnblockedReg := MergeRegs(unblockedRegs);
    }

    /** One list of expressions: by the merged one if there is one, else one after the other. */
    method MatchRegs(combined: Option<Re>, regs: seq<Regexp>, d: string) returns (r: bool)
      requires Merged(combined, regs)
      ensures r == AnyMatch(ResOf(regs), d)
    {
      if combined.Some? {
        AnyOfMatches(ResOf(regs), d);
        return MatchString(combined.value, d);
      }
      var i := 0;
      while i < |regs|
        invariant 0 <= i <= |regs|
        invariant forall k | 0 <= k < i :: !MatchString(regs[k].re, d)
      {
        if MatchString(regs[i].re, d) {
          assert MatchString(ResOf(regs)[i], d);
          return true;
        }
        i := i + 1;
      }
      return false;
    }

    method Match(domain: string) returns (matched: bool, ok: bool)
      requires Valid()
      ensures var decision := Decide(trie.rules, ResOf(blockedRegs), ResOf(unblockedRegs), domain);
              matched == (decision == Some(true)) && ok == decision.Some?
    {
      if domain == "" {
        return false, false;
      }
      var d := Normal(domain);
      var _, isBlock, okInTrie := trie.Match(d);
      if okInTrie {
        return isBlock, true;
      }
      var hit := MatchRegs(combinedBlockedReg, blockedRegs, d);
      if hit {
        return true, true;
      }
      hit := MatchRegs(combinedUnblockedReg, unblockedRegs, d);
      if hit {
        return false, true;
      }
      return false, false;
    }

    method ExtendTrie(target: Trie)
      requires trie.Valid() && Sound(trie.rules) && target.Valid() && Sound(target.rules) && target != trie
      modifies trie, trie.nodes.Values
      ensures trie.Valid() && Sound(trie.rules)
      ensures trie.rules == old(trie.rules + target.rules)
    {
      ghost var rules, from := trie.rules, target.rules;
      var out, ds := target.Walk();
      trie.AddEach(out);
      AddWalked(rules, from, out, ds);
    }

    /**
     The rules become the right-biased merge of both maps; the expressions are appended. A matcher cannot extend itself:
     Walk holds the lock Add waits for.
     */
    method Extend(target: ABPlus?)
      requires Valid()
      requires target != null ==> target.Valid() && target.trie != trie
      modifies this, trie, trie.nodes.Values
      ensures Valid()
      ensures target == null ==> trie.rules == old(trie.rules)
      ensures target == null ==> blockedRegs == old(blockedRegs) && unblockedRegs == old(unblockedRegs)
      ensures target != null ==> trie.rules == old(trie.rules + target.trie.rules)
      ensures target != null ==> blockedRegs == old(blockedRegs + target.blockedRegs)
      ensures target != null ==> unblockedRegs == old(unblockedRegs + target.unblockedRegs)
    {
      if target != null {
        ExtendTrie(target.trie);
        blockedRegs := blockedRegs + target.blockedRegs;
        unblockedRegs := unblockedRegs + target.unblockedRegs;
        Optimize();
      }
    }
  }

  ghost predicate Merged(combined: Option<Re>, regs: seq<Regexp>) {
    combined.Some? ==> regs != [] && combined.value == AnyOf(ResOf(regs))
  }

  /** What a trie of this matcher holds: never the domain of dots, for the test of a rule's ending keeps it out. */
  ghost predicate Sound(rules: Rules) {
    AllStorable(rules) && DOTS !in rules
  }

  /** A domain that ends like one does not consist of dots. */
  lemma DomainRuleIsNotDots(domain: string)
    requires IsDomainRule(domain)
    ensures DomainOf(ToLower(domain)) != DOTS
  {
    var parts := Split(domain, '.');
    var tld := parts[|parts| - 1];
    JoinLast(parts, '.');
    JoinSplit(domain, '.');
    var low := ToLower(domain);
    assert low[|low| - 1] == Lower(domain[|domain| - 1]) && tld[|tld| - 1] in tld;
    assert low[|low| - 1] != '.';
    TrimKeepsLast(low, '.');
    OnlyDotsMeanDots(low);
  }

  lemma OnlyDotsMeanDots(text: string)
    ensures DomainOf(text) == DOTS <==> Trim(text, '.') == ""
  {
    JoinSplit(Trim(text, '.'), '.');
    ToFromLabels(Parts(text));
    ToFromLabels([""]);
    assert FromLabels([""]) == Sub("", FromLabels([""][1..])) && [""][1..] == [];
    assert Join([""], '.') == "";
  }

  lemma TrimKeepsLast(s: string, c: char)
    requires s != "" && s[|s| - 1] != c
    ensures Trim(s, c) != ""
  {
    TrimLeftKeeps(s, c);
  }

  lemma {:induction false} TrimLeftKeeps(s: string, c: char)
    requires s != "" && s[|s| - 1] != c
    ensures TrimLeft(s, c) != "" && TrimLeft(s, c)[|TrimLeft(s, c)| - 1] == s[|s| - 1]
  {
    if s[0] == c {
      TrimLeftKeeps(s[1..], c);
    }
  }

  lemma AddKeepsSound(rules: Rules, domain: string, isBlock: bool)
    requires Sound(rules) && IsDomainRule(domain)
    ensures Sound(AddRule(rules, ToLower(domain), isBlock))
  {
    AddKeepsStorable(rules, ToLower(domain), isBlock);
    DomainRuleIsNotDots(domain);
  }

  /** Whether an entry puts a domain into the trie. */
  predicate IsDomainEntry(e: Entry) {
    e.Rule? && IsDomainRule(e.domain)
  }

  /** Whether an entry is taken without a panic. */
  predicate Loads(e: Entry) {
    match e
    case Skip => true
    case Panics => false
    case Expression(text) => Compile(text).Some?
    case Rule(domain, _) => '*' in domain ==> Compile("^" + TranslateRule(domain) + "$").Some?
  }

  /** The expression of one kind an entry adds, if it adds one. */
  function RegsOf(e: Entry, isBlock: bool): seq<Regexp> {
    if e.Expression? && isBlock then [CompiledText(e.text)]
    else if e.Rule? && '*' in e.domain && e.isBlock == isBlock then [CompiledRule(e.domain)]
    else []
  }

  /** Entries in the order of the text: the domains for the trie, and the expressions of one kind. */
  function DomainEntries(entries: seq<Entry>): seq<(string, bool)> {
    if entries == [] then []
    else
      var front, e := DomainEntries(entries[..|entries| - 1]), entries[|entries| - 1];
      if IsDomainEntry(e) then front + [(ToLower(e.domain), e.isBlock)] else front
  }

  function RegEntries(entries: seq<Entry>, isBlock: bool): seq<Regexp> {
    if entries == [] then []
    else RegEntries(entries[..|entries| - 1], isBlock) + RegsOf(entries[|entries| - 1], isBlock)
  }

  predicate AllLoad(entries: seq<Entry>) {
    forall i | 0 <= i < |entries| :: Loads(entries[i])
  }

  /** m has taken in the rules of done and not yet merged its expressions. */
  ghost predicate Building(m: ABPlus, done: seq<Entry>)
    reads m, m.trie, m.trie.nodes.Values
  {
    && m.Valid() && m.combinedBlockedReg == None && m.combinedUnblockedReg == None
    && m.trie.rules == AddAll(map[], DomainEntries(done))
    && m.blockedRegs == RegEntries(done, true) && m.unblockedRegs == RegEntries(done, false)
  }

  lemma OneMoreEntry(done: seq<Entry>, e: Entry)
    ensures AddAll(map[], DomainEntries(done + [e]))
         == if IsDomainEntry(e) then AddRule(AddAll(map[], DomainEntries(done)), ToLower(e.domain), e.isBlock)
            else AddAll(map[], DomainEntries(done))
    ensures RegEntries(done + [e], true) == RegEntries(done, true) + RegsOf(e, true)
    ensures RegEntries(done + [e], false) == RegEntries(done, false) + RegsOf(e, false)
  {
    assert (done + [e])[..|done|] == done;
    if IsDomainEntry(e) {
      var ds := DomainEntries(done);
      assert (ds + [(ToLower(e.domain), e.isBlock)])[..|ds|] == ds;
    }
  }

  method TakeEntry(m: ABPlus, ghost done: seq<Entry>, e: Entry) returns (ok: bool)
    requires Building(m, done)
    modifies m, m.trie, m.trie.nodes.Values
    ensures ok == Loads(e)
    ensures ok ==> Building(m, done + [e])
    ensures fresh(m.trie.nodes.Values - old(m.trie.nodes.Values))
  {
    OneMoreEntry(done, e);
    ok := m.AddEntry(e);
  }

  lemma OneMoreLoads(entries: seq<Entry>, i: nat)
    requires i < |entries| && AllLoad(entries[..i])
    ensures entries[..i + 1] == entries[..i] + [entries[i]]
    ensures AllLoad(entries[..i + 1]) <==> Loads(entries[i])
    ensures AllLoad(entries) ==> Loads(entries[i])
  {
    assert entries[..i + 1][i] == entries[i];
    assert forall k | 0 <= k < i :: entries[..i + 1][k] == entries[..i][k];
  }

  lemma AllTaken(entries: seq<Entry>)
    ensures entries[..|entries|] == entries
  {
  }

  method TakeEntries(m: ABPlus, entries: seq<Entry>) returns (ok: bool)
    requires Building(m, [])
    modifies m, m.trie, m.trie.nodes.Values
    ensures ok == AllLoad(entries)
    ensures ok ==> Building(m, entries)
  {
    var i := 0;
    ghost var done: seq<Entry> := [];
    while i < |entries|
      invariant 0 <= i <= |entries| && done == entries[..i] && AllLoad(done)
      invariant fresh(m.trie.nodes.Values - old(m.trie.nodes.Values))
      invariant Building(m, done)
    {
      OneMoreLoads(entries, i);
      ok := TakeEntry(m, done, entries[i]);
      if !ok {
        return;
      }
      done := done + [entries[i]];
      i := i + 1;
    }
    AllTaken(entries);
    return true;
  }

  /** The matcher of a text, line by line; None where the code panics. */
  method NewABPByText(text: string) returns (r: Option<ABPlus>)
    ensures r.Some? <==> AllLoad(EntriesOf(text))
    ensures r.Some? ==>
              && r.value.Valid() && r.value.trie.rules == AddAll(map[], DomainEntries(EntriesOf(text)))
              && r.value.blockedRegs == RegEntries(EntriesOf(text), true)
              && r.value.unblockedRegs == RegEntries(EntriesOf(text), false)
  {
    var m := new ABPlus();
    var ok := TakeEntries(m, EntriesOf(text));
    if !ok {
      return None;
    }
    m.Optimize();
    return Some(m);
  }

  lemma AddWalked(rules: Rules, from: Rules, out: seq<(string, bool)>, ds: seq<Domain>)
    requires Reports(out, ds, from) && NoRepeats(ds) && Sound(from) && forall d :: d in ds <==> d in from
    ensures AddAll(rules, out) == rules + from
  {
    var all, goal := AddAll(rules, out), rules + from;
    forall d
      ensures d in all <==> d in goal
      ensures d in all ==> all[d] == goal[d]
    {
      AddReported(rules, from, out, ds, d);
    }
  }

  /** Line i of a text is a domain rule, and no later line is one for the same domain. */
  ghost predicate LastFor(entries: seq<Entry>, i: nat) {
    && i < |entries| && IsDomainEntry(entries[i])
    && forall j | i < j < |entries| && IsDomainEntry(entries[j]) :: Meant(entries[j]) != Meant(entries[i])
  }

  function Meant(e: Entry): Domain
    requires e.Rule?
  {
    DomainOf(ToLower(e.domain))
  }

  lemma RuleAt(rules: Rules, text: string, isBlock: bool, d: Domain)
    requires text != ""
    ensures DomainOf(text) == d ==> d in AddRule(rules, text, isBlock) && AddRule(rules, text, isBlock)[d] == isBlock
    ensures DomainOf(text) != d && d in rules ==>
              d in AddRule(rules, text, isBlock) && AddRule(rules, text, isBlock)[d] == rules[d]
  {
  }

  lemma {:induction false} LastLineWins(entries: seq<Entry>, i: nat)
    requires LastFor(entries, i)
    ensures var rules := AddAll(map[], DomainEntries(entries));
            Meant(entries[i]) in rules && rules[Meant(entries[i])] == entries[i].isBlock
  {
    var front, last := entries[..|entries| - 1], entries[|entries| - 1];
    assert entries == front + [last];
    OneMoreEntry(front, last);
    if IsDomainEntry(last) {
      RuleAt(AddAll(map[], DomainEntries(front)), ToLower(last.domain), last.isBlock, Meant(entries[i]));
    }
    if i < |entries| - 1 {
      assert front[i] == entries[i];
      LastLineWins(front, i);
    }
  }

  /** A name is blocked or not as the last line for it says, whatever wildcards and expressions there are. */
  lemma LastLineDecides(text: string, i: nat, blocked: seq<Re>, unblocked: seq<Re>, name: string)
    requires LastFor(EntriesOf(text), i) && name != "" && Normal(name) != ""
    requires DomainOf(Normal(name)) == Meant(EntriesOf(text)[i])
    ensures Decide(AddAll(map[], DomainEntries(EntriesOf(text))), blocked, unblocked, name)
         == Some(EntriesOf(text)[i].isBlock)
  {
    LastLineWins(EntriesOf(text), i);
  }

  /** After an Extend, a domain the target's trie has an exact rule for is decided by that rule. */
  lemma ExtensionWins(rules: Rules, from: Rules, blocked: seq<Re>, unblocked: seq<Re>, domain: string)
    requires domain != "" && Normal(domain) != "" && DomainOf(Normal(domain)) in from
    ensures Decide(rules + from, blocked, unblocked, domain) == Some(from[DomainOf(Normal(domain))])
  {
  }

  /** Wildcard rules that compile to what they mean. */
  predicate PlainRules(globs: seq<string>) {
    forall k | 0 <= k < |globs| :: Plain(globs[k]) && '?' !in globs[k]
  }

  /** The expression a wildcard rule becomes. */
  function CompiledRule(glob: string): Regexp {
    CompiledText("^" + TranslateRule(glob) + "$")
  }

  function CompiledText(text: string): Regexp {
    var r := Compile(text);
    Regexp(text, if r.Some? then r.value else Empty)
  }

  function CompiledRules(globs: seq<string>): (r: seq<Re>)
    ensures |r| == |globs| && forall k | 0 <= k < |globs| :: r[k] == CompiledRule(globs[k]).re
  {
    seq(|globs|, k requires 0 <= k < |globs| => CompiledRule(globs[k]).re)
  }

  lemma RulesMatch(globs: seq<string>, s: string)
    requires PlainRules(globs) && '\n' !in s
    ensures AnyMatch(CompiledRules(globs), s) <==> exists k | 0 <= k < |globs| :: Glob(globs[k], s)
  {
    forall k | 0 <= k < |globs| ensures MatchString(CompiledRules(globs)[k], s) <==> Glob(globs[k], s) {
      RuleTranslationAgrees(globs[k]);
      WildcardMeaning(globs[k], s);
    }
  }

  /**
   In the rules' own terms: a domain the trie is silent on is blocked if a blocking wildcard accepts it, else unblocked
   if an unblocking one does, else left alone.
   */
  lemma WildcardRulesDecide(rules: Rules, blocked: seq<string>, unblocked: seq<string>, domain: string)
    requires PlainRules(blocked) && PlainRules(unblocked) && '\n' !in domain
    requires domain != "" && Lookup(rules, DomainOf(Normal(domain))).None?
    ensures Decide(rules, CompiledRules(blocked), CompiledRules(unblocked), domain)
         == if exists k | 0 <= k < |blocked| :: Glob(blocked[k], Normal(domain)) then Some(true)
            else if exists k | 0 <= k < |unblocked| :: Glob(unblocked[k], Normal(domain)) then Some(false)
            else None
  {
    assert '\n' !in Normal(domain);
    RulesMatch(blocked, Normal(domain));
    RulesMatch(unblocked, Normal(domain));
  }

  // ------------------------------------------------------------------------------------------------
  // What matching does not depend on

  /** A name is decided alike in any case, and with or without its final dot. */
  lemma DecisionIgnores(rules: Rules, blocked: seq<Re>, unblocked: seq<Re>, a: string, b: string)
    requires EqualFold(a, b) && a != "" && a[|a| - 1] != '.'
    ensures Decide(rules, blocked, unblocked, a) == Decide(rules, blocked, unblocked, b)
    ensures Decide(rules, blocked, unblocked, a + ".") == Decide(rules, blocked, unblocked, a)
  {
    assert |a| == |ToLower(a)| == |ToLower(b)| == |b|;
    var low := ToLower(a);
    assert low[|low| - 1] == Lower(a[|a| - 1]);
    LowerConcat(a, ".");
    assert ToLower(".") == ".";
    assert ToLower(a + ".")[..|a|] == low;
  }

  /** A domain goes to the trie if it has no wildcard and a dot, and ends as a top-level domain does. */
  lemma DomainRuleIff(front: string, tld: string)
    requires '.' !in tld
    ensures IsDomainRule(front + "." + tld) <==>
              && '*' !in front && '*' !in tld
              && ((|tld| >= 2 && forall c | c in tld :: 'a' <= c <= 'z' || 'A' <= c <= 'Z')
                  || (|tld| >= 7 && tld[..4] == "xn--"
                      && forall c | c in tld[4..] :: 'a' <= c <= 'z' || 'A' <= c <= 'Z' || '0' <= c <= '9'))
    ensures !IsDomainRule(tld)
  {
    var d := front + "." + tld;
    LastOfSplit(front, tld);
    SplitOne(tld, '.');
    assert '*' in d <==> '*' in front || '*' in tld;
    assert TLD(d) == Some(tld);
    ValidIff(tld);
  }

  lemma ValidIff(tld: string)
    ensures ValidTLD(tld) <==>
              || (|tld| >= 2 && forall c | c in tld :: 'a' <= c <= 'z' || 'A' <= c <= 'Z')
              || (|tld| >= 7 && tld[..4] == "xn--"
                  && forall c | c in tld[4..] :: 'a' <= c <= 'z' || 'A' <= c <= 'Z' || '0' <= c <= '9')
  {
    AllChars(tld, IsLetter);
    if |tld| >= 7 {
      AllChars(tld[4..], c => IsLetter(c) || '0' <= c <= '9');
      assert forall i | 4 <= i < |tld| :: tld[i] == tld[4..][i - 4];
      assert forall i | 0 <= i < |tld[4..]| :: tld[4..][i] == tld[i + 4];
    }
  }

  lemma AllChars(s: string, p: char -> bool)
    ensures (forall i | 0 <= i < |s| :: p(s[i])) <==> forall c | c in s :: p(c)
  {
    if forall c | c in s :: p(c) {
      forall i | 0 <= i < |s| ensures p(s[i]) {
        assert s[i] in s;
      }
    }
  }

  lemma {:induction false} LastOfSplit(front: string, tld: string)
    requires '.' !in tld
    ensures var parts := Split(front + "." + tld, '.'); |parts| >= 2 && parts[|parts| - 1] == tld
  {
    var s := front + "." + tld;
    if front == "" {
      assert s[1..] == tld;
      SplitOne(tld, '.');
    } else {
      assert s[0] == front[0] && s[1..] == front[1..] + "." + tld;
      LastOfSplit(front[1..], tld);
    }
  }

  /** The expressions of a kind match a name if one of the text's entries of that kind does. */
  lemma {:induction false} EntriesMatch(entries: seq<Entry>, isBlock: bool, name: string)
    ensures AnyMatch(ResOf(RegEntries(entries, isBlock)), name) <==>
              exists i | 0 <= i < |entries| :: EntryMatches(entries[i], isBlock, name)
  {
    if entries != [] {
      var front, e := entries[..|entries| - 1], entries[|entries| - 1];
      EntriesMatch(front, isBlock, name);
      var a, b := RegEntries(front, isBlock), RegsOf(e, isBlock);
      AnyMatchConcat(a, b, name);
      OneEntryMatches(e, isBlock, name);
      OneMoreMatches(front, e, isBlock, name);
      assert entries == front + [e];
    }
  }

  lemma OneMoreMatches(front: seq<Entry>, e: Entry, isBlock: bool, name: string)
    ensures (exists i | 0 <= i < |front + [e]| :: EntryMatches((front + [e])[i], isBlock, name))
       <==> EntryMatches(e, isBlock, name) || exists i | 0 <= i < |front| :: EntryMatches(front[i], isBlock, name)
  {
    if i :| 0 <= i < |front| && EntryMatches(front[i], isBlock, name) {
      assert EntryMatches((front + [e])[i], isBlock, name);
    }
    assert (front + [e])[|front|] == e;
  }

  /** Whether an entry's own expression is of that kind and matches. */
  predicate EntryMatches(e: Entry, isBlock: bool, name: string) {
    match e
    case Expression(text) => isBlock && MatchString(CompiledText(text).re, name)
    case Rule(domain, block) =>
      '*' in domain && block == isBlock && MatchString(CompiledText("^" + TranslateRule(domain) + "$").re, name)
    case _ => false
  }

  lemma OneEntryMatches(e: Entry, isBlock: bool, name: string)
    ensures AnyMatch(ResOf(RegsOf(e, isBlock)), name) <==> EntryMatches(e, isBlock, name)
  {
    var r := RegsOf(e, isBlock);
    assert r != [] ==> ResOf(r)[0] == r[0].re;
  }

  lemma AnyMatchConcat(a: seq<Regexp>, b: seq<Regexp>, name: string)
    ensures AnyMatch(ResOf(a + b), name) <==> AnyMatch(ResOf(a), name) || AnyMatch(ResOf(b), name)
  {
    assert forall k | 0 <= k < |a| :: ResOf(a + b)[k] == ResOf(a)[k];
    assert forall k | 0 <= k < |b| :: ResOf(a + b)[|a| + k] == ResOf(b)[k];
  }
}
