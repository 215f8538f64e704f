/** Hijack rewriting of outbound/groups.go: replacing a domain suffix in questions and undoing it in responses. */
module Hijack {
  import opened Messages
  import opened Texts

  // ------------------------------------------------------------------------------------------------
  // On strings, as the code does it

  function TrailingBackslashes(s: string): nat {
    if s != "" && s[|s| - 1] == '\\' then 1 + TrailingBackslashes(s[..|s| - 1]) else 0
  }

  /** dns.IsFqdn: a final dot that is not escaped. */
  predicate IsFqdn(s: string) {
    s != "" && s[|s| - 1] == '.' && TrailingBackslashes(s[..|s| - 1]) % 2 == 0
  }

  function Fqdn(s: string): string {
    if IsFqdn(s) then s else s + "."
  }

  function TrimSuffixDot(s: string): string {
    if HasSuffix(s, ".") then s[..|s| - 1] else s
  }

  function ReplaceDomainSuffix(name: string, source: string, dest: string): string {
    if name == "" || source == "" || dest == "" then name
    else
      var hasTrailingDot := HasSuffix(name, ".");
      var n, src, dst := Fqdn(name), Fqdn(source), Fqdn(dest);
      var suffix := "." + src;
      if EqualFold(n, src) then (if hasTrailingDot then dst else TrimSuffixDot(dst))
      else if |n| <= |suffix| || !EqualFold(n[|n| - |suffix|..], suffix) then name
      else
        var replaced := n[..|n| - |src|] + dst;
        if hasTrailingDot then replaced else TrimSuffixDot(replaced)
  }

  datatype Rule = Rule(source: string, dest: string)

  /** All rules in order. */
  function Forward(name: string, rules: seq<Rule>): string {
    if rules == [] then name
    else
      var front, r := rules[..|rules| - 1], rules[|rules| - 1];
      ReplaceDomainSuffix(Forward(name, front), r.source, r.dest)
  }

  /** All rules from the last to the first, each the other way round. */
  function Backward(name: string, rules: seq<Rule>): string {
    if rules == [] then name
    else ReplaceDomainSuffix(Backward(name, rules[1..]), rules[0].dest, rules[0].source)
  }

  /** What the whole rule list makes of one name. */
  function Rewritten(name: string, rules: seq<Rule>, reverse: bool): string {
    if reverse then Backward(name, rules) else Forward(name, rules)
  }

  /** The rules applied to question i in place, in the order of the direction. */
  method RewriteQuestion(questions: array<Question>, i: nat, rules: seq<Rule>, reverse: bool)
    requires i < questions.Length
    modifies questions
    ensures questions[i] == old(questions[i]).(name := Rewritten(old(questions[i].name), rules, reverse))
    ensures forall k | 0 <= k < questions.Length && k != i :: questions[k] == old(questions[k])
  {
    if reverse {
      var j := |rules|;
      assert rules[|rules|..] == [];
      while j > 0
        invariant 0 <= j <= |rules|
        invariant questions[i] == old(questions[i]).(name := Backward(old(questions[i].name), rules[j..]))
        invariant forall k | 0 <= k < questions.Length && k != i :: questions[k] == old(questions[k])
      {
        j := j - 1;
        assert rules[j..][0] == rules[j] && rules[j..][1..] == rules[j + 1..];
        questions[i] := questions[i].(name := ReplaceDomainSuffix(questions[i].name, rules[j].dest, rules[j].source));
      }
      assert rules[0..] == rules;
    } else {
      var j := 0;
      while j < |rules|
        invariant 0 <= j <= |rules|
        invariant questions[i] == old(questions[i]).(name := Forward(old(questions[i].name), rules[..j]))
        invariant forall k | 0 <= k < questions.Length && k != i :: questions[k] == old(questions[k])
      {
        assert rules[..j + 1][..j] == rules[..j];
        questions[i] := questions[i].(name := ReplaceDomainSuffix(questions[i].name, rules[j].source, rules[j].dest));
        j := j + 1;
      }
      assert rules[..|rules|] == rules;
    }
  }

  /** processHijackRules on the question section. */
  method RewriteQuestions(questions: array<Question>, rules: seq<Rule>, reverse: bool)
    modifies questions
    ensures forall i | 0 <= i < questions.Length ::
              questions[i] == old(questions[i]).(name := Rewritten(old(questions[i].name), rules, reverse))
  {
    var i := 0;
    while i < questions.Length
      invariant 0 <= i <= questions.Length
      invariant forall k | i <= k < questions.Length :: questions[k] == old(questions[k])
      invariant forall k | 0 <= k < i ::
                  questions[k] == old(questions[k]).(name := Rewritten(old(questions[k].name), rules, reverse))
    {
      RewriteQuestion(questions, i, rules, reverse);
      i := i + 1;
    }
  }

  // ------------------------------------------------------------------------------------------------
  // On labels, as it is meant

  type Labels = seq<string>

  function Folded(ls: Labels): (r: Labels)
    ensures |r| == |ls| && forall i | 0 <= i < |ls| :: r[i] == ToLower(ls[i])
  {
    seq(|ls|, i requires 0 <= i < |ls| => ToLower(ls[i]))
  }

  /** The same name up to ASCII case. */
  predicate Same(a: Labels, b: Labels) {
    Folded(a) == Folded(b)
  }

  /** ls is the domain source or lies below it. */
  predicate Under(ls: Labels, source: Labels) {
    |source| <= |ls| && Same(ls[|ls| - |source|..], source)
  }

  function ReplaceLabels(ls: Labels, source: Labels, dest: Labels): Labels {
    if Under(ls, source) then ls[..|ls| - |source|] + dest else ls
  }

  function Body(name: string): string {
    if HasSuffix(name, ".") then name[..|name| - 1] else name
  }

  function LabelsOf(name: string): Labels {
    Split(Body(name), '.')
  }

  /** A domain name other than the root, with or without its final dot: non-empty labels and no escapes. */
  predicate WellFormed(name: string) {
    && '\\' !in name
    && forall i | 0 <= i < |LabelsOf(name)| :: LabelsOf(name)[i] != ""
  }

  function Render(ls: Labels, dotted: bool): string {
    if dotted then Join(ls, '.') + "." else Join(ls, '.')
  }

  predicate Nonempty(ls: Labels) {
    ls != [] && forall i | 0 <= i < |ls| :: ls[i] != "" && '.' !in ls[i] && '\\' !in ls[i]
  }

  lemma {:induction false} NoBackslashes(s: string)
    requires '\\' !in s
    ensures TrailingBackslashes(s) == 0
  {
  }

  lemma PlainFqdn(s: string)
    requires '\\' !in s
    ensures Fqdn(s) == if HasSuffix(s, ".") then s else s + "."
  {
    if s != "" {
      NoBackslashes(s[..|s| - 1]);
      assert HasSuffix(s, ".") <==> s[|s| - 1] == '.' by {
        assert s[|s| - 1..] == [s[|s| - 1]];
      }
    }
  }

  lemma {:induction false} SplitKeepsChars(s: string, sep: char, c: char)
    requires c !in s
    ensures forall i | 0 <= i < |Split(s, sep)| :: c !in Split(s, sep)[i]
  {
    if s != "" {
      SplitKeepsChars(s[1..], sep, c);
    }
  }

  lemma {:induction false} JoinKeepsChars(ls: Labels, sep: char, c: char)
    requires c != sep && forall i | 0 <= i < |ls| :: c !in ls[i]
    ensures c !in Join(ls, sep)
  {
    if |ls| > 1 {
      JoinKeepsChars(ls[1..], sep, c);
    }
  }

  lemma WellFormedLabels(name: string)
    requires WellFormed(name)
    ensures Nonempty(LabelsOf(name)) && Render(LabelsOf(name), HasSuffix(name, ".")) == name
    ensures name != "" && Fqdn(name) == Render(LabelsOf(name), true)
  {
    SplitKeepsChars(Body(name), '.', '\\');
    JoinSplit(Body(name), '.');
    PlainFqdn(name);
    if HasSuffix(name, ".") {
      assert name == Body(name) + ".";
    }
  }

  /** Rendered labels read back, and lower-casing commutes with rendering. */
  lemma {:induction false} JoinFolded(ls: Labels)
    ensures ToLower(Join(ls, '.')) == Join(Folded(ls), '.')
  {
    if |ls| > 1 {
      JoinFolded(ls[1..]);
      assert Folded(ls)[1..] == Folded(ls[1..]);
      assert Lower('.') == '.';
      assert ToLower(Join(ls, '.')) == ToLower(ls[0]) + ['.'] + ToLower(Join(ls[1..], '.'));
    }
  }

  lemma {:induction false} JoinConcat(a: Labels, b: Labels)
    requires a != [] && b != []
    ensures Join(a + b, '.') == Join(a, '.') + "." + Join(b, '.')
  {
    if |a| == 1 {
      assert (a + b)[1..] == b;
    } else {
      assert (a + b)[1..] == a[1..] + b;
      JoinConcat(a[1..], b);
    }
  }

  lemma {:induction false} SplitConcat(x: string, y: string)
    ensures Split(x + "." + y, '.') == Split(x, '.') + Split(y, '.')
  {
    var s := x + "." + y;
    if x == "" {
      assert s[1..] == y;
    } else {
      assert s[0] == x[0] && s[1..] == x[1..] + "." + y;
      SplitConcat(x[1..], y);
    }
  }

  lemma FoldedDotFree(ls: Labels)
    requires Nonempty(ls)
    ensures forall i | 0 <= i < |Folded(ls)| :: Folded(ls)[i] != "" && '.' !in Folded(ls)[i]
  {
  }

  lemma RenderFolds(ls: Labels)
    ensures ToLower(Render(ls, true)) == Join(Folded(ls), '.') + "."
  {
    JoinFolded(ls);
    LowerConcat(Join(ls, '.'), ".");
    assert ToLower(".") == ".";
  }

  /** Equal texts up to case are equal label sequences up to case. */
  lemma EqualFoldIsSame(a: Labels, b: Labels)
    requires Nonempty(a) && Nonempty(b)
    ensures EqualFold(Render(a, true), Render(b, true)) <==> Same(a, b)
  {
    RenderFolds(a);
    RenderFolds(b);
    FoldedDotFree(a);
    FoldedDotFree(b);
    SplitJoin(Folded(a), '.');
    SplitJoin(Folded(b), '.');
    var x, y := Join(Folded(a), '.'), Join(Folded(b), '.');
    if x + "." == y + "." {
      assert x == (x + ".")[..|x + "."| - 1] == (y + ".")[..|y + "."| - 1] == y;
    }
  }

  /** The code's suffix test is the label test for a domain properly below source. */
  lemma SuffixTest(ls: Labels, source: Labels)
    requires Nonempty(ls) && Nonempty(source)
    ensures var n, suffix := Render(ls, true), "." + Render(source, true);
            (|n| > |suffix| && EqualFold(n[|n| - |suffix|..], suffix)) <==> |source| < |ls| && Under(ls, source)
  {
    var n, suffix := Render(ls, true), "." + Render(source, true);
    if |source| < |ls| && Under(ls, source) {
      BelowHasSuffix(ls, source);
    }
    if |n| > |suffix| && EqualFold(n[|n| - |suffix|..], suffix) {
      SuffixIsBelow(ls, source);
    }
  }

  /** A name below source is its own front, a dot, and a text equal to source up to case. */
  lemma BelowSplits(ls: Labels, source: Labels)
    requires Nonempty(ls) && Nonempty(source) && |source| < |ls| && Under(ls, source)
    ensures var a, b := ls[..|ls| - |source|], ls[|ls| - |source|..];
            && Nonempty(a) && Nonempty(b)
            && Render(ls, true) == Join(a, '.') + "." + Render(b, true)
            && EqualFold(Render(b, true), Render(source, true)) && |Render(b, true)| == |Render(source, true)|
            && Join(a, '.') != ""
  {
    var a, b := ls[..|ls| - |source|], ls[|ls| - |source|..];
    assert ls == a + b;
    JoinConcat(a, b);
    EqualFoldIsSame(b, source);
    assert |ToLower(Render(b, true))| == |ToLower(Render(source, true))|;
    NonemptyJoin(a);
  }

  lemma BelowHasSuffix(ls: Labels, source: Labels)
    requires Nonempty(ls) && Nonempty(source) && |source| < |ls| && Under(ls, source)
    ensures var n, suffix := Render(ls, true), "." + Render(source, true);
            |n| > |suffix| && EqualFold(n[|n| - |suffix|..], suffix)
  {
    BelowSplits(ls, source);
    var a, b := Join(ls[..|ls| - |source|], '.'), Render(ls[|ls| - |source|..], true);
    DottedSuffix(Render(ls, true), a, b, Render(source, true));
  }

  lemma DottedSuffix(n: string, a: string, b: string, source: string)
    requires n == a + "." + b && a != "" && EqualFold(b, source) && |b| == |source|
    ensures var suffix := "." + source; |n| > |suffix| && EqualFold(n[|n| - |suffix|..], suffix)
    ensures n[..|n| - |source|] == a + "."
  {
    assert n[|a|..] == "." + b;
    LowerConcat(".", b);
    LowerConcat(".", source);
  }

  lemma NonemptyJoin(ls: Labels)
    requires Nonempty(ls)
    ensures Join(ls, '.') != ""
  {
  }

  lemma SuffixIsBelow(ls: Labels, source: Labels)
    requires Nonempty(ls) && Nonempty(source)
    requires var n, suffix := Render(ls, true), "." + Render(source, true);
             |n| > |suffix| && EqualFold(n[|n| - |suffix|..], suffix)
    ensures |source| < |ls| && Under(ls, source)
  {
    var n, suffix := Render(ls, true), "." + Render(source, true);
    RenderFolds(ls);
    RenderFolds(source);
    LowerConcat(".", Render(source, true));
    assert ToLower(".") == ".";
    var x, y := Join(Folded(ls), '.'), Join(Folded(source), '.');
    var low := ToLower(n);
    assert low == x + ".";
    assert ToLower(n[|n| - |suffix|..]) == low[|n| - |suffix|..];
    assert low[|n| - |suffix|..] == "." + (y + ".");
    var front := low[..|n| - |suffix|];
    assert low == front + ("." + (y + "."));
    assert x == front + "." + y by {
      assert x == low[..|low| - 1];
      assert front + "." + y == (front + ("." + (y + ".")))[..|low| - 1];
    }
    FoldedDotFree(ls);
    FoldedDotFree(source);
    SplitJoin(Folded(ls), '.');
    SplitJoin(Folded(source), '.');
    SplitConcat(front, y);
    assert Folded(ls) == Split(front, '.') + Folded(source);
    var k := |ls| - |source|;
    assert Folded(ls[k..]) == Folded(ls)[k..] == Folded(source);
  }

  lemma TrimRendered(ls: Labels, text: string, dotted: bool)
    requires text == Render(ls, true)
    ensures (if dotted then text else TrimSuffixDot(text)) == Render(ls, dotted)
  {
    assert text[|text| - 1..] == "." && text[..|text| - 1] == Join(ls, '.');
  }

  /** replaceDomainSuffix on texts is suffix replacement on labels, and it keeps the final dot or its absence. */
  lemma ReplaceRefinesLabels(name: string, source: string, dest: string)
    requires WellFormed(name) && WellFormed(source) && WellFormed(dest)
    ensures ReplaceDomainSuffix(name, source, dest)
         == Render(ReplaceLabels(LabelsOf(name), LabelsOf(source), LabelsOf(dest)), HasSuffix(name, "."))
  {
    var ls, src, dst := LabelsOf(name), LabelsOf(source), LabelsOf(dest);
    WellFormedLabels(name);
    WellFormedLabels(source);
    WellFormedLabels(dest);
    ReplaceRendered(name, ls, source, src, dest, dst);
  }

  /** The three parts of what the code leaves of a name it rewrites. */
  lemma ReplacedBelow(ls: Labels, src: Labels, dst: Labels, n: string, source: string, dest: string)
    requires Nonempty(ls) && Nonempty(src) && Nonempty(dst) && |src| < |ls| && Under(ls, src)
    requires n == Render(ls, true) && source == Render(src, true) && dest == Render(dst, true)
    ensures |source| <= |n| && n[..|n| - |source|] + dest == Render(ReplaceLabels(ls, src, dst), true)
  {
    BelowSplits(ls, src);
    var a := ls[..|ls| - |src|];
    DottedSuffix(n, Join(a, '.'), Render(ls[|ls| - |src|..], true), source);
    JoinConcat(a, dst);
    assert n[..|n| - |source|] + dest == Join(a, '.') + "." + Join(dst, '.') + ".";
  }

  lemma ReplacedWhole(ls: Labels, src: Labels, dst: Labels)
    requires Same(ls, src)
    ensures ReplaceLabels(ls, src, dst) == dst
  {
    SameLength(ls, src);
    assert ls[0..] == ls && ls[..0] + dst == dst;
  }

  lemma ReplaceRendered(name: string, ls: Labels, source: string, src: Labels, dest: string, dst: Labels)
    requires Nonempty(ls) && Nonempty(src) && Nonempty(dst) && name != "" && source != "" && dest != ""
    requires name == Render(ls, HasSuffix(name, "."))
    requires Fqdn(name) == Render(ls, true) && Fqdn(source) == Render(src, true) && Fqdn(dest) == Render(dst, true)
    ensures ReplaceDomainSuffix(name, source, dest) == Render(ReplaceLabels(ls, src, dst), HasSuffix(name, "."))
  {
    EqualFoldIsSame(ls, src);
    SuffixTest(ls, src);
    var n, suffix := Fqdn(name), "." + Fqdn(source);
    var dotted, whole := HasSuffix(name, "."), ReplaceLabels(ls, src, dst);
    if EqualFold(n, Fqdn(source)) {
      ReplacedWhole(ls, src, dst);
      TrimRendered(dst, Fqdn(dest), dotted);
    } else if |n| > |suffix| && EqualFold(n[|n| - |suffix|..], suffix) {
      ReplacedBelow(ls, src, dst, n, Fqdn(source), Fqdn(dest));
      TrimRendered(whole, n[..|n| - |Fqdn(source)|] + Fqdn(dest), dotted);
    } else {
      NotUnder(ls, src);
    }
  }

  lemma NotUnder(ls: Labels, src: Labels)
    requires !Same(ls, src) && !(|src| < |ls| && Under(ls, src))
    ensures !Under(ls, src)
  {
    if |ls| == |src| {
      assert ls[0..] == ls;
    }
  }

  // ------------------------------------------------------------------------------------------------
  // There and back again

  lemma SameConcat(a: Labels, b: Labels, c: Labels, d: Labels)
    requires |a| == |c|
    ensures Same(a + b, c + d) <==> Same(a, c) && Same(b, d)
  {
    assert Folded(a + b) == Folded(a) + Folded(b) && Folded(c + d) == Folded(c) + Folded(d);
    if Folded(a) + Folded(b) == Folded(c) + Folded(d) {
      assert Folded(a) == (Folded(a) + Folded(b))[..|a|] == (Folded(c) + Folded(d))[..|a|] == Folded(c);
      assert Folded(b) == (Folded(a) + Folded(b))[|a|..] == (Folded(c) + Folded(d))[|a|..] == Folded(d);
    }
  }

  lemma SameLength(a: Labels, b: Labels)
    requires Same(a, b)
    ensures |a| == |b|
  {
    assert |Folded(a)| == |Folded(b)|;
  }

  /** Replacement does not see case. */
  lemma ReplaceRespectsSame(a: Labels, b: Labels, source: Labels, dest: Labels)
    requires Same(a, b)
    ensures Same(ReplaceLabels(a, source, dest), ReplaceLabels(b, source, dest))
  {
    SameLength(a, b);
    if |source| <= |a| {
      var k := |a| - |source|;
      assert a == a[..k] + a[k..] && b == b[..k] + b[k..];
      SameConcat(a[..k], a[k..], b[..k], b[k..]);
      SameConcat(a[..k], dest, b[..k], dest);
    }
  }

  /** The test a caller can make before the rewrite: the name is under the source, or not under the destination. */
  predicate Guard(ls: Labels, source: Labels, dest: Labels) {
    Under(ls, source) || !Under(ls, dest)
  }

  /** One rule forward and back returns the name up to case exactly when the guard holds. */
  lemma RoundTripIffGuard(ls: Labels, source: Labels, dest: Labels)
    ensures Same(ReplaceLabels(ReplaceLabels(ls, source, dest), dest, source), ls) <==> Guard(ls, source, dest)
  {
    if Under(ls, source) {
      var k := |ls| - |source|;
      var there := ls[..k] + dest;
      assert there[..k] == ls[..k] && there[k..] == dest;
      assert ReplaceLabels(there, dest, source) == ls[..k] + source;
      assert ls == ls[..k] + ls[k..];
      SameConcat(ls[..k], source, ls[..k], ls[k..]);
    } else if Under(ls, dest) {
      var k := |ls| - |dest|;
      var back := ls[..k] + source;
      assert ls == ls[..k] + ls[k..];
      if Same(back, ls) {
        SameLength(back, ls);
        SameConcat(ls[..k], source, ls[..k], ls[k..]);
      }
    }
  }

  /** The guard of every rule, each on the name the earlier rules produced. */
  predicate Guarded(name: string, rules: seq<Rule>)
    decreases |rules|
  {
    rules == []
    || (&& Guard(LabelsOf(name), LabelsOf(rules[0].source), LabelsOf(rules[0].dest))
        && Guarded(ReplaceDomainSuffix(name, rules[0].source, rules[0].dest), rules[1..]))
  }

  predicate WellFormedRules(rules: seq<Rule>) {
    forall i | 0 <= i < |rules| :: WellFormed(rules[i].source) && WellFormed(rules[i].dest)
  }

  lemma ForwardLast(name: string, rules: seq<Rule>, r: Rule)
    ensures Forward(name, rules + [r]) == ReplaceDomainSuffix(Forward(name, rules), r.source, r.dest)
  {
    assert (rules + [r])[..|rules|] == rules;
  }

  lemma {:induction false} ForwardAfter(name: string, r: Rule, rules: seq<Rule>)
    ensures Forward(name, [r] + rules) == Forward(Forward(name, [r]), rules)
  {
    if rules == [] {
      assert [r] + rules == [r];
    } else {
      var front, last := rules[..|rules| - 1], rules[|rules| - 1];
      ForwardAfter(name, r, front);
      ForwardLast(name, [r] + front, last);
      ForwardLast(Forward(name, [r]), front, last);
      assert [r] + rules == ([r] + front) + [last] && rules == front + [last];
    }
  }

  lemma ForwardFirst(name: string, rules: seq<Rule>)
    requires rules != []
    ensures Forward(name, rules) == Forward(ReplaceDomainSuffix(name, rules[0].source, rules[0].dest), rules[1..])
  {
    ForwardAfter(name, rules[0], rules[1..]);
    ForwardLast(name, [], rules[0]);
    assert [rules[0]] + rules[1..] == rules && [] + [rules[0]] == [rules[0]];
  }

  lemma ConcatNonempty(a: Labels, b: Labels)
    requires (forall i | 0 <= i < |a| :: a[i] != "" && '.' !in a[i] && '\\' !in a[i]) && Nonempty(b)
    ensures Nonempty(a + b)
  {
  }

  lemma RenderReads(ls: Labels, dotted: bool)
    requires Nonempty(ls)
    ensures WellFormed(Render(ls, dotted)) && LabelsOf(Render(ls, dotted)) == ls
    ensures HasSuffix(Render(ls, dotted), ".") == dotted
  {
    SplitJoin(ls, '.');
    JoinKeepsChars(ls, '.', '\\');
    var text := Join(ls, '.');
    JoinEndsPlain(ls);
    assert text[|text| - 1..] == [text[|text| - 1]];
    assert (text + ".")[..|text|] == text && (text + ".")[|text|..] == ".";
  }

  lemma {:induction false} JoinEndsPlain(ls: Labels)
    requires Nonempty(ls)
    ensures Join(ls, '.') != "" && Join(ls, '.')[|Join(ls, '.')| - 1] != '.'
  {
    if |ls| > 1 {
      JoinEndsPlain(ls[1..]);
    } else {
      assert ls[0][|ls[0]| - 1] in ls[0];
    }
  }

  /** A rewrite of a well-formed name is well formed, with the labels of the label rewrite. */
  lemma ReplaceWellFormed(name: string, source: string, dest: string)
    requires WellFormed(name) && WellFormed(source) && WellFormed(dest)
    ensures WellFormed(ReplaceDomainSuffix(name, source, dest))
    ensures LabelsOf(ReplaceDomainSuffix(name, source, dest))
         == ReplaceLabels(LabelsOf(name), LabelsOf(source), LabelsOf(dest))
    ensures HasSuffix(ReplaceDomainSuffix(name, source, dest), ".") == HasSuffix(name, ".")
  {
    ReplaceRefinesLabels(name, source, dest);
    WellFormedLabels(name);
    WellFormedLabels(source);
    WellFormedLabels(dest);
    var ls, src, dst := LabelsOf(name), LabelsOf(source), LabelsOf(dest);
    if Under(ls, src) {
      ConcatNonempty(ls[..|ls| - |src|], dst);
    }
    RenderReads(ReplaceLabels(ls, src, dst), HasSuffix(name, "."));
  }

  lemma SameLabelsEqualFold(a: string, b: string)
    requires WellFormed(a) && WellFormed(b) && HasSuffix(a, ".") == HasSuffix(b, ".") && Same(LabelsOf(a), LabelsOf(b))
    ensures EqualFold(a, b)
  {
    WellFormedLabels(a);
    WellFormedLabels(b);
    JoinFolded(LabelsOf(a));
    JoinFolded(LabelsOf(b));
    LowerConcat(Join(LabelsOf(a), '.'), ".");
    LowerConcat(Join(LabelsOf(b), '.'), ".");
  }

  lemma FoldedTextsAreSame(a: string, b: string)
    requires WellFormed(a) && WellFormed(b) && HasSuffix(a, ".") == HasSuffix(b, ".") && EqualFold(a, b)
    ensures Same(LabelsOf(a), LabelsOf(b))
  {
    WellFormedLabels(a);
    WellFormedLabels(b);
    EqualFoldIsSame(LabelsOf(a), LabelsOf(b));
    PlainFqdn(a);
    PlainFqdn(b);
    LowerConcat(a, ".");
    LowerConcat(b, ".");
  }

  lemma {:induction false} ForwardKeepsDot(name: string, rules: seq<Rule>)
    requires WellFormedRules(rules) && WellFormed(name)
    ensures WellFormed(Forward(name, rules)) && HasSuffix(Forward(name, rules), ".") == HasSuffix(name, ".")
  {
    if rules != [] {
      var front, r := rules[..|rules| - 1], rules[|rules| - 1];
      ForwardKeepsDot(name, front);
      ReplaceWellFormed(Forward(name, front), r.source, r.dest);
    }
  }

  lemma {:induction false} BackwardWellFormed(b: string, rules: seq<Rule>)
    requires WellFormedRules(rules) && WellFormed(b)
    ensures WellFormed(Backward(b, rules)) && HasSuffix(Backward(b, rules), ".") == HasSuffix(b, ".")
  {
    if rules != [] {
      BackwardWellFormed(b, rules[1..]);
      ReplaceWellFormed(Backward(b, rules[1..]), rules[0].dest, rules[0].source);
    }
  }

  lemma SameUnder(a: Labels, b: Labels, source: Labels)
    requires Same(a, b)
    ensures Under(a, source) <==> Under(b, source)
  {
    SameLength(a, b);
    if |source| <= |a| {
      var k := |a| - |source|;
      assert a == a[..k] + a[k..] && b == b[..k] + b[k..];
      SameConcat(a[..k], a[k..], b[..k], b[k..]);
    }
  }

  lemma ReplacedIsUnder(ls: Labels, source: Labels, dest: Labels)
    requires Under(ls, source)
    ensures Under(ReplaceLabels(ls, source, dest), dest)
  {
    var k := |ls| - |source|;
    assert (ls[..k] + dest)[k..] == dest;
  }

  /** What a rule undone turns into y: the rewrite of y, if it is under the source, or y, if not under the dest. */
  lemma ReplacePreimage(b: Labels, y: Labels, source: Labels, dest: Labels)
    ensures Same(ReplaceLabels(b, dest, source), y) <==>
              || (Under(y, source) && Same(b, ReplaceLabels(y, source, dest)))
              || (!Under(y, dest) && Same(b, y))
  {
    if Under(b, dest) {
      if Same(ReplaceLabels(b, dest, source), y) {
        ReplacedIsUnder(b, dest, source);
        SameUnder(ReplaceLabels(b, dest, source), y, source);
        ReplaceRespectsSame(ReplaceLabels(b, dest, source), y, source, dest);
        UndoneIsSame(b, dest, source);
      }
      if Under(y, source) && Same(b, ReplaceLabels(y, source, dest)) {
        ReplaceRespectsSame(b, ReplaceLabels(y, source, dest), dest, source);
        UndoneIsSame(y, source, dest);
      }
    } else if Under(y, source) && Same(b, ReplaceLabels(y, source, dest)) {
      ReplacedIsUnder(y, source, dest);
      SameUnder(b, ReplaceLabels(y, source, dest), dest);
    }
    if Same(b, y) {
      SameUnder(b, y, dest);
    }
  }

  lemma UndoneIsSame(ls: Labels, source: Labels, dest: Labels)
    requires Under(ls, source)
    ensures Same(ReplaceLabels(ReplaceLabels(ls, source, dest), dest, source), ls)
  {
    RoundTripIffGuard(ls, source, dest);
  }

  /**
   Some way of passing the rules in order leads from y to goal: at each rule either y is under the source and goes on
   rewritten, or it is not under the destination and goes on as it is.
   */
  predicate Leads(y: Labels, goal: Labels, rules: seq<Rule>)
    decreases |rules|
  {
    if rules == [] then Same(y, goal)
    else
      var src, dst := LabelsOf(rules[0].source), LabelsOf(rules[0].dest);
      || (Under(y, src) && Leads(ReplaceLabels(y, src, dst), goal, rules[1..]))
      || (!Under(y, dst) && Leads(y, goal, rules[1..]))
  }

  lemma {:induction false} BackwardLeads(b: string, y: Labels, rules: seq<Rule>)
    requires WellFormedRules(rules) && WellFormed(b)
    ensures Same(LabelsOf(Backward(b, rules)), y) <==> Leads(y, LabelsOf(b), rules)
    decreases |rules|
  {
    if rules != [] {
      var src, dst, rest := LabelsOf(rules[0].source), LabelsOf(rules[0].dest), rules[1..];
      BackwardWellFormed(b, rest);
      ReplaceWellFormed(Backward(b, rest), rules[0].dest, rules[0].source);
      ReplacePreimage(LabelsOf(Backward(b, rest)), y, src, dst);
      BackwardLeads(b, ReplaceLabels(y, src, dst), rest);
      BackwardLeads(b, y, rest);
    }
  }

  /** An echo comes back as the client's name, up to ASCII case, if and only if the name leads to the echo. */
  lemma EchoReturnsIffLeads(name: string, echo: string, rules: seq<Rule>)
    requires WellFormedRules(rules) && WellFormed(name) && WellFormed(echo)
    requires HasSuffix(echo, ".") == HasSuffix(name, ".")
    ensures EqualFold(Backward(echo, rules), name) <==> Leads(LabelsOf(name), LabelsOf(echo), rules)
  {
    BackwardLeads(echo, LabelsOf(name), rules);
    BackwardWellFormed(echo, rules);
    if EqualFold(Backward(echo, rules), name) {
      FoldedTextsAreSame(Backward(echo, rules), name);
    }
    if Same(LabelsOf(Backward(echo, rules)), LabelsOf(name)) {
      SameLabelsEqualFold(Backward(echo, rules), name);
    }
  }

  /**
   A question rewritten by all rules and then back by all rules is the original name up to ASCII case if and only if
   the name leads to its own rewrite: a test on the name and the forward rewrite alone.
   */
  lemma HijackRoundTripIff(name: string, rules: seq<Rule>)
    requires WellFormedRules(rules) && WellFormed(name)
    ensures EqualFold(Backward(Forward(name, rules), rules), name)
       <==> Leads(LabelsOf(name), LabelsOf(Forward(name, rules)), rules)
  {
    ForwardKeepsDot(name, rules);
    EchoReturnsIffLeads(name, Forward(name, rules), rules);
  }

  lemma {:induction false} LeadsFolds(y: Labels, a: Labels, b: Labels, rules: seq<Rule>)
    requires Same(a, b)
    ensures Leads(y, a, rules) <==> Leads(y, b, rules)
    decreases |rules|
  {
    if rules != [] {
      var src, dst := LabelsOf(rules[0].source), LabelsOf(rules[0].dest);
      LeadsFolds(ReplaceLabels(y, src, dst), a, b, rules[1..]);
      LeadsFolds(y, a, b, rules[1..]);
    }
  }

  /** The guards of all rules are one such way. */
  lemma {:induction false} GuardedLeads(name: string, rules: seq<Rule>)
    requires WellFormedRules(rules) && WellFormed(name) && Guarded(name, rules)
    ensures Leads(LabelsOf(name), LabelsOf(Forward(name, rules)), rules)
    decreases |rules|
  {
    if rules != [] {
      ForwardFirst(name, rules);
      ReplaceWellFormed(name, rules[0].source, rules[0].dest);
      GuardedLeads(ReplaceDomainSuffix(name, rules[0].source, rules[0].dest), rules[1..]);
    }
  }

  /** In particular the name comes back when each rule's guard held on the way out. */
  lemma HijackRoundTrip(name: string, rules: seq<Rule>)
    requires WellFormedRules(rules) && WellFormed(name) && Guarded(name, rules)
    ensures EqualFold(Backward(Forward(name, rules), rules), name)
  {
    GuardedLeads(name, rules);
    HijackRoundTripIff(name, rules);
  }

  /** An upstream that echoes the rewritten question in another case changes nothing. */
  lemma EchoRoundTripIff(name: string, echo: string, rules: seq<Rule>)
    requires WellFormedRules(rules) && WellFormed(name) && WellFormed(echo)
    requires EqualFold(echo, Forward(name, rules)) && HasSuffix(echo, ".") == HasSuffix(name, ".")
    ensures EqualFold(Backward(echo, rules), name) <==> EqualFold(Backward(Forward(name, rules), rules), name)
  {
    ForwardKeepsDot(name, rules);
    FoldedTextsAreSame(echo, Forward(name, rules));
    LeadsFolds(LabelsOf(name), LabelsOf(echo), LabelsOf(Forward(name, rules)), rules);
    EchoReturnsIffLeads(name, echo, rules);
    HijackRoundTripIff(name, rules);
  }

  lemma SingleRule(name: string, rule: Rule)
    ensures Forward(name, [rule]) == ReplaceDomainSuffix(name, rule.source, rule.dest)
    ensures Backward(name, [rule]) == ReplaceDomainSuffix(name, rule.dest, rule.source)
    ensures Guarded(name, [rule]) <==> Guard(LabelsOf(name), LabelsOf(rule.source), LabelsOf(rule.dest))
  {
    assert [rule][..0] == [] && [rule][1..] == [];
  }

  /** With one rule there is only one way, so its guard is exact: unless it holds, another name comes back. */
  lemma OneRuleRoundTripIff(name: string, rule: Rule)
    requires WellFormed(rule.source) && WellFormed(rule.dest) && WellFormed(name)
    ensures EqualFold(Backward(Forward(name, [rule]), [rule]), name) <==> Guarded(name, [rule])
  {
    HijackRoundTripIff(name, [rule]);
    OneRuleLeads(name, rule);
  }

  lemma OneRuleLeads(name: string, rule: Rule)
    requires WellFormed(rule.source) && WellFormed(rule.dest) && WellFormed(name)
    ensures Leads(LabelsOf(name), LabelsOf(Forward(name, [rule])), [rule]) <==> Guarded(name, [rule])
  {
    if Guarded(name, [rule]) {
      GuardedLeads(name, [rule]);
    }
    var y, goal := LabelsOf(name), LabelsOf(Forward(name, [rule]));
    if Leads(y, goal, [rule]) {
      OneWay(y, goal, rule);
      GuardOfOne(name, rule);
    }
  }

  lemma GuardOfOne(name: string, rule: Rule)
    ensures Guarded(name, [rule]) <==> Guard(LabelsOf(name), LabelsOf(rule.source), LabelsOf(rule.dest))
  {
    SingleRule(name, rule);
  }

  lemma OneWay(y: Labels, goal: Labels, rule: Rule)
    requires Leads(y, goal, [rule])
    ensures Guard(y, LabelsOf(rule.source), LabelsOf(rule.dest))
  {
  }

  /** The names the guard refuses are there: asked for a rule's own destination, a client gets the source back. */
  lemma DestinationIsLost(rule: Rule)
    requires WellFormed(rule.source) && WellFormed(rule.dest)
    requires !Under(LabelsOf(rule.dest), LabelsOf(rule.source))
    ensures !EqualFold(Backward(Forward(rule.dest, [rule]), [rule]), rule.dest)
    ensures Same(LabelsOf(Backward(Forward(rule.dest, [rule]), [rule])), LabelsOf(rule.source))
  {
    var src, dst := LabelsOf(rule.source), LabelsOf(rule.dest);
    OneRuleRoundTripIff(rule.dest, rule);
    SingleRule(rule.dest, rule);
    SingleRule(Forward(rule.dest, [rule]), rule);
    ReplaceWellFormed(rule.dest, rule.source, rule.dest);
    ReplaceWellFormed(Forward(rule.dest, [rule]), rule.dest, rule.source);
    assert dst[0..] == dst && dst[..0] + src == src;
  }

  /** From every stage on, the rules still ahead bring the stage's name back. */
  predicate StagesReturn(name: string, rules: seq<Rule>)
    decreases |rules|
  {
    rules == []
    || (&& EqualFold(Backward(Forward(name, rules), rules), name)
        && StagesReturn(ReplaceDomainSuffix(name, rules[0].source, rules[0].dest), rules[1..]))
  }

  /** With any number of rules the guards are exact for the stages: all return if and only if all guards hold. */
  lemma {:induction false} StagesReturnIffGuarded(name: string, rules: seq<Rule>)
    requires WellFormedRules(rules) && WellFormed(name)
    ensures StagesReturn(name, rules) <==> Guarded(name, rules)
    decreases |rules|
  {
    if rules != [] {
      var r, rest := rules[0], rules[1..];
      var there := ReplaceDomainSuffix(name, r.source, r.dest);
      ReplaceWellFormed(name, r.source, r.dest);
      StagesReturnIffGuarded(there, rest);
      if Guarded(name, rules) {
        HijackRoundTrip(name, rules);
      }
      HijackRoundTripIff(name, rules);
    }
  }

  lemma TwoRules(name: string, r: Rule, q: Rule)
    ensures Forward(name, [r, q]) == Forward(Forward(name, [r]), [q])
    ensures Backward(name, [r, q]) == Backward(Backward(name, [q]), [r])
    ensures Guarded(name, [r, q]) <==> Guarded(name, [r]) && Guarded(Forward(name, [r]), [q])
  {
    assert [r, q][..1] == [r] && [r, q][1..] == [q];
    SingleRule(name, r);
    SingleRule(Forward(name, [r]), q);
    SingleRule(name, q);
    SingleRule(Backward(name, [q]), r);
  }

  /** For longer lists the guards are not necessary: a rule listed twice breaks its second guard and still returns. */
  lemma GuardsNotNecessary(name: string, rule: Rule)
    requires WellFormed(rule.source) && WellFormed(rule.dest) && WellFormed(name)
    requires Under(LabelsOf(name), LabelsOf(rule.source)) && !Under(LabelsOf(name), LabelsOf(rule.dest))
    requires !Under(LabelsOf(Forward(name, [rule])), LabelsOf(rule.source))
    ensures !Guarded(name, [rule, rule])
    ensures EqualFold(Backward(Forward(name, [rule, rule]), [rule, rule]), name)
  {
    var src, dst, there := LabelsOf(rule.source), LabelsOf(rule.dest), Forward(name, [rule]);
    TwoRules(name, rule, rule);
    SingleRule(name, rule);
    SingleRule(there, rule);
    ReplaceWellFormed(name, rule.source, rule.dest);
    ReplacedIsUnder(LabelsOf(name), src, dst);
    StaysPut(there, rule.source, rule.dest);
    assert [rule, rule][1..] == [rule] && [rule][1..] == [];
    assert Leads(LabelsOf(name), LabelsOf(there), [rule]);
    HijackRoundTripIff(name, [rule, rule]);
  }

  /** A name not under the source is returned as it is. */
  lemma StaysPut(name: string, source: string, dest: string)
    requires WellFormed(name) && WellFormed(source) && WellFormed(dest) && !Under(LabelsOf(name), LabelsOf(source))
    ensures ReplaceDomainSuffix(name, source, dest) == name
  {
    ReplaceRefinesLabels(name, source, dest);
    WellFormedLabels(name);
  }

  // ------------------------------------------------------------------------------------------------
  // On any text, escapes and the root included

  function Backslashes(k: nat): string {
    if k == 0 then "" else Backslashes(k - 1) + "\\"
  }

  lemma {:induction false} BackslashesCount(front: string, k: nat)
    requires front == "" || front[|front| - 1] != '\\'
    ensures TrailingBackslashes(front + Backslashes(k)) == k
  {
    var s := front + Backslashes(k);
    if k == 0 {
      assert s == front;
    } else {
      assert s[|s| - 1] == '\\' && s[..|s| - 1] == front + Backslashes(k - 1);
      BackslashesCount(front, k - 1);
    }
  }

  /** A final dot ends a name if the backslashes before it are even in number; an odd one escapes it. */
  lemma FqdnIs(front: string, k: nat)
    requires front == "" || front[|front| - 1] != '\\'
    ensures var s := front + Backslashes(k) + "."; Fqdn(s) == if k % 2 == 0 then s else s + "."
    ensures front != "" && front[|front| - 1] != '.' ==> Fqdn(front) == front + "."
  {
    BackslashesCount(front, k);
    var s := front + Backslashes(k) + ".";
    assert s[|s| - 1] == '.' && s[..|s| - 1] == front + Backslashes(k);
  }

  /** The name is the source itself or stands below it: front is what is before the source, with its dot. */
  ghost predicate SplitsAt(name: string, source: string, front: string) {
    && |front| <= |Fqdn(name)| && Fqdn(name)[..|front|] == front
    && EqualFold(Fqdn(name)[|front|..], Fqdn(source))
    && (front == "" || (|front| > 1 && front[|front| - 1] == '.'))
  }

  /**
   Whatever the texts: a name that is the source, or stands below it, gets the destination in place of the source and
   keeps what is before it and whether it ends in a dot; any other name, and any name with an empty rule, stays.
   */
  lemma ReplaceIs(name: string, source: string, dest: string)
    ensures name == "" || source == "" || dest == "" ==> ReplaceDomainSuffix(name, source, dest) == name
    ensures name != "" && source != "" && dest != "" ==>
              forall front | SplitsAt(name, source, front) ::
                ReplaceDomainSuffix(name, source, dest)
                == if HasSuffix(name, ".") then front + Fqdn(dest) else TrimSuffixDot(front + Fqdn(dest))
    ensures (forall front :: !SplitsAt(name, source, front)) ==> ReplaceDomainSuffix(name, source, dest) == name
  {
    if name != "" && source != "" && dest != "" {
      forall front | SplitsAt(name, source, front)
        ensures ReplaceDomainSuffix(name, source, dest)
             == if HasSuffix(name, ".") then front + Fqdn(dest) else TrimSuffixDot(front + Fqdn(dest))
      {
        ReplacedAt(name, source, dest, front);
      }
      if ReplaceDomainSuffix(name, source, dest) != name {
        ReplacedSplits(name, source, dest);
      }
    }
  }

  lemma FoldedLength(a: string, b: string)
    requires EqualFold(a, b)
    ensures |a| == |b|
  {
    assert |ToLower(a)| == |ToLower(b)|;
  }

  lemma FoldedDot(a: string, b: string)
    ensures EqualFold("." + a, "." + b) <==> EqualFold(a, b)
    ensures forall x: string | x != "" && EqualFold(x, "." + b) :: x[0] == '.' && EqualFold(x[1..], b)
  {
    LowerConcat(".", a);
    LowerConcat(".", b);
    assert ToLower(".") == ".";
    assert ToLower("." + a)[1..] == ToLower(a) && ToLower("." + b)[1..] == ToLower(b);
    forall x: string | x != "" && EqualFold(x, "." + b) ensures x[0] == '.' && EqualFold(x[1..], b) {
      assert ToLower(x)[0] == '.' && ToLower(x)[1..] == ToLower(b);
      assert ToLower(x[1..]) == ToLower(x)[1..];
    }
  }

  lemma ReplacedAt(name: string, source: string, dest: string, front: string)
    requires name != "" && source != "" && dest != "" && SplitsAt(name, source, front)
    ensures ReplaceDomainSuffix(name, source, dest)
         == if HasSuffix(name, ".") then front + Fqdn(dest) else TrimSuffixDot(front + Fqdn(dest))
  {
    var n, src := Fqdn(name), Fqdn(source);
    var tail := n[|front|..];
    FoldedLength(tail, src);
    if front == "" {
      assert tail == n && front + Fqdn(dest) == Fqdn(dest);
    } else {
      var suffix := "." + src;
      assert |n| > |suffix| && n[|n| - |suffix|..] == "." + tail;
      FoldedDot(tail, src);
      assert n[..|n| - |src|] == front;
      if EqualFold(n, src) {
        FoldedLength(n, src);
      }
    }
  }

  lemma ReplacedSplits(name: string, source: string, dest: string)
    requires ReplaceDomainSuffix(name, source, dest) != name
    ensures exists front :: SplitsAt(name, source, front)
  {
    var n, src := Fqdn(name), Fqdn(source);
    if EqualFold(n, src) {
      assert n[0..] == n && n[..0] == "";
      assert SplitsAt(name, source, "");
    } else {
      var suffix := "." + src;
      var x := n[|n| - |suffix|..];
      FoldedDot(x[1..], src);
      var front := n[..|n| - |src|];
      assert n[|front|..] == x[1..] && front[|front| - 1] == x[0];
      assert SplitsAt(name, source, front);
    }
  }
}
