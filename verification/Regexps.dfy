/**
 The part of Go's regular expressions the wildcard rules compile to: literals, `.`, `*`, the anchors and alternation.
 Matching is given by which stretches of a text an expression spans, not by an algorithm.
 */
module Regexps {
  import opened Options
  import opened Texts

  datatype Re =
    | Empty
    | Lit(c: char)
    | AnyChar
    | Star(r: Re)
    | Cat(a: Re, b: Re)
    | Alt(a: Re, b: Re)
    | Begin
    | End

  /** r matches s from i up to j. AnyChar does not match a line break. */
  predicate Spans(r: Re, s: string, i: nat, j: nat)
    requires i <= j <= |s|
    decreases r, j - i
  {
    match r
    case Empty => i == j
    case Lit(c) => j == i + 1 && s[i] == c
    case AnyChar => j == i + 1 && s[i] != '\n'
    case Star(q) => i == j || exists k | i < k <= j :: Spans(q, s, i, k) && Spans(r, s, k, j)
    case Cat(a, b) => exists k | i <= k <= j :: Spans(a, s, i, k) && Spans(b, s, k, j)
    case Alt(a, b) => Spans(a, s, i, j) || Spans(b, s, i, j)
    case Begin => i == j == 0
    case End => i == j == |s|
  }

  /** Regexp.MatchString: a match anywhere in s. */
  predicate MatchString(r: Re, s: string) {
    exists i, j | 0 <= i <= j <= |s| :: Spans(r, s, i, j)
  }

  lemma CatSplits(a: Re, b: Re, s: string, i: nat, j: nat) returns (k: nat)
    requires i <= j <= |s| && Spans(Cat(a, b), s, i, j)
    ensures i <= k <= j && Spans(a, s, i, k) && Spans(b, s, k, j)
  {
    k :| i <= k <= j && Spans(a, s, i, k) && Spans(b, s, k, j);
  }

  lemma CatJoins(a: Re, b: Re, s: string, i: nat, k: nat, j: nat)
    requires i <= k <= j <= |s| && Spans(a, s, i, k) && Spans(b, s, k, j)
    ensures Spans(Cat(a, b), s, i, j)
  {
  }

  /** r matches some stretch of s that starts at i. */
  predicate SpansFrom(r: Re, s: string, i: nat)
    requires i <= |s|
  {
    exists j | i <= j <= |s| :: Spans(r, s, i, j)
  }

  predicate IsMeta(c: char) {
    c in "()[]{}+?|*"
  }

  /** One item of a text: a character, an escaped dot, `.`, or an anchor. None outside the subset. */
  function Atom(t: string): Option<(Re, string)>
    requires t != ""
  {
    if t[0] == '\\' then
      if |t| >= 2 && t[1] == '.' then Some((Lit('.'), t[2..])) else None
    else if t[0] == '.' then Some((AnyChar, t[1..]))
    else if t[0] == '^' then Some((Begin, t[1..]))
    else if t[0] == '$' then Some((End, t[1..]))
    else if IsMeta(t[0]) then None
    else Some((Lit(t[0]), t[1..]))
  }

  /** The items of a text, each with a possible `*`; two stars in a row do not compile. */
  function Items(t: string): Option<seq<Re>>
    decreases |t|
  {
    if t == "" then Some([])
    else
      match Atom(t)
      case None => None
      case Some((atom, rest)) =>
        if rest != "" && rest[0] == '*' then
          if |rest| > 1 && rest[1] == '*' then None
          else
            match Items(rest[1..])
            case None => None
            case Some(items) => Some([Star(atom)] + items)
        else
          match Items(rest)
          case None => None
          case Some(items) => Some([atom] + items)
  }

  function Concat(items: seq<Re>): Re {
    if items == [] then Empty else Cat(items[0], Concat(items[1..]))
  }

  /** regexp.Compile, on texts of the subset. */
  function Compile(t: string): Option<Re> {
    match Items(t)
    case None => None
    case Some(items) => Some(Concat(items))
  }

  /** The expressions as alternatives. */
  function AnyOf(rs: seq<Re>): Re
    requires rs != []
  {
    if |rs| == 1 then rs[0] else Alt(rs[0], AnyOf(rs[1..]))
  }

  /** A merged expression matches exactly when one of its parts does. */
  lemma {:induction false} AnyOfMatches(rs: seq<Re>, s: string)
    requires rs != []
    ensures MatchString(AnyOf(rs), s) <==> exists k | 0 <= k < |rs| :: MatchString(rs[k], s)
  {
    if |rs| > 1 {
      AnyOfMatches(rs[1..], s);
      var rest := AnyOf(rs[1..]);
      assert MatchString(AnyOf(rs), s) <==> MatchString(rs[0], s) || MatchString(rest, s) by {
        forall i, j | 0 <= i <= j <= |s|
          ensures Spans(AnyOf(rs), s, i, j) <==> Spans(rs[0], s, i, j) || Spans(rest, s, i, j)
        {
        }
      }
      if k :| 0 <= k < |rs| && MatchString(rs[k], s) {
        assert k > 0 ==> rs[1..][k - 1] == rs[k];
      }
      if k :| 0 <= k < |rs| - 1 && MatchString(rs[1..][k], s) {
        assert rs[1..][k] == rs[k + 1];
      }
    }
  }

  // ------------------------------------------------------------------------------------------------
  // Texts of alternatives

  /** A compiled expression with the text it was compiled from. */
  datatype Regexp = Regexp(text: string, re: Re)

  predicate Compiled(regs: seq<Regexp>) {
    forall i | 0 <= i < |regs| :: Compile(regs[i].text) == Some(regs[i].re)
  }

  function ResOf(regs: seq<Regexp>): (r: seq<Re>)
    ensures |r| == |regs| && forall i | 0 <= i < |regs| :: r[i] == regs[i].re
  {
    seq(|regs|, i requires 0 <= i < |regs| => regs[i].re)
  }

  /** What stands between `(?:` and `)`. */
  function GroupBody(part: string): Option<string> {
    if |part| >= 4 && part[..3] == "(?:" && part[|part| - 1] == ')' then Some(part[3..|part| - 1]) else None
  }

  function CompileGroups(parts: seq<string>): Option<seq<Re>> {
    if parts == [] then Some([])
    else
      match GroupBody(parts[0])
      case None => None
      case Some(body) =>
        match (Compile(body), CompileGroups(parts[1..]))
        case (Some(r), Some(rest)) => Some([r] + rest)
        case _ => None
  }

  /** regexp.Compile on groups separated by bars. */
  function CompileAlternatives(t: string): Option<Re> {
    match CompileGroups(Split(t, '|'))
    case None => None
    case Some(rs) => if rs == [] then None else Some(AnyOf(rs))
  }

  /** A text that compiles to items has no bar. */
  lemma {:induction false} ItemsHaveNoBar(t: string)
    requires Items(t).Some?
    ensures '|' !in t
    decreases |t|
  {
    if t != "" {
      var (_, rest) := Atom(t).value;
      var k := |t| - |rest|;
      assert t == t[..k] + rest;
      if rest != "" && rest[0] == '*' {
        ItemsHaveNoBar(rest[1..]);
        assert rest == [rest[0]] + rest[1..];
      } else {
        ItemsHaveNoBar(rest);
      }
      assert IsMeta('|') by {
        assert "()[]{}+?|*"[8] == '|';
      }
      assert '|' !in t[..k];
    }
  }

  function Group(r: Regexp): string {
    "(?:" + r.text + ")"
  }

  function Groups(regs: seq<Regexp>): (r: seq<string>)
    ensures |r| == |regs| && forall i | 0 <= i < |regs| :: r[i] == Group(regs[i])
  {
    seq(|regs|, i requires 0 <= i < |regs| => Group(regs[i]))
  }

  lemma GroupParses(r: Regexp)
    requires Compile(r.text) == Some(r.re)
    ensures GroupBody(Group(r)) == Some(r.text) && '|' !in Group(r)
  {
    ItemsHaveNoBar(r.text);
    var g := Group(r);
    assert g[..3] == "(?:" && g[3..|g| - 1] == r.text;
  }

  lemma {:induction false} GroupsCompile(regs: seq<Regexp>)
    requires Compiled(regs)
    ensures CompileGroups(Groups(regs)) == Some(ResOf(regs))
  {
    if regs != [] {
      GroupParses(regs[0]);
      GroupsCompile(regs[1..]);
      assert Groups(regs)[1..] == Groups(regs[1..]);
      assert ResOf(regs) == [regs[0].re] + ResOf(regs[1..]);
    }
  }

  /** Joining the groups of compiled expressions by bars gives a text that compiles, to their alternatives. */
  lemma JoinedCompiles(regs: seq<Regexp>)
    requires Compiled(regs) && regs != []
    ensures CompileAlternatives(Join(Groups(regs), '|')) == Some(AnyOf(ResOf(regs)))
  {
    forall i | 0 <= i < |regs| ensures '|' !in Groups(regs)[i] {
      GroupParses(regs[i]);
    }
    SplitJoin(Groups(regs), '|');
    GroupsCompile(regs);
  }

  /** A text without syntax. */
  predicate Literal(text: string) {
    forall c | c in text :: c != '\\' && c != '.' && c != '^' && c != '$' && !IsMeta(c)
  }

  function Lits(text: string): seq<Re> {
    if text == "" then [] else [Lit(text[0])] + Lits(text[1..])
  }

  lemma {:induction false} LiteralItems(text: string)
    requires Literal(text)
    ensures Items(text) == Some(Lits(text))
  {
    if text != "" {
      assert text[0] in text && forall c | c in text[1..] :: c in text;
      assert Atom(text) == Some((Lit(text[0]), text[1..]));
      if |text| > 1 {
        assert text[1] in text;
      }
      LiteralItems(text[1..]);
    }
  }

  lemma {:induction false} LitsSpan(text: string, s: string, i: nat, j: nat)
    requires i <= j <= |s|
    ensures Spans(Concat(Lits(text)), s, i, j) <==> s[i..j] == text
  {
    if text != "" {
      var rest := text[1..];
      assert Concat(Lits(text)) == Cat(Lit(text[0]), Concat(Lits(rest))) by {
        assert Lits(text)[1..] == Lits(rest);
      }
      if i < j {
        LitsSpan(rest, s, i + 1, j);
        assert s[i..j] == [s[i]] + s[i + 1..j] && text == [text[0]] + rest;
        LitInFront(text[0], Concat(Lits(rest)), s, i, j);
      } else {
        LitInFront(text[0], Concat(Lits(rest)), s, i, j);
      }
    }
  }

  lemma LitInFront(c: char, r: Re, s: string, i: nat, j: nat)
    requires i <= j <= |s|
    ensures Spans(Cat(Lit(c), r), s, i, j) <==> i < j && s[i] == c && Spans(r, s, i + 1, j)
  {
    if Spans(Cat(Lit(c), r), s, i, j) {
      var k := CatSplits(Lit(c), r, s, i, j);
    }
    if i < j && s[i] == c && Spans(r, s, i + 1, j) {
      CatJoins(Lit(c), r, s, i, i + 1, j);
    }
  }

  /** An expression without syntax matches exactly the texts that contain it, anywhere. */
  lemma LiteralMatches(text: string, s: string)
    requires Literal(text)
    ensures Compile(text).Some?
    ensures MatchString(Compile(text).value, s) <==> exists i, j | 0 <= i <= j <= |s| :: s[i..j] == text
  {
    LiteralItems(text);
    var r := Concat(Lits(text));
    forall i, j | 0 <= i <= j <= |s| ensures Spans(r, s, i, j) <==> s[i..j] == text {
      LitsSpan(text, s, i, j);
    }
  }
}
