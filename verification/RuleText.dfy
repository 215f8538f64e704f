/** How matcher/adblock.go reads a rule: what a line is, and which domain is cut out of it. */
module RuleText {
  import opened Texts

  // ------------------------------------------------------------------------------------------------
  // Cutting

  /** strings.Index: where t first occurs, or -1. */
  function Index(s: string, t: string): (r: int)
    requires t != ""
    ensures -1 <= r && (r >= 0 ==> r + |t| <= |s|)
  {
    if HasPrefix(s, t) then 0
    else if s == "" then -1
    else if Index(s[1..], t) < 0 then -1
    else Index(s[1..], t) + 1
  }

  /** What follows the first t; all of s without one. */
  function After(s: string, t: string): string
    requires t != ""
  {
    if Index(s, t) < 0 then s else s[Index(s, t) + |t|..]
  }

  /** What precedes the first t; all of s without one. */
  function Upto(s: string, t: string): string
    requires t != ""
  {
    if Index(s, t) < 0 then s else s[..Index(s, t)]
  }

  /** Without the anchor, what stands between the address start or scheme and the path or separator. */
  function HostPart(rule: string): string {
    Upto(Upto(After(After(rule, "|"), "://"), "/"), "^")
  }

  /** The domain a rule speaks of, as far as cutting its text tells. */
  function ExtractDomain(rule: string): string {
    HostPart(After(rule, "||"))
  }

  /** Every "%2F" becomes a slash. */
  function Unescape(s: string): string {
    if s == "" then ""
    else if HasPrefix(s, "%2F") then "/" + Unescape(s[3..])
    else [s[0]] + Unescape(s[1..])
  }

  function TrimSuffix(s: string, t: string): string {
    if HasSuffix(s, t) then s[..|s| - |t|] else s
  }

  // ------------------------------------------------------------------------------------------------
  // Lines

  const PATH_START := "/^https?:\\/\\/"
  const PATH_END := "\\/.*/"

  /** What a line asks for: nothing, an expression, or a rule for a domain that may hold wildcards. */
  datatype Entry = Skip | Panics | Expression(text: string) | Rule(domain: string, isBlock: bool)

  /** A rule between slashes is taken only in one form; a line whose fixed ends overlap cannot be sliced. */
  function PathEntry(line: string): Entry {
    if |line| > 13 && line[..13] == PATH_START && line[|line| - 5..] == PATH_END then
      if |line| < 18 then Panics else Expression(line[13..|line| - 5])
    else Skip
  }

  function RuleEntry(line: string): Entry {
    Rule(TrimSuffix(ExtractDomain(line), "."), !HasPrefix(line, "@@"))
  }

  function EntryOf(text: string): Entry {
    var line := TrimSpace(text);
    if line == "" || line[0] == '!' || line[0] == '[' then Skip
    else if line[0] == '/' then PathEntry(line)
    else RuleEntry(Unescape(line))
  }

  function EntriesOf(text: string): seq<Entry> {
    var lines := Split(text, '\n');
    seq(|lines|, i requires 0 <= i < |lines| => EntryOf(lines[i]))
  }

  /** The one line that starts and ends as a rule between slashes should, with both ends sharing a slash. */
  lemma PanicsIff(text: string)
    ensures EntryOf(text).Panics? <==> TrimSpace(text) == PATH_START + ".*/"
  {
    var line := TrimSpace(text);
    if line != "" && line[0] == '/' {
      PathPanicsIff(line);
    }
  }

  lemma PathPanicsIff(line: string)
    ensures PathEntry(line).Panics? <==> line == PATH_START + ".*/"
  {
    if PathEntry(line).Panics? {
      var n := |line|;
      assert line[13 - 1] == PATH_START[12] == '/';
      assert line[12] == '/' && line[11] == '\\' && line[10] == '/' && line[9] == '\\';
      var end := line[n - 5..];
      assert line[n - 5] == end[0] == '\\' && line[n - 4] == end[1] == '/' && line[n - 3] == end[2] == '.';
      assert line[n - 2] == end[3] == '*' && line[n - 1] == end[4] == '/';
      assert n == 16;
      assert line == line[..13] + [line[13], line[14], line[15]];
    }
    if line == PATH_START + ".*/" {
      assert line[|line| - 5..] == PATH_END;
    }
  }

  // ------------------------------------------------------------------------------------------------
  // What is cut out

  lemma {:induction false} IndexBehind(a: string, s: string, t: string)
    requires t != "" && t[0] !in a
    ensures Index(a + s, t) == if Index(s, t) < 0 then -1 else |a| + Index(s, t)
  {
    if a == "" {
      assert a + s == s;
    } else {
      assert (a + s)[0] == a[0] && (a + s)[1..] == a[1..] + s;
      IndexBehind(a[1..], s, t);
    }
  }

  lemma AfterBehind(a: string, s: string, t: string)
    requires t != "" && t[0] !in a
    ensures After(a + s, t) == if Index(s, t) < 0 then a + s else After(s, t)
  {
    IndexBehind(a, s, t);
  }

  lemma UptoBehind(a: string, s: string, t: string)
    requires t != "" && t[0] !in a
    ensures Upto(a + s, t) == a + Upto(s, t)
  {
    IndexBehind(a, s, t);
  }

  /** A text free of everything a rule is cut at. */
  predicate HostText(d: string) {
    forall c | c in d :: c != '|' && c != ':' && c != '/' && c != '^'
  }

  /** What may stand behind the domain: nothing, a separator or a path. */
  predicate IsTail(tail: string) {
    tail == "" || tail[0] == '^' || tail[0] == '/'
  }

  lemma TailCut(tail: string)
    requires IsTail(tail)
    ensures Upto(Upto(tail, "/"), "^") == ""
  {
    if tail != "" && tail[0] == '^' {
      var u := Upto(tail, "/");
      assert u == "" || u[0] == '^';
      assert u != "" ==> HasPrefix(u, "^");
    } else if tail != "" {
      assert HasPrefix(tail, "/");
    }
  }

  lemma NoIndex(s: string, t: string)
    requires t != "" && Index(s, t) < 0
    ensures After(s, t) == s
  {
  }

  /** The part of an anchored rule behind its anchor: a tail with an anchor or scheme in it takes the domain's place. */
  lemma HostPartOf(d: string, tail: string)
    requires HostText(d) && IsTail(tail)
    ensures Index(tail, "|") < 0 && Index(tail, "://") < 0 ==> HostPart(d + tail) == d
    ensures Index(tail, "|") >= 0 ==> HostPart(d + tail) == Upto(Upto(After(After(tail, "|"), "://"), "/"), "^")
    ensures Index(tail, "|") < 0 && Index(tail, "://") >= 0 ==>
              HostPart(d + tail) == Upto(Upto(After(tail, "://"), "/"), "^")
  {
    AfterBehind(d, tail, "|");
    AfterBehind(d, tail, "://");
    UptoBehind(d, tail, "/");
    UptoBehind(d, Upto(tail, "/"), "^");
    TailCut(tail);
    assert d + "" == d;
  }

  lemma {:induction false} IndexOfChar(s: string, c: char)
    ensures Index(s, [c]) >= 0 <==> c in s
  {
    if s != "" {
      assert HasPrefix(s, [c]) <==> s[0] == c;
      IndexOfChar(s[1..], c);
    }
  }

  lemma AnchorGoes(mark: string, rest: string)
    requires '|' !in mark
    ensures After(mark + ("||" + rest), "||") == rest
  {
    assert HasPrefix("||" + rest, "||");
    IndexBehind(mark, "||" + rest, "||");
    assert (mark + ("||" + rest))[|mark| + 2..] == rest;
  }

  /**
   An anchored rule speaks of the domain behind its anchor, whatever the domain, if and only if what follows the domain
   has no `|` and no scheme: a rule with options such as domain=a|b is read as one for b.
   */
  lemma AnchoredRuleIff(mark: string, tail: string)
    requires '|' !in mark && IsTail(tail)
    ensures (forall d | HostText(d) :: ExtractDomain(mark + ("||" + (d + tail))) == d)
       <==> '|' !in tail && Index(tail, "://") < 0
  {
    if '|' !in tail && Index(tail, "://") < 0 {
      forall d | HostText(d) ensures ExtractDomain(mark + ("||" + (d + tail))) == d {
        AnchoredRule(mark, d, tail);
      }
    } else {
      assert HostText("a") && HostText("b");
      AnchoredRule(mark, "a", tail);
      AnchoredRule(mark, "b", tail);
    }
  }

  /** What a tail with an anchor or scheme in it is read as, whatever the domain. */
  function TailHost(tail: string): string {
    Upto(Upto(After(if '|' in tail then After(tail, "|") else tail, "://"), "/"), "^")
  }

  lemma AnchoredRule(mark: string, d: string, tail: string)
    requires '|' !in mark && IsTail(tail) && HostText(d)
    ensures ExtractDomain(mark + ("||" + (d + tail)))
         == if '|' !in tail && Index(tail, "://") < 0 then d else TailHost(tail)
  {
    IndexOfChar(tail, '|');
    AnchorGoes(mark, d + tail);
    HostPartOf(d, tail);
  }

  /** The scheme a rule may name, with its "://", or none. */
  predicate IsScheme(scheme: string) {
    scheme == "" || (|scheme| >= 3 && scheme[|scheme| - 3..] == "://" && HostText(scheme[..|scheme| - 3]))
  }

  lemma SchemeGoes(scheme: string, d: string)
    requires IsScheme(scheme) && HostText(d)
    ensures After(scheme + d, "://") == d && '|' !in scheme + d
  {
    if scheme == "" {
      assert scheme + d == d + "" && Index("", "://") < 0;
      AfterBehind(d, "", "://");
    } else {
      var name := scheme[..|scheme| - 3];
      assert scheme == name + "://" && scheme + d == name + ("://" + d);
      assert HasPrefix("://" + d, "://") && ("://" + d)[3..] == d;
      AfterBehind(name, "://" + d, "://");
    }
  }

  lemma SchemePart(scheme: string, d: string)
    requires IsScheme(scheme) && HostText(d)
    ensures HostPart(scheme + d) == d
  {
    SchemeGoes(scheme, d);
    IndexOfChar(scheme + d, '|');
    assert d + "" == d && Upto("", "/") == "" && Upto("", "^") == "";
    UptoBehind(d, "", "/");
    UptoBehind(d, "", "^");
  }

  lemma {:induction false} OneBarIsNotTwo(a: string, b: string)
    requires '|' !in a && '|' !in b
    ensures Index(a + ("|" + b), "||") < 0 && After(a + ("|" + b), "|") == b
  {
    IndexBehind(a, "|" + b, "|");
    IndexBehind(a, "|" + b, "||");
    assert HasPrefix("|" + b, "|") && (a + ("|" + b))[|a| + 1..] == b;
    NoBars(b);
    assert ("|" + b)[1..] == b;
    assert b != "" ==> ("|" + b)[1] == b[0] && b[0] in b && b[0] != "||"[1];
  }

  /**
   The mark of an unblocking rule is cut off with its anchor or its scheme, and with nothing else: without either the
   rule speaks of a domain that starts with `@@`.
   */
  lemma MarkGoesIff(anchor: string, scheme: string)
    requires (anchor == "" || anchor == "|" || anchor == "||") && IsScheme(scheme)
    ensures (forall d | HostText(d) :: ExtractDomain("@@" + (anchor + (scheme + d))) == d)
       <==> anchor != "" || scheme != ""
  {
    forall d | HostText(d)
      ensures ExtractDomain("@@" + (anchor + (scheme + d))) == if anchor == "" == scheme then "@@" + d else d
    {
      MarkOf(anchor, scheme, d);
    }
    assert HostText("a");
  }

  lemma MarkOf(anchor: string, scheme: string, d: string)
    requires anchor == "" || anchor == "|" || anchor == "||"
    requires IsScheme(scheme) && HostText(d)
    ensures ExtractDomain("@@" + (anchor + (scheme + d))) == if anchor == "" == scheme then "@@" + d else d
  {
    SchemePart(scheme, d);
    SchemeGoes(scheme, d);
    var rest := scheme + d;
    if anchor == "||" {
      AnchorGoes("@@", rest);
    } else if anchor == "|" {
      OneBar("@@", rest);
    } else {
      BareMark(scheme, d);
      assert anchor + rest == rest;
    }
  }

  lemma OneBar(mark: string, rest: string)
    requires '|' !in mark && '|' !in rest
    ensures ExtractDomain(mark + ("|" + rest)) == HostPart(rest)
  {
    OneBarIsNotTwo(mark, rest);
    IndexOfChar(rest, '|');
  }

  lemma NoAnchor(t: string)
    requires '|' !in t
    ensures ExtractDomain(t) == HostPart(t)
  {
    NoBars(t);
  }

  lemma BareMark(scheme: string, d: string)
    requires IsScheme(scheme) && HostText(d)
    ensures ExtractDomain("@@" + (scheme + d)) == if scheme == "" then "@@" + d else d
  {
    SchemeGoes(scheme, d);
    NoAnchor("@@" + (scheme + d));
    if scheme == "" {
      MarkedHost(d);
      SchemePart("", "@@" + d);
    } else {
      MarkedScheme(scheme);
      SchemePart("@@" + scheme, d);
      Regrouped("@@", scheme, d);
    }
  }

  lemma MarkedHost(d: string)
    requires HostText(d)
    ensures HostText("@@" + d) && "" + ("@@" + d) == "@@" + ("" + d) == "@@" + d
  {
  }

  lemma MarkedScheme(scheme: string)
    requires IsScheme(scheme) && scheme != ""
    ensures IsScheme("@@" + scheme)
  {
    var name := scheme[..|scheme| - 3];
    var marked := "@@" + scheme;
    assert marked[..|marked| - 3] == "@@" + name && marked[|marked| - 3..] == "://";
  }

  lemma {:induction false} NoBars(s: string)
    requires '|' !in s
    ensures Index(s, "||") < 0
  {
    if s != "" {
      assert s[0] in s && s[0] != "||"[0];
      NoBars(s[1..]);
    }
  }

  lemma {:induction false} UnescapedSame(s: string)
    requires '%' !in s
    ensures Unescape(s) == s
  {
    if s != "" {
      UnescapedSame(s[1..]);
      assert s == [s[0]] + s[1..];
    }
  }

  lemma AnchoredText(d: string, isBlock: bool)
    ensures var line := (if isBlock then "" else "@@") + ("||" + (d + "^"));
            && TrimSpace(line) == line && line != "" && line[0] != '!' && line[0] != '[' && line[0] != '/'
            && (HasPrefix(line, "@@") <==> !isBlock)
  {
    var line := (if isBlock then "" else "@@") + ("||" + (d + "^"));
    assert line[|line| - 1] == '^' && line[0] == if isBlock then '|' else '@';
    assert HasPrefix(line, "@@") ==> line[0] == "@@"[0];
    if !isBlock {
      assert line[..2] == "@@";
    }
  }

  lemma SeparatorHasNoScheme()
    ensures Index("^", "://") < 0
  {
    assert "^"[1..] == "" && Index("", "://") < 0;
  }

  /** The usual forms of a rule are read as rules for their domain. */
  lemma AnchoredLine(d: string, isBlock: bool)
    requires HostText(d) && '%' !in d && !HasSuffix(d, ".")
    ensures EntryOf((if isBlock then "" else "@@") + ("||" + (d + "^"))) == Rule(d, isBlock)
  {
    var mark := if isBlock then "" else "@@";
    var line := mark + ("||" + (d + "^"));
    AnchoredText(d, isBlock);
    UnescapedSame(line);
    SeparatorHasNoScheme();
    AnchoredRuleIff(mark, "^");
    assert ExtractDomain(line) == d;
  }

  // ------------------------------------------------------------------------------------------------
  // The mark

  lemma HostPartIsShorter(s: string)
    ensures |HostPart(s)| <= |s| && forall c | c in HostPart(s) :: c in s
  {
    var a := After(s, "|");
    var b := After(a, "://");
    var c := Upto(b, "/");
    assert forall x | x in a :: x in s;
    assert forall x | x in b :: x in a;
    assert forall x | x in c :: x in b;
  }

  lemma ExtractedIsShorter(line: string)
    ensures |ExtractDomain(line)| <= |line| && forall c | c in ExtractDomain(line) :: c in line
  {
    HostPartIsShorter(After(line, "||"));
  }

  /**
   The two tests for the mark, `len(line) > 2 && line[:2] == "@@"` for a wildcard and `line[:2] != "@@"` for a domain
   with a dot and a top-level domain, are the same test, and the slice is in range.
   */
  lemma MarkReadsAlike(line: string)
    ensures var domain := TrimSuffix(ExtractDomain(line), ".");
            && ('*' in domain ==> (HasPrefix(line, "@@") <==> |line| > 2 && HasPrefix(line, "@@")))
            && (|domain| >= 2 ==> |line| >= 2)
  {
    ExtractedIsShorter(line);
    if '*' in TrimSuffix(ExtractDomain(line), ".") && HasPrefix(line, "@@") {
      MarkHasNoStar(line);
    }
  }

  lemma MarkHasNoStar(line: string)
    requires '*' in line && HasPrefix(line, "@@")
    ensures |line| > 2
  {
    var i :| 0 <= i < |line| && line[i] == '*';
    assert line[0] == "@@"[0] && line[1] == "@@"[1];
    assert i != 0 && i != 1;
  }

  // ------------------------------------------------------------------------------------------------
  // What a line is read as

  /** Blank lines, comments and headings are no rules. */
  lemma NoRule(text: string)
    requires var line := TrimSpace(text); line == "" || line[0] == '!' || line[0] == '['
    ensures EntryOf(text) == Skip
  {
  }

  /** A rule between slashes is an expression if it has the one form that is taken, and nothing otherwise. */
  lemma PathLineIff(text: string, re: string)
    requires TrimSpace(text) != "" && TrimSpace(text)[0] == '/'
    ensures EntryOf(text) == Expression(re) <==> TrimSpace(text) == PATH_START + re + PATH_END
    ensures EntryOf(text).Expression? || EntryOf(text) == Panics || EntryOf(text) == Skip
  {
    var line := TrimSpace(text);
    if line == PATH_START + re + PATH_END {
      assert |line| == 18 + |re| && line[..13] == PATH_START && line[|line| - 5..] == PATH_END;
      assert line[13..|line| - 5] == re;
    }
  }

  /** A bare domain is a rule for it, blocking unless it starts with the mark; a final dot makes no difference. */
  lemma BareLine(d: string, dot: string)
    requires HostText(d) && '%' !in d && d != "" && !HasSuffix(d, ".") && (dot == "" || dot == ".")
    requires !IsSpace(d[0]) && !IsSpace(d[|d| - 1]) && d[0] != '!' && d[0] != '['
    ensures EntryOf(d + dot) == Rule(d, !HasPrefix(d, "@@"))
  {
    assert d[0] in d;
    BareIsTrimmed(d, dot);
    BareDomain(d + dot);
    UnescapedSame(d + dot);
    MarkStays(d, dot);
    if dot == "" {
      assert d + dot == d;
    } else {
      assert (d + dot)[|d|..] == "." && (d + dot)[..|d|] == d;
    }
  }

  lemma BareIsTrimmed(d: string, dot: string)
    requires d != "" && !IsSpace(d[0]) && !IsSpace(d[|d| - 1]) && (dot == "" || dot == ".")
    ensures TrimSpace(d + dot) == d + dot && (d + dot)[0] == d[0]
  {
    var line := d + dot;
    assert line[|line| - 1] == if dot == "" then d[|d| - 1] else '.';
  }

  lemma BareDomain(line: string)
    requires HostText(line)
    ensures ExtractDomain(line) == line
  {
    NoAnchor(line);
    SchemePart("", line);
    assert "" + line == line;
  }

  lemma MarkStays(d: string, dot: string)
    requires d != "" && (dot == "" || dot == ".")
    ensures HasPrefix(d + dot, "@@") <==> HasPrefix(d, "@@")
  {
    if |d| == 1 && dot == "." {
      assert (d + dot)[..2][1] == '.' && "@@"[1] == '@';
    } else if dot == "." {
      assert (d + dot)[..2] == d[..2];
    } else {
      assert d + dot == d;
    }
  }

  /** Every escaped slash becomes one, whatever is around it. */
  lemma {:induction false} UnescapeIs(a: string, b: string)
    ensures Unescape(a + "%2F" + b) == Unescape(a) + "/" + Unescape(b)
    decreases |a|
  {
    var s := a + "%2F" + b;
    if a == "" {
      assert s[..3] == "%2F" && s[3..] == b;
    } else if HasPrefix(a, "%2F") {
      assert s[..3] == a[..3] && s[3..] == a[3..] + "%2F" + b;
      UnescapeIs(a[3..], b);
    } else {
      assert s[0] == a[0] && s[1..] == a[1..] + "%2F" + b;
      assert !HasPrefix(s, "%2F") by {
        if |a| >= 3 {
          assert s[..3] == a[..3];
        } else {
          assert s[|a|] == '%' && s[..3][|a|] == '%';
        }
      }
      UnescapeIs(a[1..], b);
    }
  }

  /** A text is read line by line. */
  lemma LinesAreRead(lines: seq<string>)
    requires lines != [] && forall i | 0 <= i < |lines| :: '\n' !in lines[i]
    ensures var entries := EntriesOf(Join(lines, '\n'));
            |entries| == |lines| && forall i | 0 <= i < |lines| :: entries[i] == EntryOf(lines[i])
  {
    SplitJoin(lines, '\n');
  }
}
