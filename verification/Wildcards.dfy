/** Host wildcards and the regular expressions hosts/hosts.go and matcher/adblock.go compile them to. */
module Wildcards {
  import opened Options
  import opened Regexps

  /** strings.Replace(s, c, t, -1) for a one-character c. */
  function Replace(s: string, c: char, t: string): string {
    if s == "" then "" else (if s[0] == c then t else [s[0]]) + Replace(s[1..], c, t)
  }

  /** The three replacements of NewDNSHosts. */
  function Translate(glob: string): string {
    Replace(Replace(Replace(glob, '.', "\\."), '*', ".*"), '?', ".")
  }

  /** The two replacements of NewABPByText, which knows no `?`. */
  function TranslateRule(glob: string): string {
    Replace(Replace(glob, '.', "\\."), '*', ".*")
  }

  /** What the wildcard means: `*` any text, `?` any one character, anything else itself. */
  ghost predicate Glob(glob: string, s: string) {
    if glob == "" then s == ""
    else if glob[0] == '*' then exists k | 0 <= k <= |s| :: Glob(glob[1..], s[k..])
    else if glob[0] == '?' then s != "" && Glob(glob[1..], s[1..])
    else s != "" && s[0] == glob[0] && Glob(glob[1..], s[1..])
  }

  function Token(c: char): string {
    if c == '.' then "\\." else if c == '*' then ".*" else if c == '?' then "." else [c]
  }

  /** Replacing in three passes is translating character by character. */
  function Tokens(glob: string): string {
    if glob == "" then "" else Token(glob[0]) + Tokens(glob[1..])
  }

  lemma {:induction false} ReplaceConcat(a: string, b: string, c: char, t: string)
    ensures Replace(a + b, c, t) == Replace(a, c, t) + Replace(b, c, t)
  {
    if a == "" {
      assert a + b == b;
    } else {
      assert (a + b)[0] == a[0] && (a + b)[1..] == a[1..] + b;
      ReplaceConcat(a[1..], b, c, t);
    }
  }

  lemma ReplaceShort(c: char, t: string, x: char, y: char)
    ensures Replace([x], c, t) == if x == c then t else [x]
    ensures Replace([x, y], c, t) == (if x == c then t else [x]) + (if y == c then t else [y])
  {
    assert [x][1..] == "";
    assert [x, y][1..] == [y] && [y][1..] == "";
  }

  lemma {:induction false} TranslateIsTokens(glob: string)
    ensures Translate(glob) == Tokens(glob)
  {
    if glob != "" {
      var c, rest := glob[0], glob[1..];
      TranslateIsTokens(rest);
      var dot := if c == '.' then "\\." else [c];
      var star := if c == '*' then ".*" else dot;
      ReplaceShort('*', ".*", c, c);
      ReplaceShort('*', ".*", '\\', '.');
      ReplaceShort('?', ".", c, c);
      ReplaceShort('?', ".", '\\', '.');
      ReplaceShort('?', ".", '.', '*');
      assert Replace(glob, '.', "\\.") == dot + Replace(rest, '.', "\\.");
      ReplaceConcat(dot, Replace(rest, '.', "\\."), '*', ".*");
      ReplaceConcat(star, Replace(Replace(rest, '.', "\\."), '*', ".*"), '?', ".");
      assert Replace(star, '?', ".") == Token(c);
    }
  }

  lemma {:induction false} ReplaceAbsent(s: string, c: char, t: string)
    requires c !in s
    ensures Replace(s, c, t) == s
  {
    if s != "" {
      ReplaceAbsent(s[1..], c, t);
      assert s == [s[0]] + s[1..];
    }
  }

  lemma {:induction false} ReplaceFree(s: string, c: char, t: string, d: char)
    requires d !in s && d !in t
    ensures d !in Replace(s, c, t)
  {
    if s != "" {
      ReplaceFree(s[1..], c, t, d);
    }
  }

  /** On rules without `?` the two translations agree. */
  lemma RuleTranslationAgrees(glob: string)
    requires '?' !in glob
    ensures TranslateRule(glob) == Translate(glob)
  {
    ReplaceFree(glob, '.', "\\.", '?');
    ReplaceFree(Replace(glob, '.', "\\."), '*', ".*", '?');
    ReplaceAbsent(TranslateRule(glob), '?', ".");
  }

  // ------------------------------------------------------------------------------------------------
  // When two wildcards have one text

  /** Every `\?` written as the dot it translates like. */
  function Plainer(glob: string): string {
    if glob == "" then ""
    else if |glob| >= 2 && glob[0] == '\\' && glob[1] == '?' then "." + Plainer(glob[2..])
    else [glob[0]] + Plainer(glob[1..])
  }

  ghost predicate NoPair(glob: string) {
    forall i | 0 <= i < |glob| - 1 && glob[i] == '\\' :: glob[i + 1] != '?'
  }

  lemma {:induction false} PlainerIsPlain(glob: string)
    ensures NoPair(Plainer(glob))
    ensures glob != "" && glob[0] != '?' ==> Plainer(glob) != "" && Plainer(glob)[0] != '?'
    ensures glob == "" ==> Plainer(glob) == ""
    ensures glob != "" && glob[0] == '?' ==> Plainer(glob)[0] == '?'
  {
    if |glob| >= 2 && glob[0] == '\\' && glob[1] == '?' {
      PlainerIsPlain(glob[2..]);
    } else if glob != "" {
      PlainerIsPlain(glob[1..]);
    }
  }

  lemma OneMoreToken(c: char, rest: string)
    ensures Tokens([c] + rest) == Token(c) + Tokens(rest)
  {
    assert ([c] + rest)[1..] == rest;
  }

  lemma PairTranslates(rest: string)
    ensures Tokens(['\\'] + (['?'] + rest)) == Token('.') + Tokens(rest)
  {
    OneMoreToken('\\', ['?'] + rest);
    OneMoreToken('?', rest);
    assert "\\" + ("." + Tokens(rest)) == "\\." + Tokens(rest);
  }

  lemma {:induction false} PlainerTranslatesAlike(glob: string)
    ensures Tokens(Plainer(glob)) == Tokens(glob)
  {
    if |glob| >= 2 && glob[0] == '\\' && glob[1] == '?' {
      var rest := glob[2..];
      PlainerTranslatesAlike(rest);
      assert glob == ['\\'] + (['?'] + rest);
      PairTranslates(rest);
      OneMoreToken('.', Plainer(rest));
    } else if glob != "" {
      PlainerTranslatesAlike(glob[1..]);
      assert glob == [glob[0]] + glob[1..];
      OneMoreToken(glob[0], Plainer(glob[1..]));
    }
  }

  /** Reads a text back: `\.` is a dot unless a `*` follows, which makes its dot part of a `.*`. */
  function Untranslate(t: string): string {
    if t == "" then ""
    else if |t| >= 2 && t[0] == '\\' && t[1] == '.' && !(|t| >= 3 && t[2] == '*') then "." + Untranslate(t[2..])
    else if |t| >= 2 && t[0] == '.' && t[1] == '*' then "*" + Untranslate(t[2..])
    else if t[0] == '.' then "?" + Untranslate(t[1..])
    else [t[0]] + Untranslate(t[1..])
  }

  lemma {:induction false} TokensStart(glob: string)
    ensures Tokens(glob) == "" || Tokens(glob)[0] != '*'
    ensures glob != "" ==> Tokens(glob) != "" && Tokens(glob)[0] == Token(glob[0])[0]
    ensures glob != "" && glob[0] == '*' ==> |Tokens(glob)| >= 2 && Tokens(glob)[1] == '*'
  {
  }

  /** One token read back, in front of the text of a wildcard that does not continue a `\?`. */
  lemma UntranslateOne(c: char, rest: string)
    requires c == '\\' && rest != "" ==> rest[0] != '?'
    ensures Untranslate(Token(c) + Tokens(rest)) == [c] + Untranslate(Tokens(rest))
  {
    TokensStart(rest);
    if c == '\\' {
      BackslashStays(Tokens(rest), rest);
    } else if c == '.' || c == '*' {
      PairRead(c, Tokens(rest));
    } else {
      OneRead(c, Tokens(rest));
    }
  }

  lemma PairRead(c: char, t: string)
    requires (c == '.' || c == '*') && (t == "" || t[0] != '*')
    ensures Untranslate(Token(c) + t) == [c] + Untranslate(t)
  {
    assert (Token(c) + t)[2..] == t;
  }

  lemma OneRead(c: char, t: string)
    requires c != '.' && c != '*' && c != '\\' && (t == "" || t[0] != '*')
    ensures Untranslate(Token(c) + t) == [c] + Untranslate(t)
  {
    assert (Token(c) + t)[1..] == t;
  }

  lemma BackslashStays(t: string, rest: string)
    requires t == Tokens(rest) && (rest != "" ==> rest[0] != '?')
    ensures Untranslate(['\\'] + t) == ['\\'] + Untranslate(t)
  {
    TokensStart(rest);
    assert (['\\'] + t)[1..] == t;
    assert t != "" && t[0] == '.' ==> |t| >= 2 && t[1] == '*';
  }

  lemma {:induction false} UntranslateTokens(glob: string)
    requires NoPair(glob)
    ensures Untranslate(Tokens(glob)) == glob
  {
    if glob != "" {
      var c, rest := glob[0], glob[1..];
      assert rest != "" ==> rest[0] == glob[1];
      UntranslateTokens(rest);
      UntranslateOne(c, rest);
      assert glob == [c] + rest;
    }
  }

  /** Two wildcards have the same expression text if and only if they are the same once every `\?` is a dot. */
  lemma TextsCollideIff(a: string, b: string)
    ensures Translate(a) == Translate(b) <==> Plainer(a) == Plainer(b)
  {
    TranslateIsTokens(a);
    TranslateIsTokens(b);
    PlainerTranslatesAlike(a);
    PlainerTranslatesAlike(b);
    PlainerIsPlain(a);
    PlainerIsPlain(b);
    UntranslateTokens(Plainer(a));
    UntranslateTokens(Plainer(b));
  }

  lemma {:induction false} PlainerIsSame(glob: string)
    requires '\\' !in glob || '?' !in glob
    ensures Plainer(glob) == glob
  {
    if glob != "" {
      PlainerIsSame(glob[1..]);
      assert glob == [glob[0]] + glob[1..];
    }
  }

  /** Without a dot in the wildcard, the dots tell where a `\?` stood. */
  lemma {:induction false} PlainerUndone(glob: string)
    requires '.' !in glob
    ensures Replace(Plainer(glob), '.', "\\?") == glob
  {
    if |glob| >= 2 && glob[0] == '\\' && glob[1] == '?' {
      PlainerUndone(glob[2..]);
      assert ("." + Plainer(glob[2..]))[1..] == Plainer(glob[2..]);
      assert glob == "\\?" + glob[2..];
    } else if glob != "" {
      PlainerUndone(glob[1..]);
      assert ([glob[0]] + Plainer(glob[1..]))[1..] == Plainer(glob[1..]);
      assert glob == [glob[0]] + glob[1..];
    }
  }

  ghost predicate Over(glob: string, chars: set<char>) {
    forall c | c in glob :: c in chars
  }

  ghost predicate InjectiveOver(chars: set<char>) {
    forall a, b | Over(a, chars) && Over(b, chars) && Translate(a) == Translate(b) :: a == b
  }

  /** Over a set of characters different wildcards have different texts if and only if it lacks `\`, `?` or the dot. */
  lemma InjectiveIff(chars: set<char>)
    ensures InjectiveOver(chars) <==> '\\' !in chars || '?' !in chars || '.' !in chars
  {
    if '\\' in chars && '?' in chars && '.' in chars {
      BackslashCollides();
      assert Over("\\?", chars) && Over(".", chars);
    } else {
      forall a, b | Over(a, chars) && Over(b, chars) && Translate(a) == Translate(b) ensures a == b {
        TextsCollideIff(a, b);
        if '.' !in chars {
          PlainerUndone(a);
          PlainerUndone(b);
        } else {
          PlainerIsSame(a);
          PlainerIsSame(b);
        }
      }
    }
  }

  /** In particular without backslashes. */
  lemma TranslateInjective(a: string, b: string)
    requires '\\' !in a && '\\' !in b && Translate(a) == Translate(b)
    ensures a == b
  {
    TextsCollideIff(a, b);
    PlainerIsSame(a);
    PlainerIsSame(b);
  }

  /** `\?` and a dot share one text, and so do wildcards that differ in this only. */
  lemma BackslashCollides()
    ensures Translate("\\?") == Translate(".") && Translate("*\\?") == Translate("*.")
  {
    assert "."[1..] == "" && "\\?"[2..] == "";
    assert Plainer("\\?") == "." == Plainer(".");
    assert "*\\?"[1..] == "\\?" && "*."[1..] == ".";
    TextsCollideIff("\\?", ".");
    TextsCollideIff("*\\?", "*.");
  }

  // ------------------------------------------------------------------------------------------------
  // The translation preserves meaning

  /** The characters of host names and wildcards: nothing the regular expression syntax gives another meaning. */
  predicate Plain(glob: string) {
    forall c | c in glob :: c == '*' || c == '?' || (c !in "\\^$" && !IsMeta(c))
  }

  function ItemOf(c: char): Re {
    if c == '*' then Star(AnyChar) else if c == '?' then AnyChar else Lit(c)
  }

  function ItemsOf(glob: string): seq<Re> {
    if glob == "" then [] else [ItemOf(glob[0])] + ItemsOf(glob[1..])
  }

  lemma EndParses()
    ensures Items("$") == Some([End])
  {
    var t := "$";
    assert t[1..] == "" && Atom(t) == Some((End, ""));
    assert Items(t[1..]) == Some([]);
    var none: seq<Re> := [];
    assert [End] + none == [End];
  }

  /** One more character in front of a text that does not start with a star. */
  lemma TokenParses(c: char, tail: string, items: seq<Re>)
    requires Plain([c]) && tail != "" && tail[0] != '*' && Items(tail) == Some(items)
    ensures Items(Token(c) + tail) == Some([ItemOf(c)] + items)
  {
    var t := Token(c) + tail;
    assert c in [c];
    if c == '*' {
      assert t[1..] == "*" + tail && t[1..][1..] == tail;
      assert Atom(t) == Some((AnyChar, t[1..]));
    } else if c == '.' {
      assert t[2..] == tail;
    } else {
      assert t[1..] == tail;
    }
  }

  /** Parsing the translated text, with the end anchor behind it, gives one item a character. */
  lemma {:induction false} TokensParse(glob: string)
    requires Plain(glob)
    ensures Items(Tokens(glob) + "$") == Some(ItemsOf(glob) + [End])
  {
    if glob == "" {
      EndParses();
      assert Tokens(glob) + "$" == "$" && ItemsOf(glob) + [End] == [End];
    } else {
      var c, rest := glob[0], glob[1..];
      var tail := Tokens(rest) + "$";
      TokensParse(rest);
      TokensStart(rest);
      assert c in glob;
      TokenParses(c, tail, ItemsOf(rest) + [End]);
      assert Tokens(glob) + "$" == Token(c) + tail;
      assert ItemsOf(glob) + [End] == [ItemOf(c)] + (ItemsOf(rest) + [End]);
    }
  }

  lemma TextCompiles(glob: string)
    requires Plain(glob)
    ensures Compile("^" + Translate(glob) + "$") == Some(Cat(Begin, Concat(ItemsOf(glob) + [End])))
  {
    TranslateIsTokens(glob);
    TokensParse(glob);
    var t := "^" + Translate(glob) + "$";
    assert t[1..] == Tokens(glob) + "$";
    TokensStart(glob);
    var items := [Begin] + (ItemsOf(glob) + [End]);
    assert Items(t) == Some(items);
    assert items[1..] == ItemsOf(glob) + [End];
  }

  lemma {:induction false} StarSpans(s: string, i: nat, j: nat)
    requires i <= j <= |s| && '\n' !in s
    ensures Spans(Star(AnyChar), s, i, j)
    decreases j - i
  {
    if i < j {
      assert s[i] in s;
      StarSpans(s, i + 1, j);
      assert Spans(AnyChar, s, i, i + 1);
    }
  }

  lemma EndSpans(s: string, i: nat, j: nat)
    requires i <= j <= |s|
    ensures Spans(Concat([End]), s, i, j) <==> i == j == |s|
  {
    assert [End][1..] == [];
    assert Concat([End]) == Cat(End, Empty);
    if i == j == |s| {
      assert Spans(End, s, i, i) && Spans(Empty, s, i, j);
    }
  }

  lemma {:induction false} ItemsSpan(glob: string, s: string, i: nat)
    requires i <= |s| && '\n' !in s
    ensures SpansFrom(Concat(ItemsOf(glob) + [End]), s, i) <==> Glob(glob, s[i..])
    decreases |glob|, 0
  {
    if glob == "" {
      assert ItemsOf(glob) + [End] == [End];
      forall j | i <= j <= |s| ensures Spans(Concat([End]), s, i, j) <==> i == j == |s| {
        EndSpans(s, i, j);
      }
      assert s[i..] == "" <==> i == |s|;
      assert Spans(Concat([End]), s, i, |s|) <==> i == |s|;
    } else {
      var c, rest := glob[0], glob[1..];
      var tail := Concat(ItemsOf(rest) + [End]);
      assert (ItemsOf(glob) + [End])[1..] == ItemsOf(rest) + [End];
      assert Concat(ItemsOf(glob) + [End]) == Cat(ItemOf(c), tail);
      if c == '*' {
        ItemsSpanStar(rest, s, i);
      } else {
        ItemsSpanOne(c, rest, s, i);
      }
    }
  }

  lemma {:induction false} ItemsSpanStar(rest: string, s: string, i: nat)
    requires i <= |s| && '\n' !in s
    ensures SpansFrom(Cat(Star(AnyChar), Concat(ItemsOf(rest) + [End])), s, i)
            <==> exists k | 0 <= k <= |s[i..]| :: Glob(rest, s[i..][k..])
    decreases |rest|, 1
  {
    var tail := Concat(ItemsOf(rest) + [End]);
    if j: nat :| i <= j <= |s| && Spans(Cat(Star(AnyChar), tail), s, i, j) {
      var m := CatSplits(Star(AnyChar), tail, s, i, j);
      ItemsSpan(rest, s, m);
      assert s[i..][m - i..] == s[m..];
    }
    if k :| 0 <= k <= |s[i..]| && Glob(rest, s[i..][k..]) {
      assert s[i..][k..] == s[i + k..];
      ItemsSpan(rest, s, i + k);
      var j :| i + k <= j <= |s| && Spans(tail, s, i + k, j);
      StarSpans(s, i, i + k);
      CatJoins(Star(AnyChar), tail, s, i, i + k, j);
    }
  }

  lemma {:induction false} ItemsSpanOne(c: char, rest: string, s: string, i: nat)
    requires i <= |s| && '\n' !in s && c != '*'
    ensures SpansFrom(Cat(ItemOf(c), Concat(ItemsOf(rest) + [End])), s, i)
            <==> s[i..] != "" && (c == '?' || s[i] == c) && Glob(rest, s[i..][1..])
    decreases |rest|, 1
  {
    var tail := Concat(ItemsOf(rest) + [End]);
    if j: nat :| i <= j <= |s| && Spans(Cat(ItemOf(c), tail), s, i, j) {
      var m := CatSplits(ItemOf(c), tail, s, i, j);
      ItemsSpan(rest, s, i + 1);
      assert s[i..][1..] == s[i + 1..];
    }
    if s[i..] != "" && (c == '?' || s[i] == c) && Glob(rest, s[i..][1..]) {
      assert s[i..][1..] == s[i + 1..];
      ItemsSpan(rest, s, i + 1);
      var j :| i + 1 <= j <= |s| && Spans(tail, s, i + 1, j);
      assert s[i] in s;
      CatJoins(ItemOf(c), tail, s, i, i + 1, j);
    }
  }

  /**
   The expression a plain wildcard compiles to exists and accepts exactly what the wildcard accepts, on every text
   without a line break.
   */
  lemma WildcardMeaning(glob: string, s: string)
    requires Plain(glob) && '\n' !in s
    ensures Compile("^" + Translate(glob) + "$").Some?
    ensures MatchString(Compile("^" + Translate(glob) + "$").value, s) <==> Glob(glob, s)
  {
    TextCompiles(glob);
    var tail := Concat(ItemsOf(glob) + [End]);
    var r := Cat(Begin, tail);
    ItemsSpan(glob, s, 0);
    assert s[0..] == s;
    if i: nat, j: nat :| i <= j <= |s| && Spans(r, s, i, j) {
      var k := CatSplits(Begin, tail, s, i, j);
      assert Spans(tail, s, 0, j);
    }
    if j :| 0 <= j <= |s| && Spans(tail, s, 0, j) {
      CatJoins(Begin, tail, s, 0, 0, j);
    }
  }

  function CompiledGlob(glob: string): Re {
    var r := Compile("^" + Translate(glob) + "$");
    if r.Some? then r.value else Empty
  }

  lemma {:induction false} StarStopsAtBreak(s: string, i: nat, j: nat)
    requires i <= j <= |s| && Spans(Star(AnyChar), s, i, j)
    ensures forall k | i <= k < j :: s[k] != '\n'
    decreases j - i
  {
    if i < j {
      var k :| i < k <= j && Spans(AnyChar, s, i, k) && Spans(Star(AnyChar), s, k, j);
      StarStopsAtBreak(s, k, j);
    }
  }

  lemma StarAcceptsAll(s: string)
    ensures Glob("*", s)
  {
    assert "*"[1..] == "" && s[|s|..] == "";
    assert Glob("*"[1..], s[|s|..]);
  }

  /** The expression of a bare `*` finds no match in a text with a line break. */
  lemma StarMissesBreak(s: string)
    requires '\n' in s
    ensures !MatchString(CompiledGlob("*"), s)
  {
    TextCompiles("*");
    assert "*"[1..] == "" && ItemsOf("*") == [Star(AnyChar)];
    assert ([Star(AnyChar)] + [End])[1..] == [End];
    var tail := Cat(Star(AnyChar), Concat([End]));
    forall i, j | 0 <= i <= j <= |s| ensures !Spans(Cat(Begin, tail), s, i, j) {
      if Spans(Cat(Begin, tail), s, i, j) {
        var k := CatSplits(Begin, tail, s, i, j);
        var m := CatSplits(Star(AnyChar), Concat([End]), s, k, j);
        EndSpans(s, m, j);
        StarStopsAtBreak(s, 0, |s|);
      }
    }
  }

  /**
   Expressions mean what their wildcards mean, for all plain wildcards, on exactly the texts without a line break. Names
   unpacked from a message write control characters as escapes, so the code only sees such texts.
   */
  lemma MeaningIffNoLineBreak(s: string)
    ensures (forall glob | Plain(glob) :: MatchString(CompiledGlob(glob), s) <==> Glob(glob, s)) <==> '\n' !in s
  {
    if '\n' !in s {
      forall glob | Plain(glob) ensures MatchString(CompiledGlob(glob), s) <==> Glob(glob, s) {
        WildcardMeaning(glob, s);
      }
    } else {
      StarMissesBreak(s);
      StarAcceptsAll(s);
      assert Plain("*");
    }
  }
}
