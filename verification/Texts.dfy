/** The string operations of Go's standard library that the models share, on texts of characters. */
module Texts {

  function Lower(c: char): char {
    if 'A' <= c <= 'Z' then c - 'A' + 'a' else c
  }

  /** strings.ToLower on ASCII text. */
  function ToLower(s: string): (r: string)
    ensures |r| == |s| && forall i | 0 <= i < |s| :: r[i] == Lower(s[i])
  {
    seq(|s|, i requires 0 <= i < |s| => Lower(s[i]))
  }

  lemma Regrouped<T>(a: seq<T>, b: seq<T>, c: seq<T>)
    ensures a + b + c == a + (b + c)
  {
  }

  lemma LowerConcat(a: string, b: string)
    ensures ToLower(a + b) == ToLower(a) + ToLower(b)
  {
  }

  /** strings.EqualFold on ASCII text (section 2.3.3 of RFC 1035). */
  predicate EqualFold(a: string, b: string) {
    ToLower(a) == ToLower(b)
  }

  predicate HasSuffix(s: string, t: string) {
    |t| <= |s| && s[|s| - |t|..] == t
  }

  /** strings.Split with a one-character separator: never empty, even of the empty string. */
  function Split(s: string, sep: char): (r: seq<string>)
    ensures |r| >= 1
    ensures forall i | 0 <= i < |r| :: sep !in r[i]
  {
    if s == [] then [[]]
    else if s[0] == sep then [[]] + Split(s[1..], sep)
    else
      var r := Split(s[1..], sep);
      [[s[0]] + r[0]] + r[1..]
  }

  /** strings.Join with a one-character separator. */
  function Join(parts: seq<string>, sep: char): string {
    if parts == [] then []
    else if |parts| == 1 then parts[0]
    else parts[0] + [sep] + Join(parts[1..], sep)
  }

  lemma {:induction false} JoinSplit(s: string, sep: char)
    ensures Join(Split(s, sep), sep) == s
  {
    if s != [] {
      var r := Split(s[1..], sep);
      JoinSplit(s[1..], sep);
      if s[0] == sep {
        assert Split(s, sep)[1..] == r;
      } else {
        assert Split(s, sep)[1..] == r[1..];
        assert s == [s[0]] + s[1..];
      }
    }
  }

  lemma {:induction false} SplitPrefix(a: string, b: string, sep: char)
    requires sep !in a
    ensures Split(a + [sep] + b, sep) == [a] + Split(b, sep)
  {
    var s := a + [sep] + b;
    if a == [] {
      assert s[1..] == b;
    } else {
      assert s[0] == a[0] && s[1..] == a[1..] + [sep] + b;
      SplitPrefix(a[1..], b, sep);
      assert a == [a[0]] + a[1..];
    }
  }

  lemma {:induction false} SplitOne(a: string, sep: char)
    requires sep !in a
    ensures Split(a, sep) == [a]
  {
    if a != [] {
      SplitOne(a[1..], sep);
      assert a == [a[0]] + a[1..];
    }
  }

  lemma {:induction false} SplitJoin(parts: seq<string>, sep: char)
    requires parts != [] && forall i | 0 <= i < |parts| :: sep !in parts[i]
    ensures Split(Join(parts, sep), sep) == parts
  {
    if |parts| == 1 {
      SplitOne(parts[0], sep);
    } else {
      SplitJoin(parts[1..], sep);
      SplitPrefix(parts[0], Join(parts[1..], sep), sep);
    }
  }

  function TrimLeft(s: string, c: char): (r: string)
    ensures |r| <= |s| && (r != [] ==> r[0] != c && r[|r| - 1] == s[|s| - 1])
  {
    if s != [] && s[0] == c then TrimLeft(s[1..], c) else s
  }

  function TrimRight(s: string, c: char): (r: string)
    ensures |r| <= |s| && (r != [] ==> r[|r| - 1] != c && r[0] == s[0])
  {
    if s != [] && s[|s| - 1] == c then TrimRight(s[..|s| - 1], c) else s
  }

  /** strings.Trim with a one-character cutset. */
  function Trim(s: string, c: char): (r: string)
    ensures r != [] ==> r[0] != c && r[|r| - 1] != c
  {
    TrimRight(TrimLeft(s, c), c)
  }

  /** unicode.IsSpace. */
  predicate IsSpace(c: char) {
    var u := c as int;
    || 9 <= u <= 13 || u == 0x20 || u == 0x85 || u == 0xA0 || u == 0x1680 || 0x2000 <= u <= 0x200A
    || u == 0x2028 || u == 0x2029 || u == 0x202F || u == 0x205F || u == 0x3000
  }

  /** strings.TrimSpace. */
  function TrimSpace(s: string): (r: string)
    ensures |r| <= |s| && (r != "" ==> !IsSpace(r[0]) && !IsSpace(r[|r| - 1]))
  {
    if s == "" then ""
    else if IsSpace(s[0]) then TrimSpace(s[1..])
    else if IsSpace(s[|s| - 1]) then TrimSpace(s[..|s| - 1])
    else s
  }

  /** strings.FieldsFunc: the longest stretches without a separator. */
  function FieldsFrom(s: string, isSep: char -> bool, field: string): (r: seq<string>)
    requires forall c | c in field :: !isSep(c)
    ensures forall i | 0 <= i < |r| :: r[i] != "" && forall c | c in r[i] :: !isSep(c)
    decreases |s|
  {
    if s == "" then (if field == "" then [] else [field])
    else if isSep(s[0]) then (if field == "" then [] else [field]) + FieldsFrom(s[1..], isSep, "")
    else FieldsFrom(s[1..], isSep, field + [s[0]])
  }

  function Fields(s: string, isSep: char -> bool): seq<string> {
    FieldsFrom(s, isSep, "")
  }

  predicate HasPrefix(s: string, t: string) {
    |t| <= |s| && s[..|t|] == t
  }

  /** Trimming takes off space at both ends, all of it, and nothing else. */
  lemma {:induction false} TrimSpaceIs(s: string) returns (a: string, b: string)
    ensures s == a + TrimSpace(s) + b && (forall c | c in a + b :: IsSpace(c))
    ensures TrimSpace(s) != "" ==> !IsSpace(TrimSpace(s)[0]) && !IsSpace(TrimSpace(s)[|TrimSpace(s)| - 1])
  {
    if s == "" {
      a, b := "", "";
    } else if IsSpace(s[0]) {
      a, b := TrimSpaceIs(s[1..]);
      a := [s[0]] + a;
    } else if IsSpace(s[|s| - 1]) {
      a, b := TrimSpaceIs(s[..|s| - 1]);
      b := b + [s[|s| - 1]];
      assert s == s[..|s| - 1] + [s[|s| - 1]];
    } else {
      a, b := "", "";
    }
  }

  lemma {:induction false} FieldsFromWord(word: string, s: string, isSep: char -> bool, field: string)
    requires (forall c | c in field :: !isSep(c)) && (forall c | c in word :: !isSep(c))
    ensures FieldsFrom(word + s, isSep, field) == FieldsFrom(s, isSep, field + word)
    decreases |word|
  {
    if word == "" {
      assert word + s == s && field + word == field;
    } else {
      assert (word + s)[0] == word[0] && (word + s)[1..] == word[1..] + s && word[0] in word;
      FieldsFromWord(word[1..], s, isSep, field + [word[0]]);
      assert field + [word[0]] + word[1..] == field + word;
    }
  }

  /** A word and a separator in front of a text is one more field; a separator alone is none. */
  lemma FieldsAre(word: string, sep: char, s: string, isSep: char -> bool)
    requires isSep(sep) && forall c | c in word :: !isSep(c)
    ensures Fields(word + [sep] + s, isSep) == (if word == "" then [] else [word]) + Fields(s, isSep)
    ensures Fields(word, isSep) == if word == "" then [] else [word]
  {
    assert word + [sep] + s == word + ([sep] + s) && "" + word == word;
    FieldsFromWord(word, [sep] + s, isSep, "");
    assert ([sep] + s)[1..] == s;
    FieldsFromWord(word, "", isSep, "");
    assert word + "" == word;
  }

  /** So the fields of words put behind each other with a separator between them are those words. */
  lemma {:induction false} FieldsOfJoin(words: seq<string>, sep: char, isSep: char -> bool)
    requires isSep(sep) && forall w | w in words :: w != "" && forall c | c in w :: !isSep(c)
    ensures Fields(Join(words, sep), isSep) == words
  {
    if |words| == 1 {
      assert words[0] in words;
      FieldsAre(words[0], sep, "", isSep);
      assert words == [words[0]];
    } else if |words| > 1 {
      assert words[0] in words && forall w | w in words[1..] :: w in words;
      FieldsOfJoin(words[1..], sep, isSep);
      FieldsAre(words[0], sep, Join(words[1..], sep), isSep);
      assert words == [words[0]] + words[1..];
    }
  }
}
