/**
 The cache key of cache/dns.go: name, query type and EDNS client subnet run together and lower-cased, with the text of
 the subnet from utils/dns.go.
 */
module CacheKey {
  import opened Options
  import opened Texts

  // ------------------------------------------------------------------------------------------------
  // Decimal numbers

  function Digit(d: nat): char
    requires d < 10
  {
    '0' + d as char
  }

  /** strconv.FormatInt(n, 10). */
  function Decimal(n: nat): (r: string)
    ensures r != "" && forall i | 0 <= i < |r| :: '0' <= r[i] <= '9'
  {
    if n < 10 then [Digit(n)] else Decimal(n / 10) + [Digit(n % 10)]
  }

  lemma {:induction false} DecimalInjective(m: nat, n: nat)
    requires Decimal(m) == Decimal(n)
    ensures m == n
  {
    var a, b := Decimal(m), Decimal(n);
    if m >= 10 && n >= 10 {
      assert a[..|a| - 1] == Decimal(m / 10) && b[..|b| - 1] == Decimal(n / 10);
      DecimalInjective(m / 10, n / 10);
      assert a[|a| - 1] == Digit(m % 10) && b[|b| - 1] == Digit(n % 10);
    } else {
      assert m >= 10 ==> |a| >= 2;
      assert n >= 10 ==> |b| >= 2;
    }
  }

  // ------------------------------------------------------------------------------------------------
  // Requests and their subnet text

  /**
   The address of a subnet option as it prints: an IPv4 address, or an IPv6 address that is mapped from one, by its
   octets; any other IPv6 address by its text, which has colons and neither dots nor slashes.
   */
  datatype Address = V4(a: nat, b: nat, c: nat, d: nat) | V6(text: string)

  datatype Subnet = Subnet(family: nat, address: Address, mask: nat)

  predicate IsAddress(x: Address) {
    match x
    case V4(a, b, c, d) => a < 256 && b < 256 && c < 256 && d < 256
    case V6(text) =>
      ':' in text && forall i | 0 <= i < |text| :: text[i] == ':' || '0' <= text[i] <= '9' || 'a' <= text[i] <= 'f'
  }

  /**
   What section 6 of RFC 7871 leaves of a subnet: family 1 for IPv4 and 2 for IPv6, a mask within the address, and no
   bits behind the mask. A mapped address has ones up to its 96th bit, so its mask is at least that long.
   */
  predicate FamilyFits(s: Subnet) {
    && (s.family == 1 || s.family == 2)
    && (s.family == 1 ==> s.address.V4? && s.mask <= 32)
    && (s.family == 2 ==> s.mask <= 128 && (s.address.V4? ==> 96 <= s.mask))
  }

  /** Equal but for the family, which the text does not show. */
  predicate SameSubnet(e: Option<Subnet>, e': Option<Subnet>) {
    match (e, e')
    case (None, None) => true
    case (Some(s), Some(t)) => s.address == t.address && s.mask == t.mask
    case _ => false
  }

  /** Of subnets that keep to section 6 the text shows the family too. */
  lemma FamiliesShow(e: Option<Subnet>, e': Option<Subnet>)
    requires (e.Some? ==> FamilyFits(e.value)) && (e'.Some? ==> FamilyFits(e'.value))
    ensures SameSubnet(e, e') <==> e == e'
  {
  }

  function AddressText(x: Address): string {
    match x
    case V4(a, b, c, d) => Decimal(a) + "." + Decimal(b) + "." + Decimal(c) + "." + Decimal(d)
    case V6(text) => text
  }

  function SubnetText(s: Subnet): string {
    AddressText(s.address) + "/" + Decimal(s.mask)
  }

  /** What the Extra section of a request holds. */
  datatype Option0 = ECS(subnet: Subnet) | Cookie | OtherOption
  datatype Extra = OPT(options: seq<Option0>) | OtherExtra

  datatype Request = Request(name: string, qtype: nat, extra: seq<Extra>)

  function FirstECS(options: seq<Option0>): Option<Subnet> {
    if options == [] then None
    else if options[0].ECS? then Some(options[0].subnet)
    else FirstECS(options[1..])
  }

  /** The first subnet option of the request. */
  function FindECS(extra: seq<Extra>): Option<Subnet> {
    if extra == [] then None
    else if extra[0].OPT? && FirstECS(extra[0].options).Some? then FirstECS(extra[0].options)
    else FindECS(extra[1..])
  }

  function ECSText(e: Option<Subnet>): string {
    if e.Some? then SubnetText(e.value) else ""
  }

  method FormatECS(extra: seq<Extra>) returns (r: string)
    ensures r == ECSText(FindECS(extra))
  {
    var i := 0;
    assert extra[0..] == extra;
    while i < |extra|
      invariant 0 <= i <= |extra|
      invariant FindECS(extra) == FindECS(extra[i..])
    {
      assert extra[i..][1..] == extra[i + 1..];
      if extra[i].OPT? {
        var options := extra[i].options;
        var j := 0;
        assert options[0..] == options;
        while j < |options|
          invariant 0 <= j <= |options|
          invariant FirstECS(options) == FirstECS(options[j..])
        {
          assert options[j..][1..] == options[j + 1..];
          if options[j].ECS? {
            return SubnetText(options[j].subnet);
          }
          j := j + 1;
        }
      }
      i := i + 1;
    }
    return "";
  }

  function KeyOf(name: string, qtype: nat, ecs: Option<Subnet>): string {
    ToLower(name + Decimal(qtype) + (if ecs.Some? then "." + SubnetText(ecs.value) else ""))
  }

  /** cacheKey; the subnet text is never empty, so an empty text means no subnet option. */
  method Key(req: Request) returns (key: string)
    ensures key == KeyOf(req.name, req.qtype, FindECS(req.extra))
  {
    key := req.name + Decimal(req.qtype);
    var subnet := FormatECS(req.extra);
    if subnet != "" {
      key := key + "." + subnet;
    }
    assert key == req.name + Decimal(req.qtype)
               + (if FindECS(req.extra).Some? then "." + SubnetText(FindECS(req.extra).value) else "");
    key := ToLower(key);
  }

  // ------------------------------------------------------------------------------------------------
  // Unique decoding

  function AfterLast(s: string, c: char): string {
    if s == "" || s[|s| - 1] == c then "" else AfterLast(s[..|s| - 1], c) + [s[|s| - 1]]
  }

  lemma {:induction false} AfterLastIs(a: string, b: string, c: char)
    requires c !in b
    ensures AfterLast(a + [c] + b, c) == b
    decreases |b|
  {
    var s := a + [c] + b;
    if b == "" {
      assert s[|s| - 1] == c;
    } else {
      var n := |b| - 1;
      assert s[..|s| - 1] == a + [c] + b[..n] && s[|s| - 1] == b[n] && b[n] in b;
      AfterLastIs(a, b[..n], c);
      assert b == b[..n] + [b[n]];
    }
  }

  /** Splitting at the last occurrence of c is unambiguous when the back part has none. */
  lemma SplitAtLast(a: string, b: string, x: string, y: string, c: char)
    requires a + [c] + b == x + [c] + y && c !in b && c !in y
    ensures a == x && b == y
  {
    AfterLastIs(a, b, c);
    AfterLastIs(x, y, c);
    assert (a + [c] + b)[..|a|] == a && (x + [c] + y)[..|x|] == x;
  }

  /** Text without capitals is its own lower case. */
  lemma LowerIsSame(s: string)
    requires forall i | 0 <= i < |s| :: !('A' <= s[i] <= 'Z')
    ensures ToLower(s) == s
  {
  }

  lemma SubnetIsLow(s: Subnet)
    requires IsAddress(s.address)
    ensures ToLower("." + SubnetText(s)) == "." + SubnetText(s)
  {
    LowerIsSame("." + SubnetText(s));
  }

  /** A fully qualified name: its last character is a dot. */
  predicate Qualified(name: string) {
    HasSuffix(name, ".")
  }

  /** The front of a qualified name, lower-cased: what stands before its final dot. */
  function Front(name: string): string
    requires Qualified(name)
  {
    ToLower(name[..|name| - 1])
  }

  function Tail(ecs: Option<Subnet>): string {
    if ecs.Some? then "." + SubnetText(ecs.value) else ""
  }

  predicate Legal(name: string, ecs: Option<Subnet>) {
    Qualified(name) && (ecs.Some? ==> IsAddress(ecs.value.address))
  }

  lemma KeyShape(name: string, qtype: nat, ecs: Option<Subnet>)
    requires Legal(name, ecs)
    ensures KeyOf(name, qtype, ecs) == Front(name) + "." + Decimal(qtype) + Tail(ecs)
    ensures ToLower(name) == Front(name) + "."
  {
    var body := name[..|name| - 1];
    assert name == body + ".";
    LowerConcat(body, ".");
    LowerIsSame(".");
    LowerIsSame(Decimal(qtype));
    LowerConcat(name, Decimal(qtype));
    LowerConcat(name + Decimal(qtype), Tail(ecs));
    if ecs.Some? {
      SubnetIsLow(ecs.value);
    }
  }

  /** The key up to its last dot, and the piece behind it. */
  function Upto(name: string, qtype: nat, ecs: Option<Subnet>): string
    requires Qualified(name)
  {
    if ecs.None? then Front(name)
    else if ecs.value.address.V6? then Front(name) + "." + Decimal(qtype)
    else
      var x := ecs.value.address;
      Front(name) + "." + Decimal(qtype) + "." + Decimal(x.a) + "." + Decimal(x.b) + "." + Decimal(x.c)
  }

  function Behind(qtype: nat, ecs: Option<Subnet>): string {
    if ecs.None? then Decimal(qtype)
    else if ecs.value.address.V6? then ecs.value.address.text + "/" + Decimal(ecs.value.mask)
    else Decimal(ecs.value.address.d) + "/" + Decimal(ecs.value.mask)
  }

  lemma KeyAtLastDot(name: string, qtype: nat, ecs: Option<Subnet>)
    requires Legal(name, ecs)
    ensures KeyOf(name, qtype, ecs) == Upto(name, qtype, ecs) + "." + Behind(qtype, ecs)
    ensures '.' !in Behind(qtype, ecs)
    ensures '/' in Behind(qtype, ecs) <==> ecs.Some?
    ensures ':' in Behind(qtype, ecs) <==> ecs.Some? && ecs.value.address.V6?
  {
    KeyShape(name, qtype, ecs);
    DecimalPlain(qtype);
    if ecs.Some? {
      DecimalPlain(ecs.value.mask);
      if ecs.value.address.V4? {
        V4Behind(name, qtype, ecs.value);
      } else {
        V6Behind(name, qtype, ecs.value);
      }
    }
  }

  lemma DecimalPlain(n: nat)
    ensures '.' !in Decimal(n) && '/' !in Decimal(n) && ':' !in Decimal(n)
  {
  }

  /** Regrouping of f.w where w is a.b.c.d/m. */
  lemma Regroup(f: string, a: string, b: string, c: string, last: string)
    ensures f + ("." + (a + "." + b + "." + c + "." + last)) == f + "." + a + "." + b + "." + c + "." + last
  {
  }

  lemma Regroup2(a: string, m: string, n: string)
    ensures a + m + n == a + (m + n)
  {
  }

  lemma HasAt(a: string, c: char, b: string)
    ensures c in a + [c] + b
  {
    assert (a + [c] + b)[|a|] == c;
  }

  lemma V4Behind(name: string, qtype: nat, s: Subnet)
    requires Qualified(name) && s.address.V4?
    ensures Front(name) + "." + Decimal(qtype) + Tail(Some(s))
         == Upto(name, qtype, Some(s)) + "." + Behind(qtype, Some(s))
    ensures var b := Behind(qtype, Some(s)); '.' !in b && ':' !in b && '/' in b
  {
    var x := s.address;
    var a, b, c, d, m := Decimal(x.a), Decimal(x.b), Decimal(x.c), Decimal(x.d), Decimal(s.mask);
    DecimalPlain(x.d);
    DecimalPlain(s.mask);
    HasAt(d, '/', m);
    Regroup2(a + "." + b + "." + c + "." + d, "/", m);
    Regroup2(a + "." + b + "." + c + ".", d, "/" + m);
    Regroup2(d, "/", m);
    Regroup(Front(name) + "." + Decimal(qtype), a, b, c, d + "/" + m);
  }

  lemma V6Behind(name: string, qtype: nat, s: Subnet)
    requires Qualified(name) && s.address.V6? && IsAddress(s.address)
    ensures Front(name) + "." + Decimal(qtype) + Tail(Some(s))
         == Upto(name, qtype, Some(s)) + "." + Behind(qtype, Some(s))
    ensures var b := Behind(qtype, Some(s)); '.' !in b && ':' in b && '/' in b
  {
    DecimalPlain(s.mask);
    HasAt(s.address.text, '/', Decimal(s.mask));
    Regroup2(Front(name) + "." + Decimal(qtype), ".", Behind(qtype, Some(s)));
  }

  /** a + c + Decimal(m) determines a and m. */
  lemma PeelDecimal(a: string, m: nat, x: string, n: nat, c: char)
    requires a + [c] + Decimal(m) == x + [c] + Decimal(n) && (c == '.' || c == '/')
    ensures a == x && m == n
  {
    DecimalPlain(m);
    DecimalPlain(n);
    SplitAtLast(a, Decimal(m), x, Decimal(n), c);
    DecimalInjective(m, n);
  }

  lemma PeelV4(f: string, q: nat, s: Subnet, g: string, r: nat, t: Subnet)
    requires s.address.V4? && t.address.V4?
    requires var x, y := s.address, t.address;
             f + "." + Decimal(q) + "." + Decimal(x.a) + "." + Decimal(x.b) + "." + Decimal(x.c)
             == g + "." + Decimal(r) + "." + Decimal(y.a) + "." + Decimal(y.b) + "." + Decimal(y.c)
    ensures f == g && q == r
    ensures s.address.a == t.address.a && s.address.b == t.address.b && s.address.c == t.address.c
  {
    var x, y := s.address, t.address;
    var f1, g1 := f + "." + Decimal(q), g + "." + Decimal(r);
    var f2, g2 := f1 + "." + Decimal(x.a), g1 + "." + Decimal(y.a);
    var f3, g3 := f2 + "." + Decimal(x.b), g2 + "." + Decimal(y.b);
    PeelDecimal(f3, x.c, g3, y.c, '.');
    PeelDecimal(f2, x.b, g2, y.b, '.');
    PeelDecimal(f1, x.a, g1, y.a, '.');
    PeelDecimal(f, q, g, r, '.');
  }

  /**
   Equal keys of qualified names mean the same name up to case, the same query type and the same subnet, but for its
   family.
   */
  lemma KeyDecodes(name: string, q: nat, e: Option<Subnet>, name': string, q': nat, e': Option<Subnet>)
    requires Legal(name, e) && Legal(name', e') && KeyOf(name, q, e) == KeyOf(name', q', e')
    ensures EqualFold(name, name') && q == q' && SameSubnet(e, e')
  {
    KeyShape(name, q, e);
    KeyShape(name', q', e');
    KeyAtLastDot(name, q, e);
    KeyAtLastDot(name', q', e');
    SplitAtLast(Upto(name, q, e), Behind(q, e), Upto(name', q', e'), Behind(q', e'), '.');
    if e.None? {
      DecimalInjective(q, q');
    } else if e.value.address.V4? {
      PeelDecimal(Decimal(e.value.address.d), e.value.mask, Decimal(e'.value.address.d), e'.value.mask, '/');
      DecimalInjective(e.value.address.d, e'.value.address.d);
      PeelV4(Front(name), q, e.value, Front(name'), q', e'.value);
    } else {
      PeelDecimal(e.value.address.text, e.value.mask, e'.value.address.text, e'.value.mask, '/');
      PeelDecimal(Front(name), q, Front(name'), q', '.');
    }
  }

  lemma KeySplits(name: string, qtype: nat, e: Option<Subnet>)
    ensures KeyOf(name, qtype, e) == ToLower(name) + ToLower(Decimal(qtype)) + ToLower(Tail(e))
  {
    LowerConcat(name + Decimal(qtype), Tail(e));
    LowerConcat(name, Decimal(qtype));
  }

  /** The tail of a key shows address and mask. */
  lemma SameTail(e: Option<Subnet>, e': Option<Subnet>)
    requires SameSubnet(e, e')
    ensures Tail(e) == Tail(e')
  {
  }

  /** Two requests share a cache key exactly when they ask the same: name up to case, type and subnet. */
  lemma KeyIffSameQuestion(r: Request, s: Request)
    requires Legal(r.name, FindECS(r.extra)) && Legal(s.name, FindECS(s.extra))
    ensures KeyOf(r.name, r.qtype, FindECS(r.extra)) == KeyOf(s.name, s.qtype, FindECS(s.extra))
       <==> EqualFold(r.name, s.name) && r.qtype == s.qtype && SameSubnet(FindECS(r.extra), FindECS(s.extra))
  {
    var e, e' := FindECS(r.extra), FindECS(s.extra);
    if KeyOf(r.name, r.qtype, e) == KeyOf(s.name, s.qtype, e') {
      KeyDecodes(r.name, r.qtype, e, s.name, s.qtype, e');
    }
    if EqualFold(r.name, s.name) && r.qtype == s.qtype && SameSubnet(e, e') {
      SameTail(e, e');
      KeySplits(r.name, r.qtype, e);
      KeySplits(s.name, s.qtype, e');
    }
  }

  /** With subnets that keep to section 6 of RFC 7871 the family is the same too. */
  lemma KeyIffSameSubnet(r: Request, s: Request)
    requires Legal(r.name, FindECS(r.extra)) && Legal(s.name, FindECS(s.extra))
    requires FindECS(r.extra).Some? ==> FamilyFits(FindECS(r.extra).value)
    requires FindECS(s.extra).Some? ==> FamilyFits(FindECS(s.extra).value)
    ensures KeyOf(r.name, r.qtype, FindECS(r.extra)) == KeyOf(s.name, s.qtype, FindECS(s.extra))
       <==> EqualFold(r.name, s.name) && r.qtype == s.qtype && FindECS(r.extra) == FindECS(s.extra)
  {
    KeyIffSameQuestion(r, s);
    FamiliesShow(FindECS(r.extra), FindECS(s.extra));
  }

  /**
   Without a final dot the name runs into the type: any such name and the name with a digit more can share a key. Names
   unpacked from a message are qualified, so the code does not see them.
   */
  lemma UnqualifiedNamesCollide(name: string, digit: nat, q: nat)
    requires 0 < digit < 10 && q < 10
    ensures KeyOf(name + [Digit(digit)], q, None) == KeyOf(name, 10 * digit + q, None)
    ensures !EqualFold(name + [Digit(digit)], name)
  {
    assert Decimal(10 * digit + q) == Decimal(digit) + [Digit(q)] == [Digit(digit)] + Decimal(q);
    assert name + [Digit(digit)] + Decimal(q) + "" == name + Decimal(10 * digit + q) + "";
    assert |ToLower(name + [Digit(digit)])| != |ToLower(name)|;
  }

  predicate AreDigits(s: string) {
    forall i | 0 <= i < |s| :: '0' <= s[i] <= '9'
  }

  /** The number a text of digits stands for. */
  function Number(digits: string): nat
    requires AreDigits(digits)
  {
    if digits == "" then 0 else 10 * Number(digits[..|digits| - 1]) + (digits[|digits| - 1] - '0') as nat
  }

  /** The decimal text of a number stands for it, without leading zeros. */
  lemma {:induction false} DecimalIs(n: nat)
    ensures Number(Decimal(n)) == n && (n > 0 ==> Decimal(n)[0] != '0') && (n == 0 ==> Decimal(n) == "0")
  {
    var d := Decimal(n);
    if n >= 10 {
      DecimalIs(n / 10);
      assert d[..|d| - 1] == Decimal(n / 10) && d[|d| - 1] == Digit(n % 10);
    } else {
      assert d[..0] == "" && Number(d[..0]) == 0;
    }
  }

  /** The subnet of a request is the first one of the first option record that has one. */
  lemma {:induction false} FirstECSIs(options: seq<Option0>)
    ensures FirstECS(options) == None <==> forall o | o in options :: !o.ECS?
    ensures forall j | 0 <= j < |options| && options[j].ECS? && (forall i | 0 <= i < j :: !options[i].ECS?) ::
              FirstECS(options) == Some(options[j].subnet)
  {
    if options != [] && !options[0].ECS? {
      FirstECSIs(options[1..]);
      assert forall o :: o in options <==> o in options[1..] || o == options[0];
      forall j | 0 <= j < |options| && options[j].ECS? && (forall i | 0 <= i < j :: !options[i].ECS?)
        ensures FirstECS(options) == Some(options[j].subnet)
      {
        assert options[1..][j - 1] == options[j];
        assert forall i | 0 <= i < j - 1 :: options[1..][i] == options[i + 1];
      }
    }
  }

  lemma {:induction false} FindECSIs(extra: seq<Extra>)
    ensures FindECS(extra) == None <==> forall x, o | x in extra && x.OPT? && o in x.options :: !o.ECS?
    ensures forall k | 0 <= k < |extra| && extra[k].OPT? && FirstECS(extra[k].options).Some?
                       && (forall i, o | 0 <= i < k && extra[i].OPT? && o in extra[i].options :: !o.ECS?) ::
              FindECS(extra) == FirstECS(extra[k].options)
  {
    if extra != [] {
      FindECSIs(extra[1..]);
      assert forall x :: x in extra <==> x in extra[1..] || x == extra[0];
      if extra[0].OPT? {
        FirstECSIs(extra[0].options);
      }
      forall k | 0 <= k < |extra| && extra[k].OPT? && FirstECS(extra[k].options).Some?
                 && (forall i, o | 0 <= i < k && extra[i].OPT? && o in extra[i].options :: !o.ECS?)
        ensures FindECS(extra) == FirstECS(extra[k].options)
      {
        if k > 0 {
          assert extra[1..][k - 1] == extra[k];
          assert forall i | 0 <= i < k - 1 :: extra[1..][i] == extra[i + 1];
        }
      }
    }
  }
}
