/** Messages and resource records as the heap objects the code edits in place. */
module Messages {
  import opened Options

  datatype RRType = A | AAAA | CNAME | OPT | OtherType

  const TYPE_A := 1
  const TYPE_AAAA := 28

  datatype Question = Question(name: string, qtype: nat)

  datatype RRVal = RRVal(name: string, rrtype: RRType, ttl: nat, data: string)

  class RR {
    var name: string
    const rrtype: RRType
    var ttl: nat
    const data: string

    constructor (v: RRVal)
      ensures Val() == v
    {
      name, rrtype, ttl, data := v.name, v.rrtype, v.ttl, v.data;
    }

    function Val(): RRVal
      reads this
    {
      RRVal(name, rrtype, ttl, data)
    }
  }

  /** The values of a section. */
  ghost function Vals(rrs: seq<RR>): (r: seq<RRVal>)
    reads rrs
    ensures |r| == |rrs| && forall i | 0 <= i < |rrs| :: r[i] == rrs[i].Val()
  {
    seq(|rrs|, i requires 0 <= i < |rrs| reads rrs => rrs[i].Val())
  }

  ghost predicate NoAliases(rrs: seq<RR>) {
    forall i, j | 0 <= i < j < |rrs| :: rrs[i] != rrs[j]
  }

  predicate IsAddress(t: RRType) {
    t == A || t == AAAA
  }

  /** The deep copy of Msg.Copy. */
  method Copy(rrs: seq<RR>) returns (r: array<RR>)
    ensures fresh(r) && fresh(set x | x in r[..]) && NoAliases(r[..])
    ensures Vals(r[..]) == old(Vals(rrs))
  {
    var out: seq<RR> := [];
    var i := 0;
    while i < |rrs|
      invariant 0 <= i <= |rrs| && |out| == i
      invariant forall x | x in out :: fresh(x)
      invariant NoAliases(out)
      invariant forall k | 0 <= k < i :: out[k].Val() == rrs[k].Val()
    {
      var rr := new RR(rrs[i].Val());
      out := out + [rr];
      i := i + 1;
    }
    r := new RR[|out|](k requires 0 <= k < |out| => out[k]);
    assert r[..] == out;
  }

  class Msg {
    const question: array<Question>
    var answer: seq<RR>
    var ns: seq<RR>
    var extra: seq<RR>

    constructor (question: array<Question>, answer: seq<RR>, ns: seq<RR>, extra: seq<RR>)
      ensures this.question == question && this.answer == answer && this.ns == ns && this.extra == extra
    {
      this.question := question;
      this.answer, this.ns, this.extra := answer, ns, extra;
    }

    /** IsEdns0: the option record nearest the end. */
    method IsEdns0() returns (opt: Option<RR>)
      ensures opt == LastOPT(extra)
    {
      var i := |extra|;
      assert extra[..i] == extra;
      while i > 0
        invariant 0 <= i <= |extra|
        invariant LastOPT(extra) == LastOPT(extra[..i])
      {
        i := i - 1;
        assert extra[..i + 1][..i] == extra[..i];
        if extra[i].rrtype == OPT {
          return Some(extra[i]);
        }
      }
      return None;
    }
  }

  function LastOPT(rrs: seq<RR>): Option<RR> {
    if rrs == [] then None
    else if rrs[|rrs| - 1].rrtype == OPT then Some(rrs[|rrs| - 1])
    else LastOPT(rrs[..|rrs| - 1])
  }

  /** The DO bit, which an option record carries in its TTL field (section 6.1.3 of RFC 6891). */
  predicate DoBit(ttl: nat) {
    ttl / 0x8000 % 2 == 1
  }

  /** The address type a query asks for. */
  function Wanted(qtype: nat): Option<RRType> {
    if qtype == TYPE_A then Some(A) else if qtype == TYPE_AAAA then Some(AAAA) else None
  }

  /** It is the option record behind which there is none; None if there is no option record at all. */
  lemma {:induction false} LastOPTIs(rrs: seq<RR>)
    ensures LastOPT(rrs) == None <==> forall x | x in rrs :: x.rrtype != OPT
    ensures forall k | 0 <= k < |rrs| && rrs[k].rrtype == OPT && (forall j | k < j < |rrs| :: rrs[j].rrtype != OPT) ::
              LastOPT(rrs) == Some(rrs[k])
  {
    if rrs != [] {
      var front, last := rrs[..|rrs| - 1], rrs[|rrs| - 1];
      LastOPTIs(front);
      assert forall x :: x in rrs <==> x in front || x == last;
      forall k | 0 <= k < |rrs| && rrs[k].rrtype == OPT && (forall j | k < j < |rrs| :: rrs[j].rrtype != OPT)
        ensures LastOPT(rrs) == Some(rrs[k])
      {
        if k < |front| {
          assert front[k] == rrs[k] && rrs[|front|] == last;
          assert forall j | k < j < |front| :: front[j] == rrs[j];
        }
      }
    }
  }

  /** Bit 15 of the TTL field. */
  lemma DoBitIs(high: nat, bit: nat, low: nat)
    requires bit < 2 && low < 0x8000
    ensures DoBit(high * 0x1_0000 + bit * 0x8000 + low) <==> bit == 1
  {
    var ttl := high * 0x1_0000 + bit * 0x8000 + low;
    assert ttl == (2 * high + bit) * 0x8000 + low;
    assert ttl / 0x8000 == 2 * high + bit;
  }

  /** Type 1 asks for IPv4 addresses, type 28 for IPv6 ones (section 3.2.2 of RFC 1035, section 2.2 of RFC 3596). */
  lemma WantedIs(qtype: nat)
    ensures Wanted(qtype) == Some(A) <==> qtype == 1
    ensures Wanted(qtype) == Some(AAAA) <==> qtype == 28
    ensures Wanted(qtype) == None <==> qtype != 1 && qtype != 28
  {
  }
}
