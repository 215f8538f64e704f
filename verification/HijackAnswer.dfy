/** The response side of hijack rewriting in outbound/groups.go: questions restored, answers cleaned in place. */
module HijackAnswer {
  import opened Options
  import opened Selections
  import opened Messages
  import opened Hijack
  import opened Texts

  /** The records of one type, in order. */
  function OfType(rrs: seq<RR>, t: RRType): seq<RR> {
    if rrs == [] then []
    else OfType(rrs[..|rrs| - 1], t) + (if rrs[|rrs| - 1].rrtype == t then [rrs[|rrs| - 1]] else [])
  }

  lemma {:induction false} OfTypeHas(rrs: seq<RR>, t: RRType)
    ensures forall x :: x in OfType(rrs, t) <==> x in rrs && x.rrtype == t
  {
    if rrs != [] {
      OfTypeHas(rrs[..|rrs| - 1], t);
      assert rrs == rrs[..|rrs| - 1] + [rrs[|rrs| - 1]];
    }
  }

  /** Only the records of that type are left, in order. */
  lemma {:induction false} OfTypeIs(rrs: seq<RR>, t: RRType)
    ensures Selected(rrs, OfType(rrs, t), (x: RR) => x.rrtype == t)
  {
    var keep := (x: RR) => x.rrtype == t;
    if rrs == [] {
      NoneSelected(keep);
    } else {
      var front, last := rrs[..|rrs| - 1], rrs[|rrs| - 1];
      OfTypeIs(front, t);
      SelectAtEnd(front, last, OfType(front, t), keep);
      assert rrs == front + [last];
    }
  }

  /** One address question and no client that asked for DNSSEC records. */
  ghost predicate Cleans(msg: Msg)
    reads msg, msg.question, msg.extra
  {
    && msg.question.Length == 1 && Wanted(msg.question[0].qtype).Some?
    && !(LastOPT(msg.extra).Some? && LastOPT(msg.extra).value in msg.extra && DoBit(LastOPT(msg.extra).value.ttl))
  }

  lemma {:induction false} LastOPTIsIn(rrs: seq<RR>)
    requires LastOPT(rrs).Some?
    ensures LastOPT(rrs).value in rrs && LastOPT(rrs).value.rrtype == OPT
  {
    if rrs[|rrs| - 1].rrtype != OPT {
      LastOPTIsIn(rrs[..|rrs| - 1]);
    }
  }

  function KeptExtra(extra: seq<RR>): seq<RR> {
    if LastOPT(extra).Some? then [LastOPT(extra).value] else []
  }

  /** The wanted records of the answer, renamed in place. */
  method Gather(answer: seq<RR>, t: RRType, name: string) returns (cleaned: seq<RR>)
    modifies answer
    ensures cleaned == OfType(answer, t)
    ensures forall x | x in answer :: x.Val() == if x.rrtype == t then old(x.Val()).(name := name) else old(x.Val())
  {
    cleaned := [];
    var i := 0;
    while i < |answer|
      invariant 0 <= i <= |answer|
      invariant cleaned == OfType(answer[..i], t)
      invariant forall x | x in answer ::
                  x.Val() == if x in answer[..i] && x.rrtype == t then old(x.Val()).(name := name) else old(x.Val())
    {
      var rr := answer[i];
      assert answer[..i + 1][..i] == answer[..i];
      if rr.rrtype == t {
        rr.name := name;
        cleaned := cleaned + [rr];
      }
      i := i + 1;
    }
    assert answer[..|answer|] == answer;
  }

  method DropRest(msg: Msg)
    modifies msg`ns, msg`extra
    ensures msg.ns == [] && msg.extra == KeptExtra(old(msg.extra))
  {
    msg.ns := [];
    var opt := msg.IsEdns0();
    msg.extra := [];
    if opt.Some? {
      msg.extra := [opt.value];
    }
  }

  /** The cleaning itself. */
  method Clean(msg: Msg, t: RRType, name: string)
    modifies msg, msg.answer
    ensures msg.answer == OfType(old(msg.answer), t) && msg.ns == [] && msg.extra == KeptExtra(old(msg.extra))
    ensures forall x | x in old(msg.answer) ::
              x.Val() == if x in msg.answer then old(x.Val()).(name := name) else old(x.Val())
  {
    var cleaned := Gather(msg.answer, t, name);
    OfTypeHas(msg.answer, t);
    msg.answer := cleaned;
    DropRest(msg);
  }

  method CleanHijackAnswer(msg: Msg)
    modifies msg, msg.answer
    ensures old(!Cleans(msg)) ==>
              && msg.answer == old(msg.answer) && msg.ns == old(msg.ns) && msg.extra == old(msg.extra)
              && Vals(msg.answer) == old(Vals(msg.answer))
    ensures old(Cleans(msg)) ==>
              var q := msg.question[0];
              && msg.answer == OfType(old(msg.answer), Wanted(q.qtype).value)
              && msg.ns == [] && msg.extra == KeptExtra(old(msg.extra))
              && forall x | x in old(msg.answer) ::
                   x.Val() == if x in msg.answer then old(x.Val()).(name := q.name) else old(x.Val())
  {
    if msg.question.Length != 1 {
      return;
    }
    var q := msg.question[0];
    if q.qtype != TYPE_A && q.qtype != TYPE_AAAA {
      return;
    }
    var opt := msg.IsEdns0();
    if opt.Some? {
      LastOPTIsIn(msg.extra);
      if DoBit(opt.value.ttl) {
        return;
      }
    }
    Clean(msg, Wanted(q.qtype).value, q.name);
  }

  /** processHijackRules: forward on a request, backward and cleaned on a response. */
  method ProcessHijackRules(msg: Msg?, rules: seq<Rule>, reverse: bool)
    modifies if msg == null then {} else {msg, msg.question} + (set x | x in msg.answer)
    ensures msg != null && rules != [] ==> forall i | 0 <= i < msg.question.Length ::
              msg.question[i] == old(msg.question[i]).(name := Rewritten(old(msg.question[i].name), rules, reverse))
    ensures msg != null && (rules == [] || !reverse || old(!Cleans(msg))) ==>
              && msg.answer == old(msg.answer) && msg.ns == old(msg.ns) && msg.extra == old(msg.extra)
              && Vals(msg.answer) == old(Vals(msg.answer))
    ensures msg != null && rules == [] ==> msg.question[..] == old(msg.question[..])
    ensures msg != null && rules != [] && reverse && old(Cleans(msg)) ==>
              CleanedTo(msg, old(msg.answer), old(msg.extra))
    ensures msg != null ==> forall x | x in old(msg.answer) ::
              x.Val() == if rules != [] && reverse && old(Cleans(msg)) && x in msg.answer
                         then old(x.Val()).(name := msg.question[0].name) else old(x.Val())
  {
    if msg == null || |rules| == 0 {
      return;
    }
    RewriteQuestions(msg.question, rules, reverse);
    if reverse {
      CleanHijackAnswer(msg);
    }
  }

  ghost predicate CleanedTo(msg: Msg, answer: seq<RR>, extra: seq<RR>)
    requires msg.question.Length == 1
    reads msg, msg.question
  {
    && Wanted(msg.question[0].qtype).Some?
    && msg.answer == OfType(answer, Wanted(msg.question[0].qtype).value)
    && msg.ns == [] && msg.extra == KeptExtra(extra)
  }

  /** The echoed question is the client's, rewritten forward, in any case. */
  predicate Echoes(echo: Question, client: Question, rules: seq<Rule>) {
    && WellFormedRules(rules) && WellFormed(client.name)
    && echo.qtype == client.qtype && WellFormed(echo.name)
    && EqualFold(echo.name, Forward(client.name, rules)) && HasSuffix(echo.name, ".") == HasSuffix(client.name, ".")
  }

  lemma EchoRestoredIff(echo: Question, client: Question, rules: seq<Rule>)
    requires Echoes(echo, client, rules)
    ensures EqualFold(Rewritten(echo.name, rules, true), client.name)
       <==> Leads(LabelsOf(client.name), LabelsOf(Forward(client.name, rules)), rules)
  {
    EchoRoundTripIff(client.name, echo.name, rules);
    HijackRoundTripIff(client.name, rules);
  }

  lemma KeptAreOPT(extra: seq<RR>)
    ensures forall x | x in KeptExtra(extra) :: x.rrtype == OPT
  {
    if LastOPT(extra).Some? {
      LastOPTIsIn(extra);
    }
  }

  /** A response whose question comes back as the client's is cleaned to what the client asked for. */
  method CleanEchoed(msg: Msg, rules: seq<Rule>, ghost client: Question)
    requires rules != [] && Cleans(msg) && msg.question[0].qtype == client.qtype
    requires EqualFold(Rewritten(msg.question[0].name, rules, true), client.name)
    modifies msg, msg.question, msg.answer
    ensures AnswersClient(msg, client, old(msg.answer), old(msg.extra))
    ensures forall x | x in old(msg.answer) && x in msg.answer ::
              x.Val() == old(x.Val()).(name := msg.question[0].name)
  {
    KeptAreOPT(msg.extra);
    ghost var answer := msg.answer;
    ProcessHijackRules(msg, rules, true);
    assert msg.question[0].qtype == client.qtype;
    assert msg.answer == OfType(answer, Wanted(client.qtype).value);
    OfTypeHas(answer, Wanted(client.qtype).value);
  }

  /** The client's own question, of the answers those of the type it asked, and nothing beside them. */
  ghost predicate AnswersClient(msg: Msg, client: Question, answer: seq<RR>, extra: seq<RR>)
    reads msg, msg.question
  {
    && msg.question.Length == 1
    && EqualFold(msg.question[0].name, client.name) && msg.question[0].qtype == client.qtype
    && Wanted(client.qtype).Some? && msg.answer == OfType(answer, Wanted(client.qtype).value)
    && (forall x | x in msg.answer :: x in answer)
    && (forall x | x in answer :: x in msg.answer <==> Some(x.rrtype) == Wanted(client.qtype))
    && msg.ns == [] && msg.extra == KeptExtra(extra) && forall x | x in msg.extra :: x.rrtype == OPT
  }

  /** The echo of a client's question that leads to its rewrite. */
  ghost predicate EchoesBack(echo: Question, client: Question, rules: seq<Rule>) {
    Echoes(echo, client, rules) && Leads(LabelsOf(client.name), LabelsOf(Forward(client.name, rules)), rules)
  }

  lemma EchoComesBack(echo: Question, client: Question, rules: seq<Rule>)
    requires EchoesBack(echo, client, rules)
    ensures EqualFold(Rewritten(echo.name, rules, true), client.name) && echo.qtype == client.qtype
  {
    EchoRestoredIff(echo, client, rules);
  }

  /**
   A response that echoes the rewritten question, in any case, to a client whose name leads to its rewrite: the client
   gets its own question back, and only addresses it asked for, under its own name.
   */
  method AnswerClient(msg: Msg, rules: seq<Rule>, ghost client: Question)
    requires rules != [] && Cleans(msg) && EchoesBack(msg.question[0], client, rules)
    modifies msg, msg.question, msg.answer
    ensures AnswersClient(msg, client, old(msg.answer), old(msg.extra))
    ensures forall x | x in old(msg.answer) && x in msg.answer ::
              x.Val() == old(x.Val()).(name := msg.question[0].name)
  {
    EchoComesBack(msg.question[0], client, rules);
    CleanEchoed(msg, rules, client);
  }

  /** The option record nearest the end is kept, and nothing else of the section. */
  lemma KeptExtraIs(extra: seq<RR>)
    ensures (forall x | x in extra :: x.rrtype != OPT) ==> KeptExtra(extra) == []
    ensures forall k | 0 <= k < |extra| && extra[k].rrtype == OPT
                       && (forall j | k < j < |extra| :: extra[j].rrtype != OPT) ::
              KeptExtra(extra) == [extra[k]]
  {
    LastOPTIs(extra);
  }

  /** A response is cleaned if it has one question, for an address, and no DO bit in its last option record. */
  lemma CleansIff(msg: Msg)
    ensures Cleans(msg) <==>
              && msg.question.Length == 1 && (msg.question[0].qtype == 1 || msg.question[0].qtype == 28)
              && forall k | 0 <= k < |msg.extra| && msg.extra[k].rrtype == OPT
                            && (forall j | k < j < |msg.extra| :: msg.extra[j].rrtype != OPT) ::
                   !DoBit(msg.extra[k].ttl)
  {
    LastOPTIs(msg.extra);
    if LastOPT(msg.extra).Some? {
      var k := LastOPTAt(msg.extra);
    }
  }

  lemma {:induction false} LastOPTAt(rrs: seq<RR>) returns (k: nat)
    requires LastOPT(rrs).Some?
    ensures k < |rrs| && rrs[k] == LastOPT(rrs).value && rrs[k].rrtype == OPT
    ensures forall j | k < j < |rrs| :: rrs[j].rrtype != OPT
  {
    k := |rrs| - 1;
    if rrs[k].rrtype != OPT {
      k := LastOPTAt(rrs[..|rrs| - 1]);
    }
  }
}
