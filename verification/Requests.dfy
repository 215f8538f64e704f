/**
 Requests on the heap, and what a group does to its own copy of one before asking an upstream: the option edits of
 utils/dns.go and the hijack rewrite of outbound/groups.go.
 */
module Requests {
  import opened Options
  import opened Selections
  import Messages
  import CacheKey
  import Hijack

  class OptRecord {
    var options: seq<CacheKey.Option0>

    constructor (options: seq<CacheKey.Option0>)
      ensures this.options == options
    {
      this.options := options;
    }
  }

  /** A record of the Extra section: an option record, or something else. */
  datatype Extra = OPT(record: OptRecord) | OtherExtra

  function Records(extra: seq<Extra>): set<OptRecord> {
    set e | e in extra && e.OPT? :: e.record
  }

  ghost predicate NoAliases(extra: seq<Extra>) {
    forall i, j | 0 <= i < j < |extra| && extra[i].OPT? && extra[j].OPT? :: extra[i].record != extra[j].record
  }

  function ValueOf(e: Extra): CacheKey.Extra
    reads if e.OPT? then {e.record} else {}
  {
    if e.OPT? then CacheKey.OPT(e.record.options) else CacheKey.OtherExtra
  }

  function Values(extra: seq<Extra>): (r: seq<CacheKey.Extra>)
    reads Records(extra)
    ensures |r| == |extra| && forall i | 0 <= i < |extra| :: r[i] == ValueOf(extra[i])
  {
    seq(|extra|, i requires 0 <= i < |extra| reads Records(extra) => ValueOf(extra[i]))
  }

  class Request {
    var question: seq<Messages.Question>
    var extra: seq<Extra>

    constructor (question: seq<Messages.Question>, extra: seq<Extra>)
      ensures this.question == question && this.extra == extra
    {
      this.question, this.extra := question, extra;
    }

    /** A deep copy. */
    method Copy() returns (r: Request)
      ensures fresh(r) && fresh(Records(r.extra)) && NoAliases(r.extra)
      ensures r.question == question && Values(r.extra) == old(Values(extra))
    {
      var out: seq<Extra> := [];
      var i := 0;
      while i < |extra|
        invariant 0 <= i <= |extra| && |out| == i
        invariant (forall e | e in out && e.OPT? :: fresh(e.record)) && NoAliases(out)
        invariant forall k | 0 <= k < i :: ValueOf(out[k]) == ValueOf(extra[k])
      {
        if extra[i].OPT? {
          var opt := new OptRecord(extra[i].record.options);
          out := out + [OPT(opt)];
        } else {
          out := out + [OtherExtra];
        }
        i := i + 1;
      }
      r := new Request(question, out);
    }
  }

  // ------------------------------------------------------------------------------------------------
  // The edits, by value

  function WithoutCookies(options: seq<CacheKey.Option0>): seq<CacheKey.Option0> {
    if options == [] then []
    else (if options[0].Cookie? then [] else [options[0]]) + WithoutCookies(options[1..])
  }

  function NoCookies(extra: seq<CacheKey.Extra>): (r: seq<CacheKey.Extra>)
    ensures |r| == |extra|
  {
    seq(|extra|, i requires 0 <= i < |extra| =>
      if extra[i].OPT? then CacheKey.OPT(WithoutCookies(extra[i].options)) else extra[i])
  }

  /** The position of the first option record, or the length. */
  function FirstOPT(extra: seq<CacheKey.Extra>): (i: nat)
    ensures i <= |extra| && (i < |extra| ==> extra[i].OPT?)
    ensures forall k | 0 <= k < i :: !extra[k].OPT?
  {
    if extra == [] || extra[0].OPT? then 0 else 1 + FirstOPT(extra[1..])
  }

  /** A subnet in front of the first option record's options, unless there is one already. */
  function WithECS(extra: seq<CacheKey.Extra>, ecs: CacheKey.Subnet): seq<CacheKey.Extra> {
    var i := FirstOPT(extra);
    if CacheKey.FindECS(extra).Some? then extra
    else if i == |extra| then extra + [CacheKey.OPT([CacheKey.ECS(ecs)])]
    else extra[i := CacheKey.OPT([CacheKey.ECS(ecs)] + extra[i].options)]
  }

  // ------------------------------------------------------------------------------------------------
  // The edits, in place

  /** The inner loop, which shortens the list under its own index. */
  method RemoveCookies(opt: OptRecord)
    modifies opt
    ensures opt.options == WithoutCookies(old(opt.options))
  {
    var i := 0;
    assert opt.options[0..] == opt.options;
    while i < |opt.options|
      invariant 0 <= i <= |opt.options|
      invariant opt.options[..i] + WithoutCookies(opt.options[i..]) == WithoutCookies(old(opt.options))
      decreases |opt.options| - i
    {
      ghost var done, rest := opt.options[..i], opt.options[i + 1..];
      assert opt.options[i..][1..] == rest;
      if opt.options[i].Cookie? {
        opt.options := opt.options[..i] + opt.options[i + 1..];
        assert opt.options[..i] == done && opt.options[i..] == rest;
      } else {
        i := i + 1;
        assert opt.options[..i] == done + [opt.options[i - 1]];
      }
    }
  }

  method RemoveEDNSCookie(msg: Request)
    requires NoAliases(msg.extra)
    modifies Records(msg.extra)
    ensures Values(msg.extra) == NoCookies(old(Values(msg.extra)))
  {
    ghost var was := Values(msg.extra);
    var i := 0;
    while i < |msg.extra|
      invariant 0 <= i <= |msg.extra|
      invariant forall k | 0 <= k < i :: ValueOf(msg.extra[k]) == NoCookies(was)[k]
      invariant forall k | i <= k < |msg.extra| :: ValueOf(msg.extra[k]) == was[k]
    {
      if msg.extra[i].OPT? {
        RemoveCookies(msg.extra[i].record);
      }
      i := i + 1;
    }
  }

  method SetDefaultECS(msg: Request, ecs: CacheKey.Subnet)
    requires NoAliases(msg.extra)
    modifies msg`extra, Records(msg.extra)
    ensures Values(msg.extra) == WithECS(old(Values(msg.extra)), ecs)
    ensures Records(msg.extra) == old(Records(msg.extra)) || fresh(Records(msg.extra) - old(Records(msg.extra)))
  {
    ghost var was := Values(msg.extra);
    var firstOPTIndex := -1;
    var i := 0;
    assert was[0..] == was;
    while i < |msg.extra|
      invariant 0 <= i <= |msg.extra|
      invariant CacheKey.FindECS(was) == CacheKey.FindECS(was[i..])
      invariant firstOPTIndex < 0 ==> forall k | 0 <= k < i :: !was[k].OPT?
      invariant firstOPTIndex >= 0 ==> firstOPTIndex < i && FirstOPT(was) == firstOPTIndex
    {
      assert was[i..][1..] == was[i + 1..];
      if msg.extra[i].OPT? {
        if firstOPTIndex < 0 {
          firstOPTIndex := i;
        }
        var options := msg.extra[i].record.options;
        var j := 0;
        assert options[0..] == options;
        while j < |options|
          invariant 0 <= j <= |options|
          invariant CacheKey.FirstECS(options) == CacheKey.FirstECS(options[j..])
        {
          assert options[j..][1..] == options[j + 1..];
          if options[j].ECS? {
            return;
          }
          j := j + 1;
        }
      }
      i := i + 1;
    }
    if firstOPTIndex < 0 {
      var opt := new OptRecord([CacheKey.ECS(ecs)]);
      msg.extra := msg.extra + [OPT(opt)];
    } else {
      var opt := msg.extra[firstOPTIndex].record;
      opt.options := [CacheKey.ECS(ecs)] + opt.options;
    }
  }

  // ------------------------------------------------------------------------------------------------
  // What the edits achieve

  lemma {:induction false} CookiesGone(options: seq<CacheKey.Option0>)
    ensures CacheKey.Cookie !in WithoutCookies(options)
    ensures CacheKey.FirstECS(WithoutCookies(options)) == CacheKey.FirstECS(options)
  {
    if options != [] {
      CookiesGone(options[1..]);
      assert options[0].Cookie? ==> WithoutCookies(options) == WithoutCookies(options[1..]);
      assert !options[0].Cookie? ==> WithoutCookies(options)[1..] == WithoutCookies(options[1..]);
    }
  }

  /** Nothing but cookies goes, and the order stays: a cookie anywhere may be ignored, anything else may not. */
  lemma {:induction false} CookiesIgnored(a: seq<CacheKey.Option0>, o: CacheKey.Option0, b: seq<CacheKey.Option0>)
    ensures WithoutCookies(a + [o] + b) == WithoutCookies(a) + (if o.Cookie? then [] else [o]) + WithoutCookies(b)
  {
    var s := a + [o] + b;
    if a == [] {
      assert s[1..] == b;
    } else {
      assert s[0] == a[0] && s[1..] == a[1..] + [o] + b;
      CookiesIgnored(a[1..], o, b);
    }
  }

  /** Removing cookies leaves none, and the subnet the request carries is the same. */
  lemma {:induction false} NoCookiesKeepsECS(extra: seq<CacheKey.Extra>)
    ensures CacheKey.FindECS(NoCookies(extra)) == CacheKey.FindECS(extra)
    ensures forall i | 0 <= i < |extra| && extra[i].OPT? :: CacheKey.Cookie !in NoCookies(extra)[i].options
  {
    if extra != [] {
      NoCookiesKeepsECS(extra[1..]);
      assert NoCookies(extra)[1..] == NoCookies(extra[1..]);
      assert forall i | 1 <= i < |extra| :: extra[i] == extra[1..][i - 1];
      if extra[0].OPT? {
        CookiesGone(extra[0].options);
      }
    }
  }

  /** The request carries its own subnet if it has one, else the default. */
  lemma {:induction false} DefaultECS(extra: seq<CacheKey.Extra>, ecs: CacheKey.Subnet)
    ensures CacheKey.FindECS(WithECS(extra, ecs))
         == if CacheKey.FindECS(extra).Some? then CacheKey.FindECS(extra) else Some(ecs)
  {
    if CacheKey.FindECS(extra).None? && extra != [] {
      if extra[0].OPT? {
        assert WithECS(extra, ecs)[0].options[0] == CacheKey.ECS(ecs);
      } else {
        DefaultECS(extra[1..], ecs);
        assert WithECS(extra, ecs)[1..] == WithECS(extra[1..], ecs);
      }
    }
  }

  /** The default is one option in front, of the first option record or of a new last one; all else is as it was. */
  lemma DefaultECSOnlyAdds(extra: seq<CacheKey.Extra>, ecs: CacheKey.Subnet) returns (i: nat)
    ensures var r := WithECS(extra, ecs);
            if CacheKey.FindECS(extra).Some? then r == extra
            else
              && i < |r| && r[i].OPT? && r[i].options != [] && r[i].options[0] == CacheKey.ECS(ecs)
              && (forall k | 0 <= k < i && k < |extra| :: !extra[k].OPT?)
              && if i < |extra| then r[i := CacheKey.OPT(r[i].options[1..])] == extra
                 else r == extra + [CacheKey.OPT([CacheKey.ECS(ecs)])]
  {
    i := FirstOPT(extra);
    if CacheKey.FindECS(extra).None? && i < |extra| {
      var r := WithECS(extra, ecs);
      assert r[i].options[1..] == extra[i].options;
    }
  }

  // ------------------------------------------------------------------------------------------------
  // A group's request to its upstreams

  datatype Settings =
    Settings(disableQTypes: set<nat>, noCookie: bool, withECS: Option<CacheKey.Subnet>, rules: seq<Hijack.Rule>)

  predicate Disabled(question: seq<Messages.Question>, qtypes: set<nat>) {
    exists i | 0 <= i < |question| :: question[i].qtype in qtypes
  }

  function Edited(extra: seq<CacheKey.Extra>, s: Settings): seq<CacheKey.Extra> {
    var e := if s.noCookie then NoCookies(extra) else extra;
    if s.withECS.Some? then WithECS(e, s.withECS.value) else e
  }

  function Forwarded(question: seq<Messages.Question>, rules: seq<Hijack.Rule>): (r: seq<Messages.Question>)
    ensures |r| == |question|
    ensures forall i | 0 <= i < |r| :: r[i] == question[i].(name := Hijack.Forward(question[i].name, rules))
  {
    seq(|question|, i requires 0 <= i < |question| => question[i].(name := Hijack.Forward(question[i].name, rules)))
  }

  method IsDisabled(question: seq<Messages.Question>, qtypes: set<nat>) returns (r: bool)
    ensures r == Disabled(question, qtypes)
  {
    var i := 0;
    while i < |question|
      invariant 0 <= i <= |question| && forall k | 0 <= k < i :: question[k].qtype !in qtypes
    {
      if question[i].qtype in qtypes {
        return true;
      }
      i := i + 1;
    }
    return false;
  }

  method EditExtra(sent: Request, s: Settings)
    requires NoAliases(sent.extra)
    modifies sent`extra, Records(sent.extra)
    ensures Values(sent.extra) == Edited(old(Values(sent.extra)), s)
  {
    if s.noCookie {
      RemoveEDNSCookie(sent);
    }
    if s.withECS.Some? {
      SetDefaultECS(sent, s.withECS.value);
    }
  }

  method Rewrite(sent: Request, rules: seq<Hijack.Rule>)
    modifies sent`question
    ensures sent.question == Forwarded(old(sent.question), rules)
    ensures Values(sent.extra) == old(Values(sent.extra))
  {
    ghost var was := Values(sent.extra);
    var question := sent.question;
    var qs := new Messages.Question[|question|](i requires 0 <= i < |question| => question[i]);
    Hijack.RewriteQuestions(qs, rules, false);
    sent.question := qs[..];
    assert forall i | 0 <= i < |sent.extra| :: ValueOf(sent.extra[i]) == was[i];
  }

  method CopyEdited(req: Request, s: Settings) returns (copy: Request)
    ensures fresh(copy) && copy.question == old(req.question)
    ensures Values(copy.extra) == Edited(old(Values(req.extra)), s)
  {
    copy := req.Copy();
    EditExtra(copy, s);
  }

  /** The start of a group's Handle: null when it refuses the query type. The caller's request is not written to. */
  method Prepare(req: Request, s: Settings) returns (sent: Request?)
    ensures sent == null <==> Disabled(req.question, s.disableQTypes)
    ensures sent != null ==> fresh(sent) && sent.question == Forwarded(old(req.question), s.rules)
    ensures sent != null ==> Values(sent.extra) == Edited(old(Values(req.extra)), s)
  {
    ghost var was := Values(req.extra);
    var disabled := IsDisabled(req.question, s.disableQTypes);
    if disabled {
      return null;
    }
    assert forall i | 0 <= i < |req.extra| :: ValueOf(req.extra[i]) == was[i];
    assert Values(req.extra) == was;
    sent := CopyEdited(req, s);
    Rewrite(sent, s.rules);
  }

  /** What upstreams see: the client's own subnet or the group's, and none of its cookies if the group drops them. */
  lemma PreparedECS(extra: seq<CacheKey.Extra>, s: Settings)
    ensures CacheKey.FindECS(Edited(extra, s))
         == if CacheKey.FindECS(extra).Some? then CacheKey.FindECS(extra) else s.withECS
    ensures s.noCookie ==>
              forall i | 0 <= i < |Edited(extra, s)| && Edited(extra, s)[i].OPT? ::
                CacheKey.Cookie !in Edited(extra, s)[i].options
  {
    NoCookiesKeepsECS(extra);
    if s.withECS.Some? {
      DefaultECS(if s.noCookie then NoCookies(extra) else extra, s.withECS.value);
    }
  }

  /** Option records keep their places, and lose nothing but cookies; anything else in the section is left alone. */
  ghost predicate OnlyCookiesGone(extra: seq<CacheKey.Extra>, edited: seq<CacheKey.Extra>) {
    && |edited| == |extra|
    && forall i | 0 <= i < |extra| ::
         match extra[i]
         case OtherExtra => edited[i] == extra[i]
         case OPT(options) => edited[i].OPT? && CookiesOut(options, edited[i].options)
  }

  ghost predicate CookiesOut(options: seq<CacheKey.Option0>, left: seq<CacheKey.Option0>) {
    Selected(options, left, (o: CacheKey.Option0) => !o.Cookie?)
  }

  lemma {:induction false} WithoutCookiesIs(options: seq<CacheKey.Option0>)
    ensures CookiesOut(options, WithoutCookies(options))
  {
    var keep := (o: CacheKey.Option0) => !o.Cookie?;
    if options == [] {
      NoneSelected(keep);
    } else {
      WithoutCookiesIs(options[1..]);
      SelectInFront(options[0], options[1..], WithoutCookies(options[1..]), keep);
      assert options == [options[0]] + options[1..];
    }
  }

  lemma NoCookiesIs(extra: seq<CacheKey.Extra>)
    ensures OnlyCookiesGone(extra, NoCookies(extra))
  {
    forall i | 0 <= i < |extra| && extra[i].OPT? ensures CookiesOut(extra[i].options, NoCookies(extra)[i].options) {
      WithoutCookiesIs(extra[i].options);
    }
  }

  /** The default subnet stands in front of the first option record, or in a new last one; else nothing differs. */
  ghost predicate DefaultAdded(extra: seq<CacheKey.Extra>, edited: seq<CacheKey.Extra>, ecs: CacheKey.Subnet) {
    if CacheKey.FindECS(extra).Some? then edited == extra
    else if exists i | 0 <= i < |extra| :: extra[i].OPT? then
      exists i: nat | i < |extra| :: extra[i].OPT? && (forall k | 0 <= k < i :: extra[k].OtherExtra?)
                              && edited == extra[i := CacheKey.OPT([CacheKey.ECS(ecs)] + extra[i].options)]
    else edited == extra + [CacheKey.OPT([CacheKey.ECS(ecs)])]
  }

  /** What a group does to the options of its copy: cookies out if it drops them, then its default subnet, if any. */
  lemma EditedIs(extra: seq<CacheKey.Extra>, s: Settings) returns (clean: seq<CacheKey.Extra>)
    ensures if s.noCookie then OnlyCookiesGone(extra, clean) else clean == extra
    ensures match s.withECS
            case None => Edited(extra, s) == clean
            case Some(ecs) => DefaultAdded(clean, Edited(extra, s), ecs)
  {
    NoCookiesIs(extra);
    clean := if s.noCookie then NoCookies(extra) else extra;
    if s.withECS.Some? && FirstOPT(clean) < |clean| {
      var i := FirstOPT(clean);
      assert clean[i].OPT? && forall k | 0 <= k < i :: clean[k].OtherExtra?;
    }
  }
}
