/**
 One client query through handle of inbound/handler.go: hosts, cache, groups, redirection, and the cache again. What the
 rules, the upstreams and the redirector say is given by `matches`, `reply` and `redirect`; a reply depends on the group
 and on the request it sends.
 */
module Handler {
  import opened Options
  import opened Messages
  import opened Requests
  import Cache
  import CacheKey
  import Groups
  import Hijack
  import Hosts
  import Shuffle

  datatype Outcome =
    | FormErr
    | Refused
    | FromHosts(records: seq<RRVal>)
    | FromCache(answer: array<RR>)
    | FromGroup(group: string, resp: Option<seq<RR>>)

  /** The request as the cache key sees it. */
  function View(req: Request): CacheKey.Request
    requires req.question != []
    reads req, Records(req.extra)
  {
    CacheKey.Request(req.question[0].name, req.question[0].qtype, Values(req.extra))
  }

  /** What is answered without cache or upstreams. */
  function Early(question: seq<Question>, disabled: set<nat>, hosts: Hosts.HostReader, builds: Hosts.Builds):
    Option<Outcome>
  {
    if question == [] then Some(FormErr)
    else if Disabled(question, disabled) then Some(Refused)
    else
      match hosts.Answer(question[0], builds)
      case Some(records) => Some(FromHosts(records))
      case None => None
  }

  /** A request by value. */
  datatype Query = Query(question: seq<Question>, extra: seq<CacheKey.Extra>)

  function QueryOf(req: Request): Query
    reads req, Records(req.extra)
  {
    Query(req.question, Values(req.extra))
  }

  /** What a group with these settings sends for a client's query. */
  function Sent(q: Query, s: Settings): Query {
    Query(Forwarded(q.question, s.rules), Edited(q.extra, s))
  }

  type Reply = (string, Query) -> Option<seq<RR>>

  /** Which group, if any, a redirector names for a query the given group answered so. */
  type Redirector = (string, Query, Option<seq<RR>>) -> Option<string>

  /** What one group answers: the reply to its own edit of the query. */
  function GroupAnswer(name: string, q: Query, settings: string -> Settings, reply: Reply): Option<seq<RR>> {
    if Disabled(q.question, settings(name).disableQTypes) then None else reply(name, Sent(q, settings(name)))
  }

  /** The chosen group, or the one it redirects to; a redirection without an answer keeps the first answer. */
  function Resolved(t: Groups.Table, q: Query, settings: string -> Settings, matches: Groups.Group -> bool,
                    reply: Reply, redirect: Redirector): Outcome
  {
    var first := Groups.Chosen(t, matches).name;
    var resp := GroupAnswer(first, q, settings, reply);
    match redirect(first, q, resp)
    case None => FromGroup(first, resp)
    case Some(target) =>
      var again := GroupAnswer(target, q, settings, reply);
      FromGroup(target, if again.Some? then again else resp)
  }

  // ------------------------------------------------------------------------------------------------
  // What these come to

  /**
   What is answered early: a query without a question is refused as malformed; else one with a question of a disabled
   type is refused, whatever the hosts say; else the hosts answer if they have records for the first question.
   */
  lemma EarlyIs(question: seq<Question>, disabled: set<nat>, hosts: Hosts.HostReader, builds: Hosts.Builds)
    ensures var r, refused := Early(question, disabled, hosts, builds), exists q | q in question :: q.qtype in disabled;
            && (r == Some(FormErr) <==> question == [])
            && (r == Some(Refused) <==> refused)
            && (forall records :: r == Some(FromHosts(records)) <==>
                  question != [] && !refused && hosts.Answer(question[0], builds) == Some(records))
            && (r == None <==> question != [] && !refused && hosts.Answer(question[0], builds) == None)
  {
    if q :| q in question && q.qtype in disabled {
      assert Disabled(question, disabled);
    }
  }

  /** What group name is asked, and whether it answers at all: it does not, if it disables a type that is asked. */
  ghost predicate Replies(name: string, q: Query, settings: string -> Settings, reply: Reply,
                          records: Option<seq<RR>>)
  {
    var s := settings(name);
    if exists x | x in q.question :: x.qtype in s.disableQTypes then records == None
    else records == reply(name, Query(Forwarded(q.question, s.rules), Edited(q.extra, s)))
  }

  lemma GroupAnswerIs(name: string, q: Query, settings: string -> Settings, reply: Reply)
    ensures Replies(name, q, settings, reply, GroupAnswer(name, q, settings, reply))
  {
    if x :| x in q.question && x.qtype in settings(name).disableQTypes {
      assert Disabled(q.question, settings(name).disableQTypes);
    }
  }

  /**
   Which answer a query gets from the groups. Without a redirection it is that of the group asked first. With one it is
   that of the group redirected to, whatever the first answered; only if that has none, the first answer stays.
   */
  lemma AnswerFromGroups(t: Groups.Table, q: Query, settings: string -> Settings, matches: Groups.Group -> bool,
                         reply: Reply, redirect: Redirector, resp: Option<seq<RR>>, again: Option<seq<RR>>)
    requires var first := Groups.Chosen(t, matches).name;
             && Replies(first, q, settings, reply, resp)
             && match redirect(first, q, resp)
                case None => true
                case Some(target) => Replies(target, q, settings, reply, again)
    ensures var first := Groups.Chosen(t, matches).name;
            match redirect(first, q, resp)
            case None => Resolved(t, q, settings, matches, reply, redirect) == FromGroup(first, resp)
            case Some(target) =>
              && (again.Some? ==> Resolved(t, q, settings, matches, reply, redirect) == FromGroup(target, again))
              && (again.None? ==> Resolved(t, q, settings, matches, reply, redirect) == FromGroup(target, resp))
  {
    var first := Groups.Chosen(t, matches).name;
    GroupAnswerIs(first, q, settings, reply);
    if redirect(first, q, resp).Some? {
      GroupAnswerIs(redirect(first, q, resp).value, q, settings, reply);
    }
  }

  /** What each group is sent: every question rewritten by its own rules, and the options edited as it is set up. */
  lemma SentIs(q: Query, s: Settings)
    ensures |Sent(q, s).question| == |q.question|
    ensures forall i | 0 <= i < |q.question| ::
              Sent(q, s).question[i] == q.question[i].(name := Hijack.Forward(q.question[i].name, s.rules))
    ensures Sent(q, s).extra == Edited(q.extra, s)
  {
  }

  class HandlerImpl {
    const disableQTypes: set<nat>
    const hosts: Hosts.HostReader
    const cache: Cache.DNSCache
    const table: Groups.Table
    const settings: string -> Settings

    constructor (disableQTypes: set<nat>, hosts: Hosts.HostReader, cache: Cache.DNSCache, table: Groups.Table,
                 settings: string -> Settings)
      ensures this.disableQTypes == disableQTypes && this.hosts == hosts && this.cache == cache
      ensures this.table == table && this.settings == settings
    {
      this.disableQTypes, this.hosts, this.cache, this.table := disableQTypes, hosts, cache, table;
      this.settings := settings;
    }

    method AnswerEarly(question: seq<Question>, builds: Hosts.Builds) returns (r: Option<Outcome>)
      ensures r == Early(question, disableQTypes, hosts, builds)
    {
      if |question| == 0 {
        return Some(FormErr);
      }
      var refused := IsDisabled(question, disableQTypes);
      if refused {
        return Some(Refused);
      }
      var records := hosts.Get(question, builds);
      if records.Some? {
        return Some(FromHosts(records.value));
      }
      return None;
    }

    /** A group's Handle works on a copy of the request. */
    method AskGroup(name: string, req: Request, reply: Reply) returns (resp: Option<seq<RR>>)
      ensures resp == GroupAnswer(name, old(QueryOf(req)), settings, reply)
    {
      var sent := Prepare(req, settings(name));
      if sent == null {
        return None;
      }
      return reply(name, Query(sent.question, Values(sent.extra)));
    }

    method Resolve(req: Request, matches: Groups.Group -> bool, reply: Reply,
                   redirect: Redirector) returns (r: Outcome)
      ensures r == Resolved(table, old(QueryOf(req)), settings, matches, reply, redirect)
    {
      var matched := Groups.Choose(table, matches);
      SameQuery(req);
      var resp := AskGroup(matched.name, req, reply);
      SameQuery(req);
      var target := redirect(matched.name, QueryOf(req), resp);
      if target.Some? {
        SameQuery(req);
        var again := AskGroup(target.value, req, reply);
        if again.Some? {
          resp := again;
        }
        return FromGroup(target.value, resp);
      }
      return FromGroup(matched.name, resp);
    }

    /** The cached answer a lookup finds. */
    ghost function Cached(req: Request, now: int): Option<Cache.Entry>
      requires req.question != []
      reads req, Records(req.extra), cache
      reads if Cache.KeyOf(View(req)) in cache.store then cache.store[Cache.KeyOf(View(req))].resp else []
    {
      var e := cache.Lookup(Cache.KeyOf(View(req)));
      if cache.maxSize > 0 && e.Some? && Cache.Hit(e.value, now) then e else None
    }

    /**
     handle, with the clock read once for the cache lookup and once for storing. What is stored goes under the key that
     was looked up, and the caller's request comes back as it was.
     */
    method Handle(req: Request, now: int, later: int, draws: nat -> seq<nat>, admitted: bool,
                  builds: Hosts.Builds, matches: Groups.Group -> bool, reply: Reply, redirect: Redirector)
      returns (r: Outcome)
      requires Shuffle.Drawing(draws)
      modifies req`question, cache`store
      ensures req.question == old(req.question)
      ensures Early(old(req.question), disableQTypes, hosts, builds).Some? ==>
                r == Early(old(req.question), disableQTypes, hosts, builds).value && cache.store == old(cache.store)
      ensures Early(old(req.question), disableQTypes, hosts, builds).None? && old(Cached(req, now)).Some? ==>
                && r.FromCache? && Cache.IsAnswer(Vals(r.answer[..]), old(Cached(req, now)).value, now, draws)
                && cache.store == old(cache.store)
      ensures Early(old(req.question), disableQTypes, hosts, builds).None? && old(Cached(req, now)).None? ==>
                && r == Resolved(table, old(QueryOf(req)), settings, matches, reply, redirect)
                && StoredFor(old(Cache.KeyOf(View(req))), old(cache.store), r.resp, later, admitted)
    {
      ghost var key := if req.question == [] then "" else Cache.KeyOf(View(req));
      ghost var cached := if req.question == [] then None else Cached(req, now);
      ghost var vals := if key in cache.store then Vals(cache.store[key].resp) else [];
      var early := AnswerEarly(req.question, builds);
      if early.Some? {
        return early.value;
      }
      SameView(req);
      if key in cache.store {
        assert forall i | 0 <= i < |vals| :: cache.store[key].resp[i].Val() == vals[i];
        assert Vals(cache.store[key].resp) == vals;
      }
      r := AnswerLate(req, key, cached, now, later, draws, admitted, matches, reply, redirect);
    }

    twostate lemma SameQuery(req: Request)
      requires req.question == old(req.question) && req.extra == old(req.extra)
      requires forall o | o in Records(req.extra) :: o.options == old(o.options)
      ensures QueryOf(req) == old(QueryOf(req))
    {
      ghost var was := old(Values(req.extra));
      assert forall i | 0 <= i < |req.extra| :: ValueOf(req.extra[i]) == was[i];
    }

    twostate lemma SameView(req: Request)
      requires old(req.question) != [] && req.question == old(req.question) && req.extra == old(req.extra)
      requires forall o | o in Records(req.extra) :: o.options == old(o.options)
      ensures View(req) == old(View(req))
    {
      ghost var was := old(Values(req.extra));
      assert forall i | 0 <= i < |req.extra| :: ValueOf(req.extra[i]) == was[i];
    }

    /** The cache, then the groups. */
    method AnswerLate(req: Request, ghost key: string, ghost cached: Option<Cache.Entry>, now: int, later: int,
                      draws: nat -> seq<nat>, admitted: bool, matches: Groups.Group -> bool, reply: Reply,
                      redirect: Redirector) returns (r: Outcome)
      requires Shuffle.Drawing(draws) && req.question != []
      requires key == Cache.KeyOf(View(req)) && cached == Cached(req, now)
      modifies req`question, cache`store
      ensures req.question == old(req.question)
      ensures cached.Some? ==>
                && r.FromCache? && Cache.IsAnswer(Vals(r.answer[..]), cached.value, now, draws)
                && cache.store == old(cache.store)
      ensures cached.None? ==>
                && r == Resolved(table, old(QueryOf(req)), settings, matches, reply, redirect)
                && StoredFor(key, old(cache.store), r.resp, later, admitted)
    {
      var answer := cache.Get(View(req), now, draws);
      if answer.Some? {
        return FromCache(answer.value);
      }
      SameView(req);
      SameQuery(req);
      ghost var missed := cache.store;
      r := AskAndStore(req, later, admitted, matches, reply, redirect);
      StoredAfterMiss(key, old(cache.store), missed, r.resp, later, admitted);
    }

    lemma StoredAfterMiss(key: string, was: map<string, Cache.Item>, missed: map<string, Cache.Item>,
                          resp: Option<seq<RR>>, later: int, admitted: bool)
      requires missed == (if cache.maxSize > 0 then was - {key} else was)
      requires StoredFor(key, missed, resp, later, admitted)
      ensures StoredFor(key, was, resp, later, admitted)
    {
      if key in cache.store {
        assert missed[key := cache.store[key]] == was[key := cache.store[key]];
      }
      assert cache.maxSize > 0 ==> missed - {key} == was - {key};
    }

    /** The question is saved and put back, and the groups work on copies, so Set sees the request Get saw. */
    method AskAndStore(req: Request, later: int, admitted: bool, matches: Groups.Group -> bool,
                       reply: Reply, redirect: Redirector) returns (r: Outcome)
      requires req.question != [] && (cache.maxSize > 0 ==> Cache.KeyOf(View(req)) !in cache.store)
      modifies req`question, cache`store
      ensures req.question == old(req.question)
      ensures r == Resolved(table, old(QueryOf(req)), settings, matches, reply, redirect)
      ensures StoredFor(old(Cache.KeyOf(View(req))), old(cache.store), r.resp, later, admitted)
    {
      ghost var view, was := View(req), Values(req.extra);
      var savedQuestion := req.question;
      r := Resolve(req, matches, reply, redirect);
      req.question := savedQuestion;
      assert forall i | 0 <= i < |req.extra| :: ValueOf(req.extra[i]) == was[i];
      assert Values(req.extra) == was && View(req) == view;
      cache.Set(View(req), r.resp, later, admitted);
    }

    /** The store after a miss: at most the entry under the key is gone, and a response with answers took its place. */
    ghost predicate StoredFor(key: string, was: map<string, Cache.Item>, resp: Option<seq<RR>>, later: int,
                              admitted: bool)
      reads cache, if key in cache.store then cache.store[key].resp else [], if resp.Some? then resp.value else []
    {
      if cache.maxSize > 0 && resp.Some? && resp.value != [] && admitted then
        key in cache.store && cache.store == was[key := cache.store[key]]
        && cache.IsItem(cache.store[key], resp.value, later)
      else cache.store == if cache.maxSize > 0 then was - {key} else was
    }
  }

  /** What the store holds after a miss, without the handler's words. */
  lemma StoredForIs(h: HandlerImpl, key: string, was: map<string, Cache.Item>, resp: Option<seq<RR>>, later: int,
                    admitted: bool)
    requires h.StoredFor(key, was, resp, later, admitted)
    ensures h.cache.maxSize <= 0 ==> h.cache.store == was
    ensures h.cache.maxSize > 0 && (resp.None? || resp.value == [] || !admitted) ==> h.cache.store == was - {key}
    ensures h.cache.maxSize > 0 && resp.Some? && resp.value != [] && admitted ==>
              && key in h.cache.store && h.cache.store - {key} == was - {key}
              && Cache.EntryOf(h.cache.store[key])
                 == Cache.StoredEntry(Vals(resp.value), h.cache.minTTL, h.cache.maxTTL, later)
  {
  }

  /** A query whose entry is still alive is answered from it, and asks no one. */
  method AskAgain(h: HandlerImpl, req: Request, now: int, draws: nat -> seq<nat>, builds: Hosts.Builds,
                  matches: Groups.Group -> bool, reply: Reply, redirect: Redirector, ghost e: Cache.Entry)
    returns (r: Outcome)
    requires Shuffle.Drawing(draws) && req.question != [] && h.Cached(req, now) == Some(e)
    requires Early(req.question, h.disableQTypes, h.hosts, builds).None?
    modifies req`question, h.cache`store
    ensures r.FromCache? && Cache.IsAnswer(Vals(r.answer[..]), e, now, draws)
  {
    r := h.Handle(req, now, now, draws, true, builds, matches, reply, redirect);
  }

  /** A query the groups answer: until the entry made of the answer expires, the same query finds it in the cache. */
  method AskFirst(h: HandlerImpl, req: Request, now: int, later: int, draws: nat -> seq<nat>, builds: Hosts.Builds,
                  matches: Groups.Group -> bool, reply: Reply, redirect: Redirector)
    returns (r: Outcome)
    requires Shuffle.Drawing(draws) && req.question != [] && h.cache.maxSize > 0
    requires Early(req.question, h.disableQTypes, h.hosts, builds).None? && h.Cached(req, now).None?
    requires 0 < h.cache.minTTL <= h.cache.maxTTL && h.cache.minTTL < Cache.TWO_32
    modifies req`question, h.cache`store
    ensures r.FromGroup? && req.question == old(req.question)
    ensures r.resp.Some? && r.resp.value != [] && Cache.Bounded(Vals(r.resp.value)) ==>
              var e := Cache.StoredEntry(Vals(r.resp.value), h.cache.minTTL, h.cache.maxTTL, later);
              forall again | again < e.expiredAt :: h.Cached(req, again) == Some(e)
  {
    ghost var key, was := Cache.KeyOf(View(req)), h.cache.store;
    r := h.Handle(req, now, later, draws, true, builds, matches, reply, redirect);
    h.SameView(req);
    StoredForIs(h, key, was, r.resp, later, true);
    forall again: int { Kept(h, req, key, r.resp, later, again); }
  }

  lemma Kept(h: HandlerImpl, req: Request, key: string, resp: Option<seq<RR>>, later: int, again: int)
    requires req.question != [] && key == Cache.KeyOf(View(req)) && h.cache.maxSize > 0
    requires 0 < h.cache.minTTL <= h.cache.maxTTL && h.cache.minTTL < Cache.TWO_32
    requires resp.Some? && resp.value != [] && Cache.Bounded(Vals(resp.value)) ==>
               && key in h.cache.store
               && Cache.EntryOf(h.cache.store[key])
                  == Cache.StoredEntry(Vals(resp.value), h.cache.minTTL, h.cache.maxTTL, later)
    ensures resp.Some? && resp.value != [] && Cache.Bounded(Vals(resp.value)) ==>
              var e := Cache.StoredEntry(Vals(resp.value), h.cache.minTTL, h.cache.maxTTL, later);
              again < e.expiredAt ==> h.Cached(req, again) == Some(e)
  {
    if resp.Some? && resp.value != [] && Cache.Bounded(Vals(resp.value)) {
      Cache.StoredIsSound(Vals(resp.value), h.cache.minTTL, h.cache.maxTTL, later);
      Cache.HitIffUnexpired(Cache.StoredEntry(Vals(resp.value), h.cache.minTTL, h.cache.maxTTL, later), again);
    }
  }

  /** The cache sees the first question and all options of a request, and the groups see all of it. */
  lemma RequestIsSeen(req: Request)
    requires req.question != []
    ensures View(req).name == req.question[0].name && View(req).qtype == req.question[0].qtype
    ensures View(req).extra == QueryOf(req).extra == Values(req.extra) && QueryOf(req).question == req.question
  {
  }
}
