/** fastestResp of outbound/groups.go: the response it takes, the addresses to ping and what is kept of them. */
module FastestIP {
  import opened HostSelection
  import opened Options
  import opened Messages
  import opened Permutations
  import opened Selections

  const DEFAULT_MAX_GO_NUM := 15

  function MaxGoNum(maxPingIPs: int): (r: nat)
    ensures r > 0
  {
    if maxPingIPs > 0 then maxPingIPs else DEFAULT_MAX_GO_NUM
  }

  /** An address record of the queried type. */
  predicate Asked(rr: RR, qtype: nat) {
    Wanted(qtype) == Some(rr.rrtype)
  }

  /** All different addresses of the queried type, in the order they first appear. */
  function Addresses(answer: seq<RR>, qtype: nat): seq<string> {
    if answer == [] then []
    else
      var front, rr := Addresses(answer[..|answer| - 1], qtype), answer[|answer| - 1];
      if Asked(rr, qtype) && rr.data != "" && rr.data !in front then front + [rr.data] else front
  }

  function Upto<T>(s: seq<T>, max: nat): seq<T> {
    if |s| > max then s[..max] else s
  }

  lemma {:induction false} AddressesAre(answer: seq<RR>, qtype: nat)
    ensures Distinct(Addresses(answer, qtype))
    ensures forall ip :: ip in Addresses(answer, qtype) <==>
              exists k | 0 <= k < |answer| :: Asked(answer[k], qtype) && answer[k].data == ip && ip != ""
  {
    if answer != [] {
      var n := |answer| - 1;
      AddressesAre(answer[..n], qtype);
      assert forall k | 0 <= k < n :: answer[..n][k] == answer[k];
      forall ip ensures ip in Addresses(answer, qtype) <==>
                          exists k | 0 <= k < |answer| :: Asked(answer[k], qtype) && answer[k].data == ip && ip != "" {
        assert ip in Addresses(answer, qtype) <==>
               ip in Addresses(answer[..n], qtype) || (Asked(answer[n], qtype) && answer[n].data == ip && ip != "");
      }
    }
  }

  lemma {:induction false} AddressesGrow(answer: seq<RR>, qtype: nat, k: nat)
    requires k <= |answer|
    ensures Addresses(answer[..k], qtype) <= Addresses(answer, qtype)
  {
    if k == |answer| {
      assert answer[..k] == answer;
    } else {
      var front := answer[..|answer| - 1];
      AddressesGrow(front, qtype, k);
      assert front[..k] == answer[..k];
    }
  }

  method Collect(answer: seq<RR>, qtype: nat, max: nat) returns (allIP: seq<string>)
    requires max > 0
    ensures allIP == Upto(Addresses(answer, qtype), max)
  {
    allIP := [];
    var seen: set<string> := {};
    var i := 0;
    while i < |answer|
      invariant 0 <= i <= |answer| && |allIP| < max
      invariant allIP == Addresses(answer[..i], qtype)
      invariant forall ip :: ip in seen <==> ip in allIP
    {
      var rr := answer[i];
      var ip := if Asked(rr, qtype) then rr.data else "";
      assert answer[..i + 1][..i] == answer[..i];
      i := i + 1;
      if ip != "" {
        if ip in seen {
          continue;
        }
        seen := seen + {ip};
        allIP := allIP + [ip];
        if |allIP| >= max {
          AddressesGrow(answer, qtype, i);
          return;
        }
      }
    }
    assert answer[..|answer|] == answer;
  }

  predicate Keeps(rr: RR, qtype: nat, ip: string) {
    Asked(rr, qtype) ==> rr.data == ip
  }

  /** The answers in order without the queried-type addresses other than ip. */
  function Kept(answer: seq<RR>, qtype: nat, ip: string): seq<RR> {
    if answer == [] then []
    else (if Keeps(answer[0], qtype, ip) then [answer[0]] else []) + Kept(answer[1..], qtype, ip)
  }

  /** The deletion loop, which shortens the slice under its own index. */
  method Delete(msg: Msg, qtype: nat, fastestIP: string)
    modifies msg`answer
    ensures msg.answer == Kept(old(msg.answer), qtype, fastestIP)
  {
    var i := 0;
    assert msg.answer[0..] == msg.answer;
    while i < |msg.answer|
      invariant 0 <= i <= |msg.answer|
      invariant msg.answer[..i] + Kept(msg.answer[i..], qtype, fastestIP) == Kept(old(msg.answer), qtype, fastestIP)
      decreases |msg.answer| - i
    {
      ghost var done, rest := msg.answer[..i], msg.answer[i + 1..];
      assert msg.answer[i..][1..] == rest;
      if Asked(msg.answer[i], qtype) && msg.answer[i].data != fastestIP {
        msg.answer := msg.answer[..i] + msg.answer[i + 1..];
        assert msg.answer[..i] == done && msg.answer[i..] == rest;
      } else {
        i := i + 1;
        assert msg.answer[..i] == done + [msg.answer[i - 1]];
      }
    }
  }

  /** FastestPingIP: one of the addresses it was given, or an error. */
  ghost predicate IsPing(ping: seq<string> -> Option<string>) {
    forall ips: seq<string> :: ping(ips).Some? ==> ping(ips).value in ips
  }

  /** What remains of the answer; `late` when the deadline passed before the ping could start. */
  function Remaining(answer: seq<RR>, qtype: nat, max: nat, late: bool, ping: seq<string> -> Option<string>): seq<RR> {
    var allIP := Upto(Addresses(answer, qtype), max);
    if |allIP| <= 1 || late || ping(allIP).None? then answer else Kept(answer, qtype, ping(allIP).value)
  }

  method Thin(msg: Msg, qtype: nat, maxPingIPs: int, late: bool, ping: seq<string> -> Option<string>)
    modifies msg`answer
    ensures msg.answer == Remaining(old(msg.answer), qtype, MaxGoNum(maxPingIPs), late, ping)
  {
    var allIP := Collect(msg.answer, qtype, MaxGoNum(maxPingIPs));
    if |allIP| == 0 {
      return;
    }
    if |allIP| == 1 {
      return;
    }
    if late {
      return;
    }
    var fastestIP := ping(allIP);
    if fastestIP.None? {
      return;
    }
    Delete(msg, qtype, fastestIP.value);
  }

  /** What a caller's attempt sends; the channel carries None for an attempt that failed. */
  datatype CallerResult = CallerResult(msg: Msg?, caller: int)

  predicate Usable(r: Option<CallerResult>) {
    r.Some? && r.value.msg != null
  }

  /** The first usable result that arrives before the query is cancelled, after `cut` of them. */
  function Taken(results: seq<Option<CallerResult>>, cut: nat): Option<CallerResult> {
    if results == [] || cut == 0 then None
    else if Usable(results[0]) then results[0]
    else Taken(results[1..], cut - 1)
  }

  method Receive(results: seq<Option<CallerResult>>, cut: nat) returns (r: Option<CallerResult>)
    ensures r == Taken(results, cut) && (r.Some? ==> Usable(r) && r in results)
  {
    var i := 0;
    assert results[0..] == results;
    while i < |results|
      invariant 0 <= i <= |results| && i <= cut
      invariant Taken(results, cut) == Taken(results[i..], cut - i)
    {
      if i == cut {
        return None;
      }
      assert results[i..][1..] == results[i + 1..];
      if Usable(results[i]) {
        return results[i];
      }
      i := i + 1;
    }
    return None;
  }

  /**
   Results in the order they arrive. One response is returned, thinned to one address if a ping found one, and its
   caller's success is recorded once, whichever way it returns; without a response nothing is recorded or changed.
   */
  method FastestResp(group: HostTable, host: string, qtype: nat, results: seq<Option<CallerResult>>, cut: nat,
                     maxPingIPs: int, late: bool, ping: seq<string> -> Option<string>, now: Time, used: Time)
    returns (r: Msg?)
    modifies group`hostStats, set x | x in results && Usable(x) :: x.value.msg
    ensures var cr := Taken(results, cut);
            && r == (if cr.Some? then cr.value.msg else null)
            && group.hostStats == if cr.Some? && 0 <= cr.value.caller < group.callers
                                  then Recorded(group.callers, old(group.hostStats), host, cr.value.caller, now, used)
                                  else old(group.hostStats)
    ensures forall x | x in results && Usable(x) ::
              var msg, was := x.value.msg, old(x.value.msg.answer);
              msg.answer == if msg == r then Remaining(was, qtype, MaxGoNum(maxPingIPs), late, ping) else was
  {
    var cr := Receive(results, cut);
    if cr.None? {
      return null;
    }
    group.RecordCallerSuccess(host, cr.value.caller, now, used);
    r := cr.value.msg;
    Thin(r, qtype, maxPingIPs, late, ping);
  }

  /** The table after one success of caller w. */
  function Recorded(n: nat, table: Table, host: string, w: int, now: Time, used: Time): Table {
    Step(n, true, Model(table, 0), Success(host, w, now, used)).table
  }

  // ------------------------------------------------------------------------------------------------
  // What a client can rely on

  lemma {:induction false} KeptIs(answer: seq<RR>, qtype: nat, ip: string)
    ensures Selected(answer, Kept(answer, qtype, ip), (rr: RR) => Keeps(rr, qtype, ip))
  {
    var keep := (rr: RR) => Keeps(rr, qtype, ip);
    if answer == [] {
      NoneSelected(keep);
    } else {
      KeptIs(answer[1..], qtype, ip);
      SelectInFront(answer[0], answer[1..], Kept(answer[1..], qtype, ip), keep);
      assert answer == [answer[0]] + answer[1..];
    }
  }

  /**
   The ping is given the different addresses asked for, up to the limit, if there are two or more. When it finds one in
   time, of those addresses only that one stays, and every other record; all in order. Else the answer is as it was.
   */
  lemma RemainingIs(answer: seq<RR>, qtype: nat, max: nat, late: bool, ping: seq<string> -> Option<string>)
    requires max > 0
    ensures var all := Addresses(answer, qtype);
            var pinged := if |all| > max then all[..max] else all;
            var r := Remaining(answer, qtype, max, late, ping);
            if |pinged| < 2 || late || ping(pinged).None? then r == answer
            else Selected(answer, r, (rr: RR) => Wanted(qtype) == Some(rr.rrtype) ==> rr.data == ping(pinged).value)
  {
    var pinged := Upto(Addresses(answer, qtype), max);
    if !(|pinged| < 2 || late || ping(pinged).None?) {
      var ip := ping(pinged).value;
      KeptIs(answer, qtype, ip);
      var pos :| Selects(answer, Kept(answer, qtype, ip), (rr: RR) => Keeps(rr, qtype, ip), pos);
      var keep := (rr: RR) => Wanted(qtype) == Some(rr.rrtype) ==> rr.data == ip;
      assert Selects(answer, Kept(answer, qtype, ip), keep, pos);
    }
  }

  /** If there was an address of the queried type, one is left. */
  lemma AddressRemains(answer: seq<RR>, qtype: nat, max: nat, late: bool, ping: seq<string> -> Option<string>)
    requires IsPing(ping) && max > 0 && exists k | 0 <= k < |answer| :: Asked(answer[k], qtype)
    ensures var r := Remaining(answer, qtype, max, late, ping); exists k | 0 <= k < |r| :: Asked(r[k], qtype)
  {
    var allIP := Upto(Addresses(answer, qtype), max);
    if !(|allIP| <= 1 || late || ping(allIP).None?) {
      var ip := ping(allIP).value;
      AddressesAre(answer, qtype);
      assert ip in allIP && ip in Addresses(answer, qtype);
      var k :| 0 <= k < |answer| && Asked(answer[k], qtype) && answer[k].data == ip;
      KeptIs(answer, qtype, ip);
      SelectedHas(answer, Kept(answer, qtype, ip), (rr: RR) => Keeps(rr, qtype, ip));
      assert answer[k] in answer && Keeps(answer[k], qtype, ip);
      var r := Remaining(answer, qtype, max, late, ping);
      assert answer[k] in r;
      var i :| 0 <= i < |r| && r[i] == answer[k];
      assert Asked(r[i], qtype);
    } else {
      var k :| 0 <= k < |answer| && Asked(answer[k], qtype);
      assert Asked(Remaining(answer, qtype, max, late, ping)[k], qtype);
    }
  }

  /** The configured limit if it is positive, else 15. */
  lemma LimitIs(maxPingIPs: int)
    ensures MaxGoNum(maxPingIPs) == if maxPingIPs > 0 then maxPingIPs else 15
  {
  }

  /** Addresses come in the order they first appear in the answer. */
  lemma {:induction false} AddressesInOrder(answer: seq<RR>, qtype: nat, k: nat)
    requires k < |answer| && Asked(answer[k], qtype) && answer[k].data != ""
    requires forall j | 0 <= j < k && Asked(answer[j], qtype) :: answer[j].data != answer[k].data
    ensures var before := Addresses(answer[..k], qtype);
            before + [answer[k].data] <= Addresses(answer, qtype)
            && forall ip :: ip in before <==>
                 ip != "" && exists j | 0 <= j < k :: Asked(answer[j], qtype) && answer[j].data == ip
  {
    AddressesGrow(answer, qtype, k + 1);
    AddressesAre(answer[..k], qtype);
    assert answer[..k + 1][..k] == answer[..k];
    assert forall j | 0 <= j < k :: answer[..k][j] == answer[j];
  }

  /** The result taken is the first usable one, if it comes before the cancellation. */
  lemma {:induction false} TakenIs(results: seq<Option<CallerResult>>, cut: nat)
    ensures forall k: nat | k < |results| && k < cut && Usable(results[k])
                            && (forall j | 0 <= j < k :: !Usable(results[j])) ::
              Taken(results, cut) == results[k]
    ensures (forall k: nat | k < |results| && k < cut :: !Usable(results[k])) ==> Taken(results, cut) == None
  {
    if results != [] && cut > 0 && !Usable(results[0]) {
      TakenIs(results[1..], cut - 1);
      forall k: nat | k < |results| && k < cut && Usable(results[k]) && (forall j | 0 <= j < k :: !Usable(results[j]))
        ensures Taken(results, cut) == results[k]
      {
        assert results[1..][k - 1] == results[k];
        assert forall j | 0 <= j < k - 1 :: results[1..][j] == results[j + 1];
      }
      if forall k: nat | k < |results| && k < cut :: !Usable(results[k]) {
        assert forall k: nat | k < |results[1..]| && k < cut - 1 :: results[1..][k] == results[k + 1];
      }
    }
  }
}
