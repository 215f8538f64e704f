/** Rule groups: which configurations are accepted (outbound/groups.go), their order, and which one answers a query. */
module Groups {
  import opened Options
  import opened Permutations
  import opened Sorting

  /**
   One group of the configuration; `sound` when its other settings are: durations, query types, rule and list files,
   subnet, callers.
   */
  datatype Conf = Conf(name: string, emptyRule: bool, fallback: bool, gfwList: bool, sound: bool)

  datatype Group = Group(name: string, fallback: bool, gfwList: bool)

  function GroupOf(c: Conf): Group {
    Group(c.name, c.fallback || c.emptyRule, c.gfwList)
  }

  function GroupsOf(confs: seq<Conf>): (r: seq<Group>)
    ensures |r| == |confs| && forall i | 0 <= i < |confs| :: r[i] == GroupOf(confs[i])
  {
    seq(|confs|, i requires 0 <= i < |confs| => GroupOf(confs[i]))
  }

  ghost predicate OneFallback(gs: seq<Group>) {
    forall i, j | 0 <= i < j < |gs| :: !(gs[i].fallback && gs[j].fallback)
  }

  ghost predicate OneGFWList(gs: seq<Group>) {
    forall i, j | 0 <= i < j < |gs| :: !(gs[i].gfwList && gs[j].gfwList)
  }

  predicate AllSound(confs: seq<Conf>) {
    forall i | 0 <= i < |confs| :: confs[i].sound
  }

  /** BuildGroups: the map is walked in some order. */
  method BuildGroups(confs: seq<Conf>) returns (r: Option<seq<Group>>)
    ensures var gs := GroupsOf(confs);
            r == if OneFallback(gs) && OneGFWList(gs) && AllSound(confs) then Some(gs) else None
  {
    var seenGFWList, seenFallback := false, false;
    var groups: seq<Group> := [];
    ghost var all := GroupsOf(confs);
    var i := 0;
    while i < |confs|
      invariant 0 <= i <= |confs| && groups == all[..i]
      invariant OneFallback(groups) && OneGFWList(groups) && forall k | 0 <= k < i :: confs[k].sound
      invariant seenFallback <==> exists k | 0 <= k < i :: all[k].fallback
      invariant seenGFWList <==> exists k | 0 <= k < i :: all[k].gfwList
    {
      var c := confs[i];
      var fallback := if c.emptyRule then true else c.fallback;
      if fallback && seenFallback {
        return None;
      }
      if c.gfwList && seenGFWList {
        return None;
      }
      if fallback {
        seenFallback := true;
      }
      if c.gfwList {
        seenGFWList := true;
      }
      if !c.sound {
        return None;
      }
      groups := groups + [Group(c.name, fallback, c.gfwList)];
      i := i + 1;
    }
    assert all[..|confs|] == all;
    return Some(groups);
  }

  /** The order of the table: ordinary groups, the one with the GFW list, the fallback; then by name. */
  predicate Less(g: Group, h: Group) {
    if g.fallback != h.fallback then !g.fallback
    else if g.gfwList != h.gfwList then !g.gfwList
    else LessText(g.name, h.name)
  }

  lemma LessIsOrder()
    ensures StrictWeak(Less)
  {
    forall g: Group ensures !Less(g, g) {
      LessTextTotal(g.name, g.name);
    }
    forall g: Group, h: Group, k: Group ensures Less(g, h) && Less(h, k) ==> Less(g, k) {
      if LessText(g.name, h.name) && LessText(h.name, k.name) {
        LessTextTransitive(g.name, h.name, k.name);
      }
    }
    forall g: Group, h: Group, k: Group ensures !Less(g, h) && !Less(h, k) ==> !Less(g, k) {
      LessTextTotal(g.name, h.name);
      LessTextTotal(h.name, k.name);
      LessTextTotal(g.name, k.name);
      if LessText(k.name, h.name) && LessText(h.name, g.name) {
        LessTextTransitive(k.name, h.name, g.name);
      }
    }
  }

  ghost predicate DistinctNames(gs: seq<Group>) {
    forall i, j | 0 <= i < j < |gs| :: gs[i].name != gs[j].name
  }

  /** What newHandle keeps of the groups: the sorted table, and the fallback. */
  datatype Table = Table(groupList: seq<Group>, fallbackGroup: Group)

  ghost predicate IsTable(t: Table, gs: seq<Group>) {
    && Sorted(t.groupList, Less) && multiset(t.groupList) == multiset(gs)
    && t.fallbackGroup in gs && t.fallbackGroup.fallback
  }

  /** None when no group is the fallback. */
  method NewTable(gs: seq<Group>) returns (r: Option<Table>)
    ensures r.Some? <==> exists g | g in gs :: g.fallback
    ensures r.Some? ==> IsTable(r.value, gs)
  {
    var fallback: Option<Group> := None;
    var list: seq<Group> := [];
    var i := 0;
    while i < |gs|
      invariant 0 <= i <= |gs| && list == gs[..i]
      invariant fallback.Some? <==> exists g | g in gs[..i] :: g.fallback
      invariant fallback.Some? ==> fallback.value in gs && fallback.value.fallback
    {
      assert gs[..i + 1] == gs[..i] + [gs[i]];
      if gs[i].fallback {
        fallback := Some(gs[i]);
      }
      list := list + [gs[i]];
      i := i + 1;
    }
    assert gs[..|gs|] == gs;
    LessIsOrder();
    var groupList := SortSlice(list, Less);
    if fallback.None? {
      return None;
    }
    return Some(Table(groupList, fallback.value));
  }

  lemma NamesSeparate(gs: seq<Group>)
    requires DistinctNames(gs)
    ensures Separates(gs, Less)
  {
    forall g: Group, h: Group | g in gs && h in gs ensures g == h || Less(g, h) || Less(h, g) {
      LessTextTotal(g.name, h.name);
    }
  }

  /** However the map of groups is walked, newHandle arrives at the same table and the same fallback. */
  lemma TableUnique(t: Table, gs: seq<Group>, u: Table, hs: seq<Group>)
    requires IsTable(t, gs) && IsTable(u, hs) && multiset(gs) == multiset(hs) && DistinctNames(gs) && OneFallback(gs)
    ensures t == u
  {
    LessIsOrder();
    NamesSeparate(gs);
    SameMembers(gs, t.groupList);
    SortedUnique(t.groupList, u.groupList, Less);
    SameMembers(gs, hs);
  }

  /** The group handle asks: the first of the table that matches, else the fallback. */
  function FirstOf(gs: seq<Group>, matches: Group -> bool): Option<Group> {
    if gs == [] then None else if matches(gs[0]) then Some(gs[0]) else FirstOf(gs[1..], matches)
  }

  function Chosen(t: Table, matches: Group -> bool): Group {
    match FirstOf(t.groupList, matches)
    case Some(g) => g
    case None => t.fallbackGroup
  }

  method Choose(t: Table, matches: Group -> bool) returns (g: Group)
    ensures g == Chosen(t, matches)
  {
    var i := 0;
    assert t.groupList[0..] == t.groupList;
    while i < |t.groupList|
      invariant 0 <= i <= |t.groupList|
      invariant FirstOf(t.groupList, matches) == FirstOf(t.groupList[i..], matches)
    {
      assert t.groupList[i..][1..] == t.groupList[i + 1..];
      if matches(t.groupList[i]) {
        return t.groupList[i];
      }
      i := i + 1;
    }
    return t.fallbackGroup;
  }

  lemma {:induction false} FirstIsBest(gs: seq<Group>, matches: Group -> bool)
    requires Sorted(gs, Less)
    ensures FirstOf(gs, matches).None? <==> forall g | g in gs :: !matches(g)
    ensures FirstOf(gs, matches).Some? ==>
              var g := FirstOf(gs, matches).value;
              g in gs && matches(g) && forall h | h in gs && matches(h) :: !Less(h, g)
  {
    if gs != [] {
      FirstIsBest(gs[1..], matches);
      assert forall g | g in gs :: g == gs[0] || g in gs[1..];
      LessIsOrder();
    }
  }

  /**
   The group asked is the one matching group that comes before every other in the order, or the one fallback when none
   matches: it depends on the groups alone.
   */
  lemma ChosenIsLeast(t: Table, gs: seq<Group>, matches: Group -> bool, g: Group)
    requires IsTable(t, gs) && DistinctNames(gs) && OneFallback(gs)
    ensures g == Chosen(t, matches) <==>
              if exists h | h in gs :: matches(h)
              then g in gs && matches(g) && forall h | h in gs && matches(h) && h != g :: Less(g, h)
              else g in gs && g.fallback
  {
    FirstIsBest(t.groupList, matches);
    NamesSeparate(gs);
    SameMembers(gs, t.groupList);
    SameMembers(t.groupList, gs);
    LessIsOrder();
  }

  /** The table as a reader of the configuration sees it: ordinary groups by name, the list group, the fallback. */
  lemma TableOrder(t: Table, gs: seq<Group>, i: nat, j: nat)
    requires IsTable(t, gs) && i < j < |t.groupList|
    ensures var g, h := t.groupList[i], t.groupList[j];
            && (g.fallback ==> h.fallback)
            && (g.fallback == h.fallback && g.gfwList ==> h.gfwList)
            && (g.fallback == h.fallback && g.gfwList == h.gfwList ==> g.name == h.name || LessText(g.name, h.name))
  {
    LessTextTotal(t.groupList[i].name, t.groupList[j].name);
  }

  /** Group g is asked before h when both match. */
  predicate Precedes(g: Group, h: Group) {
    || (!g.fallback && h.fallback)
    || (g.fallback == h.fallback && !g.gfwList && h.gfwList)
    || (g.fallback == h.fallback && g.gfwList == h.gfwList && LessText(g.name, h.name))
  }

  /** Who is asked, in these terms. */
  lemma WhoIsAsked(t: Table, gs: seq<Group>, matches: Group -> bool, g: Group)
    requires IsTable(t, gs) && DistinctNames(gs) && OneFallback(gs)
    ensures g == Chosen(t, matches) <==>
              if exists h | h in gs :: matches(h)
              then g in gs && matches(g) && forall h | h in gs && matches(h) && h != g :: Precedes(g, h)
              else g in gs && g.fallback
  {
    ChosenIsLeast(t, gs, matches, g);
    assert forall h: Group :: Less(g, h) <==> Precedes(g, h);
  }

  /**
   A configuration is accepted if and only if at most one group is the fallback, by its flag or for having no rules, at
   most one has the GFW list, and all other settings are sound; the groups are then those configured.
   */
  lemma AcceptedIff(confs: seq<Conf>)
    ensures var gs := GroupsOf(confs);
            OneFallback(gs) && OneGFWList(gs) && AllSound(confs) <==>
              && (forall i, j | 0 <= i < j < |confs| ::
                    !((confs[i].fallback || confs[i].emptyRule) && (confs[j].fallback || confs[j].emptyRule)))
              && (forall i, j | 0 <= i < j < |confs| :: !(confs[i].gfwList && confs[j].gfwList))
              && forall i | 0 <= i < |confs| :: confs[i].sound
    ensures forall i | 0 <= i < |confs| ::
              GroupsOf(confs)[i] == Group(confs[i].name, confs[i].fallback || confs[i].emptyRule, confs[i].gfwList)
  {
  }
}
