/** The domain trie of matcher/trie.go: a heap of nodes that stands for a map from domains to flags. */
module DomainTrie {
  import opened Options
  import opened Texts

  /** A domain by its leftmost label and the domain above it; Top is above all of them. */
  datatype Domain = Top | Sub(first: string, parent: Domain)

  type Rules = map<Domain, bool>

  function FromLabels(labels: seq<string>): (d: Domain)
    ensures d.Top? <==> labels == []
  {
    if labels == [] then Top else Sub(labels[0], FromLabels(labels[1..]))
  }

  function ToLabels(d: Domain): seq<string> {
    if d.Top? then [] else [d.first] + ToLabels(d.parent)
  }

  lemma {:induction false} FromToLabels(d: Domain)
    ensures FromLabels(ToLabels(d)) == d
  {
    if d.Sub? {
      FromToLabels(d.parent);
      assert ToLabels(d)[1..] == ToLabels(d.parent);
    }
  }

  lemma {:induction false} ToFromLabels(labels: seq<string>)
    ensures ToLabels(FromLabels(labels)) == labels
  {
    if labels != [] {
      ToFromLabels(labels[1..]);
    }
  }

  /** The labels Add and Match work on. */
  function Parts(text: string): (r: seq<string>)
    ensures |r| >= 1
  {
    Split(Trim(text, '.'), '.')
  }

  function DomainOf(text: string): Domain {
    FromLabels(Parts(text))
  }

  /** What a trie can hold: dot-free labels, non-empty at both ends except for the domain of a text of dots only. */
  ghost predicate Storable(d: Domain) {
    var labels := ToLabels(d);
    && labels != []
    && (forall i | 0 <= i < |labels| :: '.' !in labels[i])
    && (d == DOTS || (labels[0] != "" && labels[|labels| - 1] != ""))
  }

  /** What "." and "..." mean: one empty label. */
  const DOTS := Sub("", Top)

  lemma {:induction false} SplitEnds(s: string, sep: char)
    ensures s == "" ==> Split(s, sep) == [""]
    ensures s != "" && s[0] != sep ==> Split(s, sep)[0] != ""
    ensures s != "" && s[|s| - 1] != sep ==> Split(s, sep)[|Split(s, sep)| - 1] != ""
  {
    if s != "" {
      SplitEnds(s[1..], sep);
    }
  }

  lemma DomainOfIsStorable(text: string)
    ensures Storable(DomainOf(text))
  {
    SplitEnds(Trim(text, '.'), '.');
    ToFromLabels(Parts(text));
  }

  ghost predicate AllStorable(rules: Rules) {
    forall d | d in rules :: Storable(d)
  }

  lemma AddKeepsStorable(rules: Rules, text: string, isBlock: bool)
    requires AllStorable(rules)
    ensures AllStorable(AddRule(rules, text, isBlock))
  {
    DomainOfIsStorable(text);
  }

  /** The text Walk reports for d. */
  function TextOf(d: Domain): string {
    Join(ToLabels(d), '.')
  }

  lemma {:induction false} JoinEnds(labels: seq<string>, sep: char)
    requires labels != [] && labels[0] != "" && labels[|labels| - 1] != ""
    ensures Join(labels, sep) != "" && Join(labels, sep)[0] == labels[0][0]
    ensures Join(labels, sep)[|Join(labels, sep)| - 1] == labels[|labels| - 1][|labels[|labels| - 1]| - 1]
  {
    if |labels| > 1 {
      JoinLast(labels, sep);
    }
  }

  lemma {:induction false} JoinLast(labels: seq<string>, sep: char)
    requires labels != [] && labels[|labels| - 1] != ""
    ensures Join(labels, sep) != ""
    ensures Join(labels, sep)[|Join(labels, sep)| - 1] == labels[|labels| - 1][|labels[|labels| - 1]| - 1]
  {
    if |labels| > 1 {
      JoinLast(labels[1..], sep);
    }
  }

  /** A stored domain survives being reported as text and added again; only the domain of dots is reported as "". */
  lemma ReportedReadsBack(d: Domain)
    requires Storable(d)
    ensures TextOf(d) == "" <==> d == DOTS
    ensures d != DOTS ==> DomainOf(TextOf(d)) == d
  {
    var labels := ToLabels(d);
    FromToLabels(d);
    if d != DOTS {
      JoinEnds(labels, '.');
      assert Trim(TextOf(d), '.') == TextOf(d);
      SplitJoin(labels, '.');
    } else {
      assert labels == [""];
    }
  }

  /** The flag of the longest stored suffix of d: of d itself, or else of its nearest ancestor below Top. */
  function Lookup(rules: Rules, d: Domain): Option<bool> {
    if d.Top? then None
    else if d in rules then Some(rules[d])
    else Lookup(rules, d.parent)
  }

  /** d is e or below it. */
  predicate Within(d: Domain, e: Domain) {
    d == e || (d.Sub? && Within(d.parent, e))
  }

  function Depth(d: Domain): nat {
    if d.Top? then 0 else 1 + Depth(d.parent)
  }

  lemma {:induction false} WithinDepth(d: Domain, e: Domain)
    requires Within(d, e)
    ensures Depth(e) <= Depth(d) && (Depth(e) == Depth(d) ==> e == d)
  {
    if d != e {
      WithinDepth(d.parent, e);
    }
  }

  /**
   Lookup answers b exactly when some stored suffix of d has flag b and no longer suffix of d is stored; it answers
   nothing exactly when no suffix of d is stored.
   */
  lemma {:induction false} LookupIsLongestSuffix(rules: Rules, d: Domain, b: bool)
    ensures Lookup(rules, d) == Some(b) <==>
            exists e: Domain :: e.Sub? && Within(d, e) && e in rules && rules[e] == b
                     && forall f: Domain | f.Sub? && Within(d, f) && f in rules :: Depth(f) <= Depth(e)
    ensures Lookup(rules, d) == None <==> forall e: Domain | e.Sub? && Within(d, e) :: e !in rules
  {
    if d.Sub? {
      LookupIsLongestSuffix(rules, d.parent, b);
      if d in rules {
        assert Within(d, d);
        forall f | Within(d, f) ensures Depth(f) <= Depth(d) && (Depth(f) == Depth(d) ==> f == d) {
          WithinDepth(d, f);
        }
      }
    }
  }

  function AddRule(rules: Rules, text: string, isBlock: bool): Rules {
    if text == "" then rules else rules[DomainOf(text) := isBlock]
  }

  /** The rules after a sequence of Adds. */
  function AddAll(rules: Rules, adds: seq<(string, bool)>): Rules {
    if adds == [] then rules
    else AddRule(AddAll(rules, adds[..|adds| - 1]), adds[|adds| - 1].0, adds[|adds| - 1].1)
  }

  lemma AddAllStep(rules: Rules, adds: seq<(string, bool)>, k: nat)
    requires k < |adds|
    ensures AddAll(rules, adds[..k + 1]) == AddRule(AddAll(rules, adds[..k]), adds[k].0, adds[k].1)
  {
    assert adds[..k + 1][..k] == adds[..k];
  }

  /** Last write wins: a domain's flag is that of the last Add that means it. */
  lemma {:induction false} LastAddWins(rules: Rules, adds: seq<(string, bool)>, k: nat)
    requires k < |adds| && adds[k].0 != ""
    requires forall j | k < j < |adds| :: adds[j].0 == "" || DomainOf(adds[j].0) != DomainOf(adds[k].0)
    ensures DomainOf(adds[k].0) in AddAll(rules, adds)
    ensures AddAll(rules, adds)[DomainOf(adds[k].0)] == adds[k].1
  {
    if k < |adds| - 1 {
      LastAddWins(rules, adds[..|adds| - 1], k);
    }
  }

  /** ds is what a walk from p has reported after the children under the labels in done. */
  ghost predicate Covers(ds: seq<Domain>, rules: Rules, p: Domain, done: set<string>) {
    forall d :: d in ds <==> d in rules && Within(d, p) && (d == p || Via(d, p) in done)
  }

  ghost predicate CoversChild(ds: seq<Domain>, rules: Rules, p: Domain, part: string) {
    forall d :: d in ds <==> d in rules && Within(d, p) && d != p && Via(d, p) == part
  }

  lemma CoverMore(
    out: seq<(string, bool)>, ds: seq<Domain>, more: seq<(string, bool)>, below: seq<Domain>, rules: Rules,
    p: Domain, done: set<string>, part: string)
    requires Reports(out, ds, rules) && NoRepeats(ds) && Covers(ds, rules, p, done)
    requires Reports(more, below, rules) && NoRepeats(below) && CoversChild(below, rules, p, part) && part !in done
    ensures Reports(out + more, ds + below, rules) && NoRepeats(ds + below)
    ensures Covers(ds + below, rules, p, done + {part})
  {
    forall i, j | 0 <= i < j < |ds + below| ensures (ds + below)[i] != (ds + below)[j] {
      if i < |ds| <= j {
        assert ds[i] in ds && below[j - |ds|] in below;
      }
    }
  }

  /** The labels of d in the order a walk from the root meets them. */
  function Path(d: Domain): (r: seq<string>)
    ensures |r| == Depth(d)
  {
    if d.Top? then [] else Path(d.parent) + [d.first]
  }

  lemma {:induction false} PathIsReversed(d: Domain)
    ensures |ToLabels(d)| == Depth(d)
    ensures forall i | 0 <= i < Depth(d) :: ToLabels(d)[Depth(d) - 1 - i] == Path(d)[i]
  {
    if d.Sub? {
      PathIsReversed(d.parent);
    }
  }

  /** The child of p that d is or lies below. */
  function Via(d: Domain, p: Domain): string
    requires Within(d, p) && d != p
  {
    if d.parent == p then d.first else Via(d.parent, p)
  }

  lemma {:induction false} WithinChild(d: Domain, p: Domain, l: string)
    ensures Within(d, Sub(l, p)) <==> Within(d, p) && d != p && Via(d, p) == l
  {
    if d.Sub? {
      WithinChild(d.parent, p, l);
      if Within(d.parent, p) {
        WithinDepth(d.parent, p);
      }
    } else {
      assert Within(d, p) ==> d == p;
    }
    if Within(d, Sub(l, p)) {
      WithinDepth(d, Sub(l, p));
    }
  }

  ghost function Subtree(domains: set<Domain>, p: Domain): set<Domain> {
    set d | d in domains && Within(d, p)
  }

  lemma SubtreeShrinks(domains: set<Domain>, p: Domain, l: string)
    requires p in domains
    ensures Subtree(domains, Sub(l, p)) < Subtree(domains, p)
  {
    forall d | d in Subtree(domains, Sub(l, p)) ensures d in Subtree(domains, p) && d != p {
      WithinChild(d, p, l);
    }
    assert p in Subtree(domains, p);
  }

  ghost predicate NoRepeats(ds: seq<Domain>) {
    forall i, j | 0 <= i < j < |ds| :: ds[i] != ds[j]
  }

  /** out lists, for each domain of ds in turn, its text and its flag. */
  ghost predicate Reports(out: seq<(string, bool)>, ds: seq<Domain>, rules: Rules) {
    && |out| == |ds|
    && forall i | 0 <= i < |ds| :: ds[i] in rules && out[i] == (TextOf(ds[i]), rules[ds[i]])
  }

  class TrieNode {
    /** The domain the node stands for. */
    ghost const key: Domain
    var children: map<string, TrieNode>
    var isEnd: bool
    var isBlock: bool

    constructor (ghost key: Domain)
      ensures this.key == key && children == map[] && !isEnd && !isBlock
    {
      this.key := key;
      children := map[];
      isEnd := false;
      isBlock := false;
    }
  }

  ghost predicate Keyed(nodes: map<Domain, TrieNode>) {
    forall p | p in nodes :: nodes[p].key == p
  }

  ghost predicate LinkedUp(nodes: map<Domain, TrieNode>)
    reads nodes.Values
  {
    forall q {:trigger q.parent} | q in nodes && q.Sub? ::
      && q.parent in nodes && q.first in nodes[q.parent].children
      && nodes[q.parent].children[q.first] == nodes[q]
  }

  ghost predicate LinkedDown(nodes: map<Domain, TrieNode>)
    reads nodes.Values
  {
    forall p, l {:trigger Sub(l, p)} | p in nodes && l in nodes[p].children ::
      Sub(l, p) in nodes && nodes[Sub(l, p)] == nodes[p].children[l]
  }

  ghost predicate Flagged(nodes: map<Domain, TrieNode>, rules: Rules)
    reads nodes.Values
  {
    && (forall p | p in rules :: p in nodes && nodes[p].isEnd && rules[p] == nodes[p].isBlock)
    && (forall p | p in nodes && nodes[p].isEnd :: p in rules)
  }

  lemma OneNodeEach(nodes: map<Domain, TrieNode>, d: Domain)
    requires Keyed(nodes) && d in nodes
    ensures forall p | p in nodes && p != d :: nodes[p] != nodes[d]
  {
    assert nodes[d].key == d;
  }

  twostate lemma MarkLinks(nodes: map<Domain, TrieNode>)
    requires old(LinkedUp(nodes)) && old(LinkedDown(nodes))
    requires forall p | p in nodes :: nodes[p].children == old(nodes[p].children)
    ensures LinkedUp(nodes) && LinkedDown(nodes)
  {
  }

  twostate lemma MarkFlags(nodes: map<Domain, TrieNode>, new rules: Rules, new d: Domain, new isBlock: bool)
    requires old(Flagged(nodes, rules)) && d in nodes && nodes[d].isEnd && nodes[d].isBlock == isBlock
    requires forall p | p in nodes && p != d :: nodes[p].isEnd == old(nodes[p].isEnd)
    requires forall p | p in nodes && p != d :: nodes[p].isBlock == old(nodes[p].isBlock)
    ensures Flagged(nodes, rules[d := isBlock])
  {
  }

  /** Nothing but the flags of d's node changed. */
  twostate predicate FlagsSet(nodes: map<Domain, TrieNode>, new d: Domain, new isBlock: bool)
    reads nodes.Values
  {
    && d in nodes && nodes[d].isEnd && nodes[d].isBlock == isBlock && nodes[d].children == old(nodes[d].children)
    && forall p | p in nodes && nodes[p] != nodes[d] :: unchanged(nodes[p])
  }

  twostate lemma MarkKeeps(nodes: map<Domain, TrieNode>, new rules: Rules, new d: Domain, new isBlock: bool)
    requires Keyed(nodes) && old(LinkedUp(nodes)) && old(LinkedDown(nodes)) && old(Flagged(nodes, rules))
    requires FlagsSet(nodes, d, isBlock)
    ensures LinkedUp(nodes) && LinkedDown(nodes) && Flagged(nodes, rules[d := isBlock])
  {
    OneNodeEach(nodes, d);
    MarkLinks(nodes);
    MarkFlags(nodes, rules, d, isBlock);
  }

  twostate lemma AttachFlags(nodes: map<Domain, TrieNode>, new rules: Rules, new d: Domain, new child: TrieNode)
    requires old(Flagged(nodes, rules)) && d !in nodes && !child.isEnd
    requires forall p | p in nodes :: nodes[p].isEnd == old(nodes[p].isEnd)
    requires forall p | p in nodes :: nodes[p].isBlock == old(nodes[p].isBlock)
    ensures Flagged(nodes[d := child], rules)
  {
  }

  twostate lemma AttachUp(nodes: map<Domain, TrieNode>, new above: Domain, new part: string, new child: TrieNode)
    requires old(LinkedUp(nodes))
    requires above in nodes && nodes[above].children == old(nodes[above].children)[part := child]
    requires forall p | p in nodes && p != above :: nodes[p].children == old(nodes[p].children)
    requires part !in old(nodes[above].children) && Sub(part, above) !in nodes
    ensures LinkedUp(nodes[Sub(part, above) := child])
  {
    assert Sub(part, above).parent == above && Sub(part, above).first == part;
  }

  twostate lemma AttachDown(nodes: map<Domain, TrieNode>, new above: Domain, new part: string, new child: TrieNode)
    requires old(LinkedDown(nodes))
    requires above in nodes && nodes[above].children == old(nodes[above].children)[part := child]
    requires forall p | p in nodes && p != above :: nodes[p].children == old(nodes[p].children)
    requires child.children == map[] && Sub(part, above) !in nodes
    ensures LinkedDown(nodes[Sub(part, above) := child])
  {
  }

  /** Nothing but the children of above's node changed, and those got child under part. */
  twostate predicate ChildAdded(nodes: map<Domain, TrieNode>, new above: Domain, new part: string, new child: TrieNode)
    reads nodes.Values
  {
    && above in nodes && nodes[above].children == old(nodes[above].children)[part := child]
    && nodes[above].isEnd == old(nodes[above].isEnd) && nodes[above].isBlock == old(nodes[above].isBlock)
    && forall p | p in nodes && nodes[p] != nodes[above] :: unchanged(nodes[p])
  }

  twostate lemma AttachKeeps(nodes: map<Domain, TrieNode>, new rules: Rules, new above: Domain, new part: string,
                             new child: TrieNode)
    requires Keyed(nodes) && old(LinkedUp(nodes)) && old(LinkedDown(nodes)) && old(Flagged(nodes, rules))
    requires ChildAdded(nodes, above, part, child) && part !in old(nodes[above].children)
    requires child.children == map[] && !child.isEnd
    ensures Sub(part, above) !in nodes
    ensures LinkedUp(nodes[Sub(part, above) := child]) && LinkedDown(nodes[Sub(part, above) := child])
    ensures Flagged(nodes[Sub(part, above) := child], rules)
  {
    assert Sub(part, above).parent == above && Sub(part, above).first == part;
    OneNodeEach(nodes, above);
    AttachUp(nodes, above, part, child);
    AttachDown(nodes, above, part, child);
    AttachFlags(nodes, rules, Sub(part, above), child);
  }

  class Trie {
    const root: TrieNode
    /** The node of every domain that has one; the root is Top's. */
    ghost var nodes: map<Domain, TrieNode>
    /** The rules the flags of the nodes stand for. */
    ghost var rules: Rules

    /**
     The heap is a tree: one node a domain, reached from its parent's node under its label only, and every child of a
     node stands for the node's domain with the child's label in front.
     */
    ghost predicate Valid()
      reads this, nodes.Values
    {
      && Top in nodes && nodes[Top] == root && Top !in rules
      && Keyed(nodes) && LinkedUp(nodes) && LinkedDown(nodes) && Flagged(nodes, rules)
    }

    constructor ()
      ensures Valid() && rules == map[]
      ensures fresh(nodes.Values)
    {
      root := new TrieNode(Top);
      new;
      nodes := map[Top := root];
      rules := map[];
    }

    method Add(text: string, isBlock: bool)
      requires Valid()
      modifies this, nodes.Values
      ensures Valid()
      ensures fresh(nodes.Values - old(nodes.Values))
      ensures rules == AddRule(old(rules), text, isBlock)
    {
      if text == "" {
        return;
      }
      var parts := Parts(text);
      var node := root;
      var i := |parts|;
      while i > 0
        invariant 0 <= i <= |parts|
        invariant Valid()
        invariant FromLabels(parts[i..]) in nodes && nodes[FromLabels(parts[i..])] == node
        invariant fresh(nodes.Values - old(nodes.Values))
        invariant rules == old(rules)
      {
        i := i - 1;
        var part := parts[i];
        ghost var above := FromLabels(parts[i + 1..]);
        assert parts[i..][1..] == parts[i + 1..];
        assert FromLabels(parts[i..]) == Sub(part, above);
        if part !in node.children {
          var child := new TrieNode(Sub(part, above));
          Attach(above, part, node, child);
        }
        ChildNode(above, part);
        node := node.children[part];
      }
      assert parts[0..] == parts;
      Mark(FromLabels(parts), node, isBlock);
    }

    /** A child under a label is the node of the domain with that label in front. */
    lemma ChildNode(above: Domain, part: string)
      requires Valid() && above in nodes && part in nodes[above].children
      ensures Sub(part, above) in nodes && nodes[Sub(part, above)] == nodes[above].children[part]
    {
    }

    /** One Add after the other, in the given order. */
    method AddEach(adds: seq<(string, bool)>)
      requires Valid()
      modifies this, nodes.Values
      ensures Valid()
      ensures rules == AddAll(old(rules), adds)
    {
      var k := 0;
      while k < |adds|
        invariant 0 <= k <= |adds|
        invariant Valid() && fresh(nodes.Values - old(nodes.Values))
        invariant rules == AddAll(old(rules), adds[..k])
      {
        AddAllStep(old(rules), adds, k);
        var (text, isBlock) := adds[k];
        Add(text, isBlock);
        k := k + 1;
      }
      assert adds[..|adds|] == adds;
    }

    /** The node of d is made the end of a rule. */
    method Mark(ghost d: Domain, node: TrieNode, isBlock: bool)
      requires Valid() && d in nodes && nodes[d] == node && d != Top
      modifies `rules, node
      ensures Valid()
      ensures rules == old(rules)[d := isBlock]
    {
      node.isEnd := true;
      node.isBlock := isBlock;
      MarkKeeps(nodes, rules, d, isBlock);
      rules := rules[d := isBlock];
    }

    /** A new node hangs under the node of above. */
    method Attach(ghost above: Domain, part: string, node: TrieNode, child: TrieNode)
      requires Valid() && above in nodes && nodes[above] == node && part !in node.children
      requires child !in nodes.Values && child.key == Sub(part, above) && child.children == map[] && !child.isEnd
      modifies `nodes, node
      ensures Valid()
      ensures nodes == old(nodes)[Sub(part, above) := child]
      ensures node.children == old(node.children)[part := child]
      ensures node.isEnd == old(node.isEnd) && node.isBlock == old(node.isBlock)
    {
      node.children := node.children[part := child];
      AttachKeeps(nodes, rules, above, part, child);
      nodes := nodes[Sub(part, above) := child];
    }

    method Match(text: string) returns (matched: bool, isBlock: bool, ok: bool)
      requires Valid()
      ensures var found := if text == "" then None else Lookup(rules, DomainOf(text));
              matched == ok == found.Some? && isBlock == (found.Some? && found.value)
    {
      if text == "" {
        return false, false, false;
      }
      var parts := Parts(text);
      var i := 0;
      assert parts[0..] == parts;
      while i < |parts|
        invariant 0 <= i <= |parts|
        invariant Lookup(rules, FromLabels(parts)) == Lookup(rules, FromLabels(parts[i..]))
      {
        var node := root;
        var matchFound := true;
        var j := |parts|;
        while j > i
          invariant i <= j <= |parts|
          invariant FromLabels(parts[j..]) in nodes && nodes[FromLabels(parts[j..])] == node && matchFound
        {
          j := j - 1;
          assert parts[j..][1..] == parts[j + 1..];
          assert FromLabels(parts[j..]) == Sub(parts[j], FromLabels(parts[j + 1..]));
          if parts[j] in node.children {
            ChildNode(FromLabels(parts[j + 1..]), parts[j]);
            node := node.children[parts[j]];
          } else {
            assert FromLabels(parts[j..]).parent == FromLabels(parts[j + 1..]);
            matchFound := false;
            break;
          }
        }
        if matchFound && node.isEnd {
          return true, node.isBlock, true;
        }
        if !matchFound {
          Absent(parts, i, j);
        }
        assert parts[i..][1..] == parts[i + 1..];
        i := i + 1;
      }
      return false, false, false;
    }

    /** A domain without a node has none below it. */
    lemma {:induction false} Absent(parts: seq<string>, i: nat, j: nat)
      requires Valid() && i <= j < |parts| && FromLabels(parts[j..]) !in nodes
      ensures FromLabels(parts[i..]) !in nodes
      decreases j - i
    {
      if i < j {
        Absent(parts, i + 1, j);
        assert parts[i..][1..] == parts[i + 1..];
        assert FromLabels(parts[i..]).parent == FromLabels(parts[i + 1..]);
      }
    }

    /**
     Go's append on a slice of length len: it writes into the backing array when there is room, and only else moves to
     a new one, of any capacity that has room.
     */
    method Append(arr: array<string>, len: nat, part: string) returns (arr': array<string>)
      requires len <= arr.Length
      modifies arr
      ensures arr' == arr || fresh(arr')
      ensures len < arr'.Length && arr'[..len + 1] == old(arr[..len]) + [part]
      ensures arr[..len] == old(arr[..len])
    {
      if len < arr.Length {
        arr' := arr;
      } else {
        var more: int := *;
        arr' := new string[len + 1 + if more > 0 then more else 0](_ => "");
        var i := 0;
        while i < len
          invariant 0 <= i <= len
          invariant arr'[..i] == arr[..i]
          invariant arr[..len] == old(arr[..len])
        {
          arr'[i] := arr[i];
          i := i + 1;
        }
      }
      arr'[len] := part;
    }

    /** The slice turned round: the labels of the domain whose path it holds. */
    method Reversed(ghost p: Domain, arr: array<string>, len: nat) returns (r: seq<string>)
      requires len <= arr.Length && arr[..len] == Path(p)
      ensures r == ToLabels(p)
    {
      r := [];
      var i := 0;
      while i < len
        invariant 0 <= i <= len && |r| == i
        invariant forall k | 0 <= k < i :: r[i - 1 - k] == arr[k]
      {
        r := [arr[i]] + r;
        i := i + 1;
      }
      PathIsReversed(p);
      forall k | 0 <= k < len ensures r[k] == ToLabels(p)[k] {
        assert r[len - 1 - (len - 1 - k)] == arr[len - 1 - k] == Path(p)[len - 1 - k];
      }
    }

    /** The call the walk makes for a node itself: its domain's text and flag, if the node ends a domain. */
    method ReportNode(ghost p: Domain, node: TrieNode, arr: array<string>, len: nat)
      returns (out: seq<(string, bool)>, ghost ds: seq<Domain>)
      requires Valid() && p in nodes && nodes[p] == node
      requires len <= arr.Length && arr[..len] == Path(p)
      ensures Reports(out, ds, rules) && NoRepeats(ds) && Covers(ds, rules, p, {})
    {
      out, ds := [], [];
      if node.isEnd {
        var domainParts := Reversed(p, arr, len);
        out := [(Join(domainParts, '.'), node.isBlock)];
        ds := [p];
      }
    }

    lemma AllCovered(ds: seq<Domain>, p: Domain)
      requires Valid() && p in nodes && Covers(ds, rules, p, nodes[p].children.Keys)
      ensures forall d :: d in ds <==> d in rules && Within(d, p)
    {
      forall d | d in rules && Within(d, p) && d != p ensures Via(d, p) in nodes[p].children {
        ViaIsChild(d, p);
      }
    }

    /**
     The calls walkNode makes below the node of p, in the order it makes them; ds names their domains. The slice
     arr[..len] holds p's labels, and siblings overwrite the element behind it.
     */
    method WalkNode(ghost p: Domain, node: TrieNode, arr: array<string>, len: nat)
      returns (out: seq<(string, bool)>, ghost ds: seq<Domain>)
      requires Valid() && p in nodes && nodes[p] == node
      requires len <= arr.Length && arr[..len] == Path(p)
      modifies arr
      ensures arr[..len] == old(arr[..len])
      ensures Reports(out, ds, rules) && NoRepeats(ds)
      ensures forall d :: d in ds <==> d in rules && Within(d, p)
      decreases Subtree(nodes.Keys, p), 1
    {
      out, ds := ReportNode(p, node, arr, len);
      ghost var done: set<string> := {};
      var todo := node.children.Keys;
      while todo != {}
        invariant todo <= node.children.Keys && done == node.children.Keys - todo
        invariant arr[..len] == Path(p) && Valid()
        invariant Reports(out, ds, rules) && NoRepeats(ds)
        invariant Covers(ds, rules, p, done)
        decreases todo
      {
        var part :| part in todo;
        ghost var below: seq<Domain>;
        var more: seq<(string, bool)>;
        more, below := WalkChild(p, node, part, arr, len);
        CoverMore(out, ds, more, below, rules, p, done, part);
        out, ds := out + more, ds + below;
        todo, done := todo - {part}, done + {part};
      }
      AllCovered(ds, p);
    }

    /** The walk goes on to one child, with the child's label appended to the path. */
    method WalkChild(ghost p: Domain, node: TrieNode, part: string, arr: array<string>, len: nat)
      returns (out: seq<(string, bool)>, ghost ds: seq<Domain>)
      requires Valid() && p in nodes && nodes[p] == node && part in node.children
      requires len <= arr.Length && arr[..len] == Path(p)
      modifies arr
      ensures arr[..len] == old(arr[..len])
      ensures Reports(out, ds, rules) && NoRepeats(ds)
      ensures CoversChild(ds, rules, p, part)
      decreases Subtree(nodes.Keys, p), 0
    {
      SubtreeShrinks(nodes.Keys, p, part);
      assert nodes[Sub(part, p)] == node.children[part];
      var arr' := Append(arr, len, part);
      out, ds := WalkNode(Sub(part, p), node.children[part], arr', len + 1);
      assert arr'[..len] == arr'[..len + 1][..len];
      forall d ensures Within(d, Sub(part, p)) <==> Within(d, p) && d != p && Via(d, p) == part {
        WithinChild(d, p, part);
      }
    }

    lemma {:induction false} ViaIsChild(d: Domain, p: Domain)
      requires Valid() && d in nodes && Within(d, p) && d != p
      ensures p in nodes && Via(d, p) in nodes[p].children
      decreases d
    {
      assert d.parent in nodes && d.first in nodes[d.parent].children;
      if d.parent != p {
        ViaIsChild(d.parent, p);
        assert Via(d, p) == Via(d.parent, p);
      }
    }

    /** Every stored domain is reported exactly once, with its own flag, whatever order the children come in. */
    method Walk() returns (out: seq<(string, bool)>, ghost ds: seq<Domain>)
      requires Valid()
      ensures Reports(out, ds, rules) && NoRepeats(ds)
      ensures forall d :: d in ds <==> d in rules
    {
      var arr := new string[0];
      out, ds := WalkNode(Top, root, arr, 0);
      forall d ensures Within(d, Top) {
        AllWithinTop(d);
      }
    }
  }

  lemma {:induction false} AllWithinTop(d: Domain)
    ensures Within(d, Top)
  {
    if d.Sub? {
      AllWithinTop(d.parent);
    }
  }

  /**
   Adding everything a walk of `from` reported gives the right-biased merge of the two rule maps, but for the domain
   of dots, which is reported as the empty text that Add ignores.
   */
  lemma {:induction false} AddReported(rules: Rules, from: Rules, out: seq<(string, bool)>, ds: seq<Domain>, d: Domain)
    requires Reports(out, ds, from) && NoRepeats(ds) && forall e | e in ds :: Storable(e)
    ensures d in AddAll(rules, out) <==> d in rules || (d in ds && d != DOTS)
    ensures d in AddAll(rules, out) ==> AddAll(rules, out)[d] == if d in ds && d != DOTS then from[d] else rules[d]
  {
    if out != [] {
      var k := |out| - 1;
      var last := ds[k];
      assert ds == ds[..k] + [last];
      AddReported(rules, from, out[..k], ds[..k], d);
      ReportedReadsBack(last);
    }
  }

  /** A domain text means its labels, the last one the topmost; dots around it make no difference. */
  lemma DomainOfIs(text: string, labels: seq<string>, a: string, b: string)
    requires labels != [] && labels[0] != "" && labels[|labels| - 1] != ""
    requires forall i | 0 <= i < |labels| :: '.' !in labels[i]
    requires (forall c | c in a :: c == '.') && (forall c | c in b :: c == '.') && text == a + Join(labels, '.') + b
    ensures DomainOf(text) == FromLabels(labels)
  {
    JoinEnds(labels, '.');
    assert labels[0][0] in labels[0] && labels[|labels| - 1][|labels[|labels| - 1]| - 1] in labels[|labels| - 1];
    TrimDots(a, Join(labels, '.'), b);
    SplitJoin(labels, '.');
  }

  lemma {:induction false} LeftDots(a: string, s: string)
    requires (forall c | c in a :: c == '.') && s != "" && s[0] != '.'
    ensures TrimLeft(a + s, '.') == s
  {
    if a == "" {
      assert a + s == s;
    } else {
      assert (a + s)[0] == a[0] && a[0] in a && (a + s)[1..] == a[1..] + s;
      assert forall c | c in a[1..] :: c in a;
      LeftDots(a[1..], s);
    }
  }

  lemma {:induction false} RightDots(s: string, b: string)
    requires (forall c | c in b :: c == '.') && s != "" && s[|s| - 1] != '.'
    ensures TrimRight(s + b, '.') == s
    decreases |b|
  {
    if b == "" {
      assert s + b == s;
    } else {
      var n := |b| - 1;
      assert (s + b)[|s + b| - 1] == b[n] && b[n] in b && (s + b)[..|s + b| - 1] == s + b[..n];
      assert forall c | c in b[..n] :: c in b;
      RightDots(s, b[..n]);
    }
  }

  lemma TrimDots(a: string, s: string, b: string)
    requires (forall c | c in a :: c == '.') && (forall c | c in b :: c == '.')
    requires s != "" && s[0] != '.' && s[|s| - 1] != '.'
    ensures Trim(a + s + b, '.') == s
  {
    assert a + s + b == a + (s + b);
    LeftDots(a, s + b);
    RightDots(s, b);
  }

  /** An empty text is no rule, and any other sets the flag of its domain and of no other. */
  lemma AddRuleIs(rules: Rules, text: string, isBlock: bool, d: Domain)
    ensures text == "" ==> AddRule(rules, text, isBlock) == rules
    ensures text != "" ==> (d in AddRule(rules, text, isBlock) <==> d in rules || d == DomainOf(text))
    ensures text != "" && d in AddRule(rules, text, isBlock) ==>
              AddRule(rules, text, isBlock)[d] == if d == DomainOf(text) then isBlock else rules[d]
  {
  }
}
