/** The path-compressed tree of the router: insertion, which rewrites nodes in place, and lookup. */
module Radix {
  import opened Wrappers
  import opened Text
  import opened Tokens
  import opened Pieces
  import opened Patterns
  import opened Tables
  import opened Searching

  /** Children that can be siblings under one node, apart from their tables. */
  ghost predicate Siblings(K: Kids) {
    && (forall t: nat, i: nat :: Slot(K, t, i) ==> K[t][i].typ == t && KidOk(K[t][i]))
    && HeadsDiffer(K) && StaticsSorted(K) && SlashLast(K)
  }

  ghost predicate NoDup(s: seq<Node>) {
    forall i, j :: 0 <= i < j < |s| ==> s[i] != s[j]
  }

  /** A permutation of a sequence without duplicates has none. */
  lemma PermutedNoDup(a: seq<Node>, b: seq<Node>)
    requires multiset(a) == multiset(b) && NoDup(a)
    ensures NoDup(b)
  {
    forall x
      ensures multiset(a)[x] <= 1
    {
      OnceIn(a, x);
    }
    forall i, j | 0 <= i < j < |b|
      ensures b[i] != b[j]
    {
      assert b == b[..j] + b[j..];
      assert multiset(b) == multiset(b[..j]) + multiset(b[j..]);
      assert b[i] in b[..j] && b[j] in b[j..];
      assert multiset(b)[b[i]] <= 1;
    }
  }

  lemma {:induction false} OnceIn(a: seq<Node>, x: Node)
    requires NoDup(a)
    ensures multiset(a)[x] <= 1
  {
    if a != [] {
      var n := |a| - 1;
      assert a == a[..n] + [a[n]];
      OnceIn(a[..n], x);
      if a[n] == x {
        assert x !in a[..n];
      }
    }
  }

  lemma SameElements(a: seq<Node>, b: seq<Node>)
    requires multiset(a) == multiset(b)
    ensures forall x :: x in a <==> x in b
  {
    assert forall x :: x in a <==> x in multiset(a);
    assert forall x :: x in b <==> x in multiset(b);
  }

  ghost function Infos(ns: seq<Node>): (ks: seq<Kid>)
    reads ns
    ensures |ks| == |ns| && forall i :: 0 <= i < |ns| ==> ks[i] == ns[i].info
  {
    seq(|ns|, i requires 0 <= i < |ns| reads ns => ns[i].info)
  }

  /** Sorts nodes by label. Nothing is promised about the order of nodes with the same label. */
  method SortNodes(ns: seq<Node>) returns (r: seq<Node>)
    ensures multiset(r) == multiset(ns)
    ensures Ascending(r)
  {
    r := [];
    var n := 0;
    while n < |ns|
      invariant 0 <= n <= |ns|
      invariant multiset(r) == multiset(ns[..n])
      invariant Ascending(r)
    {
      var p := |r|;
      while p > 0 && ns[n].lead < r[p - 1].lead
        invariant 0 <= p <= |r| && Ascending(r)
        invariant forall i :: p <= i < |r| ==> ns[n].lead < r[i].lead
      {
        p := p - 1;
      }
      InsertSorted(r, ns[n], p);
      assert ns[..n + 1] == ns[..n] + [ns[n]];
      r := r[..p] + [ns[n]] + r[p..];
      n := n + 1;
    }
    assert ns[..n] == ns;
  }

  predicate Ascending(r: seq<Node>)
    reads r
  {
    forall i, j :: 0 <= i < j < |r| ==> r[i].lead <= r[j].lead
  }

  lemma InsertSorted(r: seq<Node>, x: Node, p: nat)
    requires Ascending(r) && p <= |r|
    requires forall i :: p <= i < |r| ==> x.lead < r[i].lead
    requires p > 0 ==> r[p - 1].lead <= x.lead
    ensures Ascending(r[..p] + [x] + r[p..])
    ensures multiset(r[..p] + [x] + r[p..]) == multiset(r) + multiset{x}
  {
    assert r == r[..p] + r[p..];
    InsertAscending(r, x, p);
  }

  lemma InsertAscending(r: seq<Node>, x: Node, p: nat)
    requires Ascending(r) && p <= |r|
    requires forall i :: p <= i < |r| ==> x.lead < r[i].lead
    requires p > 0 ==> r[p - 1].lead <= x.lead
    ensures Ascending(r[..p] + [x] + r[p..])
  {
    var r' := r[..p] + [x] + r[p..];
    forall i, j | 0 <= i < j < |r'|
      ensures r'[i].lead <= r'[j].lead
    {
      assert r'[i] == if i < p then r[i] else if i == p then x else r[i - 1];
      assert r'[j] == if j < p then r[j] else if j == p then x else r[j - 1];
    }
  }

  predicate SlashTail(n: Node)
    reads n
  {
    n.typ > NT_STATIC && n.tail == '/'
  }

  /** The last node of the list that is delimited by '/'. */
  predicate LastSlashTail(ns: seq<Node>, i: nat)
    reads ns
  {
    i < |ns| && SlashTail(ns[i]) && forall j :: i < j < |ns| ==> !SlashTail(ns[j])
  }

  /** The last parameter delimited by '/' changes places with the last node of the list. */
  method TailSort(ns: seq<Node>) returns (r: seq<Node>)
    ensures multiset(r) == multiset(ns)
    ensures (forall i :: 0 <= i < |ns| ==> !SlashTail(ns[i])) ==> r == ns
    ensures (exists i :: 0 <= i < |ns| && SlashTail(ns[i])) ==> r != [] && SlashTail(r[|r| - 1])
    ensures forall i: nat :: LastSlashTail(ns, i) ==> r == ns[i := ns[|ns| - 1]][|ns| - 1 := ns[i]]
  {
    r := ns;
    var i := |ns| - 1;
    while i >= 0
      invariant -1 <= i < |ns|
      invariant forall j :: i < j < |ns| ==> !SlashTail(ns[j])
    {
      if ns[i].typ > NT_STATIC && ns[i].tail == '/' {
        var last := |ns| - 1;
        r := ns[i := ns[last]][last := ns[i]];
        assert forall j: nat :: LastSlashTail(ns, j) ==> j == i;
        return;
      }
      i := i - 1;
    }
  }

  /** The edge for a segment at the start of a text, and what may follow it. */
  ghost predicate WildFacts(prefix: string, seg: Segment, k: seq<Tok>)
    requires prefix != ""
  {
    var c := Kid(seg.typ, prefix[0], seg.tail, seg.re, map[]);
    && KidOk(c) && seg.typ != NT_STATIC && 0 < seg.end <= |prefix|
    && Parses(prefix[seg.end..]) && Fits(seg.typ, seg.tail, Toks(prefix[seg.end..]))
    && k == Edge(c) + Toks(prefix[seg.end..])
    && (seg.end < |prefix| ==> !Wild(prefix[seg.end]))
    && (seg.end == |prefix| ==> k == Edge(c))
    && (seg.typ == NT_CATCH_ALL ==> seg.end == |prefix|)
  }

  lemma WildEdge(prefix: string, seg: Segment)
    requires prefix != "" && Parses(prefix) && Proper(Toks(prefix))
    requires NextSegment(prefix) == Some(seg) && seg.typ != NT_STATIC && seg.start == 0
    ensures WildFacts(prefix, seg, Toks(prefix))
  {
    SegmentToks(prefix);
    WildKid(prefix, seg);
    var k, rest := Toks(prefix), prefix[seg.end..];
    assert k == [HeadTok(prefix)] + Toks(rest) && k[0] == HeadTok(prefix) && k[1..] == Toks(rest);
    RestBegins(rest);
  }

  /** The kid that a wild segment makes. */
  lemma WildKid(prefix: string, seg: Segment)
    requires prefix != "" && NextSegment(prefix) == Some(seg) && seg.typ != NT_STATIC && seg.start == 0
    ensures WildHead(prefix) && seg.end == HeadLen(prefix)
    ensures var c := Kid(seg.typ, prefix[0], seg.tail, seg.re, map[]); KidOk(c) && Edge(c) == [HeadTok(prefix)]
  {
    assert prefix[0..] == prefix;
  }

  lemma RestBegins(rest: string)
    requires Parses(rest)
    ensures rest == "" <==> Toks(rest) == []
    ensures rest != "" && !Wild(rest[0]) ==> Toks(rest)[0] == Lit(rest[0])
    ensures rest != "" && Wild(rest[0]) ==> !Toks(rest)[0].Lit?
  {
  }

  /** The literal text before a segment. */
  lemma StaticEdge(prefix: string, seg: Segment)
    requires prefix != "" && Parses(prefix) && Proper(Toks(prefix))
    requires NextSegment(prefix) == Some(seg) && seg.typ != NT_STATIC && seg.start > 0
    ensures 0 < seg.start < |prefix| && Plain(prefix[..seg.start]) && !Wild(prefix[0])
    ensures Parses(prefix[seg.start..]) && Wild(prefix[seg.start]) && Proper(Toks(prefix[seg.start..]))
    ensures Toks(prefix) == Lits(prefix[..seg.start]) + Toks(prefix[seg.start..])
  {
    SegmentToks(prefix);
    ProperSuffix(Lits(prefix[..seg.start]), Toks(prefix[seg.start..]));
    assert !Wild(prefix[..seg.start][0]);
  }

  /** The first child of a new node. */
  lemma FirstChild(typ: NodeTyp, tail: char, K: Kids, c: Kid, k: seq<Tok>, op: string, ep: Endpoint)
    requires KidOk(c) && Added(NO_KIDS, K, c)
    requires Edge(c) <= k && c.table == Single(k[|Edge(c)|..], op, ep)
    requires Fits(typ, tail, k) && typ != NT_CATCH_ALL && typ != NT_GLOB
    ensures NodeOk(typ, tail, map[], Single(k, op, ep), K)
  {
    assert Edge(c) + k[|Edge(c)|..] == k;
    InsertNew(typ, tail, map[], map[], NO_KIDS, K, c, k[|Edge(c)|..], op, ep);
  }

  class Node {
    var endpoints: Endpoints
    var prefix: string
    var children: seq<seq<Node>>
    var tail: char
    var typ: NodeTyp
    var lead: char
    var rex: Option<string>

    ghost var info: Kid
    ghost var kids: Kids
    ghost var parent: Node?
    ghost var path: seq<Tok>

    constructor (typ: NodeTyp, lead: char, tail: char, prefix: string)
      ensures this.typ == typ && this.lead == lead && this.tail == tail && this.prefix == prefix
      ensures rex == None && endpoints == map[] && children == [[], [], [], [], []]
      ensures info == Kid(typ, lead, tail, prefix, map[]) && kids == NO_KIDS && parent == null && path == []
    {
      this.typ, this.lead, this.tail, this.prefix := typ, lead, tail, prefix;
      rex, endpoints, children := None, map[], [[], [], [], [], []];
      info, kids, parent, path := Kid(typ, lead, tail, prefix, map[]), NO_KIDS, null, [];
    }

    /** The ghost record of a node's own edge agrees with its fields. */
    ghost predicate Mirror()
      reads this`info, this`typ, this`lead, this`tail, this`prefix, this`rex
    {
      && info == Kid(typ, lead, tail, prefix, info.table)
      && (typ == NT_REGEXP ==> rex == Some(prefix))
    }

    /** The part of the representation invariant that concerns one node. */
    ghost predicate Local()
      reads this`info, this`typ, this`lead, this`tail, this`prefix, this`rex, this`endpoints, this`kids
    {
      Mirror() && NodeOk(typ, tail, endpoints, info.table, kids)
    }

    /** `c` is the child recorded as `kid`. */
    ghost predicate Owns(c: Node, kid: Kid)
      reads this`path, c`info, c`typ, c`lead, c`tail, c`prefix, c`rex, c`parent, c`path
    {
      c.Mirror() && c.info == kid && c.parent == this && c.path == path + Edge(kid)
    }

    /** The children are the ones recorded, and have this node as their only parent. */
    ghost predicate Linked(nodes: set<Node>)
      reads this`children, this`kids, this`path, nodes
    {
      && |children| == 5
      && (forall t: nat :: t < 5 ==> |children[t]| == |kids[t]|)
      && (forall t: nat, i: nat :: Slot(kids, t, i) ==>
            children[t][i] in nodes && Owns(children[t][i], kids[t][i]))
    }

    /** A node to be filled: no endpoints and no children yet. */
    ghost predicate Blank()
      reads this`endpoints, this`children, this`kids
    {
      endpoints == map[] && children == [[], [], [], [], []] && kids == NO_KIDS
    }

    /** A new leaf that only waits for its endpoint. */
    ghost predicate Leaf(op: string, ep: Endpoint)
      reads this`info, this`typ, this`lead, this`tail, this`prefix, this`rex, this`endpoints, this`children, this`kids
    {
      Mirror() && Blank() && typ != NT_GLOB && info.table == Single([], op, ep)
    }

    /** Appends a child to its group and sorts the group. */
    method Attach(child: Node, ghost nodes: set<Node>)
      requires this != child && Linked(nodes) && Siblings(kids)
      requires child.Mirror() && KidOk(child.info) && NoEdge(kids, Head(child.info))
      requires child.path == path + Edge(child.info)
      modifies this`children, this`kids, child`parent
      ensures Linked(nodes + {child}) && child.parent == this
      ensures Added(old(kids), kids, child.info) && Siblings(kids)
    {
      var ns := SortedGroup(child, nodes);
      ghost var t, K := child.typ, Infos(ns);
      children := children[child.typ := ns];
      kids := kids[t := K];
      child.parent := this;
      Relink(child, nodes, t, ns);
    }

    /** The group of `child`, with `child` appended and sorted. */
    method SortedGroup(child: Node, ghost nodes: set<Node>) returns (ns: seq<Node>)
      requires Linked(nodes) && Siblings(kids)
      requires child.Mirror() && KidOk(child.info) && NoEdge(kids, Head(child.info))
      ensures Added(kids, kids[child.typ := Infos(ns)], child.info) && Siblings(kids[child.typ := Infos(ns)])
      ensures forall i :: 0 <= i < |ns| ==> ns[i] == child || (ns[i] in nodes && Owns(ns[i], Infos(ns)[i]))
    {
      AttachNoDup(child, nodes);
      var ns0 := children[child.typ] + [child];
      var ns1 := SortNodes(ns0);
      ns := TailSort(ns1);
      SameElements(ns0, ns);
      GroupOk(child, nodes, ns0, ns1, ns);
      GroupSlots(child, nodes, ns);
    }

    /** Nothing that makes up the node's own edge has changed. */
    twostate predicate SameEdge()
      reads this
    {
      && typ == old(typ) && lead == old(lead) && tail == old(tail) && prefix == old(prefix) && rex == old(rex)
      && info == old(info) && path == old(path)
    }

    /** Replacing one group, in which only `child` is new, keeps the links. */
    twostate lemma Relink(new child: Node, new nodes: set<Node>, new t: NodeTyp, new ns: seq<Node>)
      requires old(allocated(child)) && old(allocated(nodes)) && old(allocated(ns))
      requires old(Linked(nodes)) && old(child.Mirror())
      requires children == old(children)[t := ns] && kids == old(kids)[t := old(Infos(ns))]
      requires path == old(path) && child.parent == this && child.path == path + Edge(child.info)
      requires forall x :: x in nodes + {child} ==> x.SameEdge() && (x == child || x.parent == old(x.parent))
      requires forall i :: 0 <= i < |ns| ==> ns[i] == child || (ns[i] in nodes && old(Owns(ns[i], Infos(ns)[i])))
      ensures Linked(nodes + {child})
    {
      forall t': nat, i: nat | Slot(kids, t', i)
        ensures children[t'][i] in nodes + {child} && Owns(children[t'][i], kids[t'][i])
      {
        if t' != t {
          assert Slot(old(kids), t', i);
          assert old(Owns(children[t'][i], kids[t'][i]));
        }
      }
    }

    /** The nodes of the new group are the old children and the new one. */
    lemma GroupSlots(child: Node, nodes: set<Node>, ns: seq<Node>)
      requires Linked(nodes) && child.Mirror()
      requires forall x :: x in ns <==> x in children[child.typ] + [child]
      ensures forall i :: 0 <= i < |ns| ==> ns[i] == child || (ns[i] in nodes && Owns(ns[i], Infos(ns)[i]))
    {
      forall i | 0 <= i < |ns|
        ensures ns[i] == child || (ns[i] in nodes && Owns(ns[i], Infos(ns)[i]))
      {
        assert ns[i] in children[child.typ] + [child];
        if ns[i] != child {
          var j: nat :| j < |children[child.typ]| && children[child.typ][j] == ns[i];
          assert Slot(kids, child.typ, j);
        }
      }
    }

    lemma AttachNoDup(child: Node, nodes: set<Node>)
      requires Linked(nodes) && Siblings(kids)
      requires NoEdge(kids, Head(child.info))
      ensures forall t: nat :: t < 5 ==> NoDup(children[t] + [child])
    {
      forall t: nat, i, j | t < 5 && 0 <= i < j < |children[t] + [child]|
        ensures (children[t] + [child])[i] != (children[t] + [child])[j]
      {
        assert Slot(kids, t, i);
        assert children[t][i].info == kids[t][i];
        if j < |children[t]| {
          assert Slot(kids, t, j);
          assert children[t][j].info == kids[t][j];
        }
      }
    }

    /** Different nodes of the new group differ in the first token of their edge. */
    lemma GroupHeads(child: Node, nodes: set<Node>, x: Node, y: Node)
      requires Linked(nodes) && Siblings(kids)
      requires child.Mirror() && NoEdge(kids, Head(child.info))
      requires x in children[child.typ] + [child] && y in children[child.typ] + [child] && x != y
      ensures Head(x.info) != Head(y.info)
    {
      var t := child.typ;
      if x != child {
        var i: nat :| i < |children[t]| && children[t][i] == x;
        assert Slot(kids, t, i);
      }
      if y != child {
        var j: nat :| j < |children[t]| && children[t][j] == y;
        assert Slot(kids, t, j);
      }
    }

    /** Every node of the new group is as a child of its type should be. */
    lemma GroupKids(child: Node, nodes: set<Node>, x: Node)
      requires Linked(nodes) && Siblings(kids)
      requires child.Mirror() && KidOk(child.info)
      requires x in children[child.typ] + [child]
      ensures x.Mirror() && x.info.typ == child.typ && KidOk(x.info)
      ensures x.info in kids[child.typ] || x.info == child.info
    {
      var t := child.typ;
      if x != child {
        var i: nat :| i < |children[t]| && children[t][i] == x;
        assert Slot(kids, t, i);
        assert kids[t][i] == x.info;
      }
    }

    lemma GroupSorted(child: Node, nodes: set<Node>, ns1: seq<Node>, ns: seq<Node>, K': Kids)
      requires Linked(nodes) && Siblings(kids)
      requires child.Mirror() && KidOk(child.info)
      requires forall x :: x in ns1 ==> x in children[child.typ] + [child]
      requires Ascending(ns1)
      requires (forall i :: 0 <= i < |ns1| ==> !SlashTail(ns1[i])) ==> ns == ns1
      requires K' == kids[child.typ := Infos(ns)] && HeadsDiffer(K')
      requires forall t: nat, i: nat :: Slot(K', t, i) ==> K'[t][i].typ == t
      ensures StaticsSorted(K')
    {
      if child.typ == NT_STATIC {
        forall i | 0 <= i < |ns1|
          ensures ns1[i].typ == NT_STATIC && ns1[i].info.lead == ns1[i].lead
        {
          assert ns1[i] in ns1;
          GroupKids(child, nodes, ns1[i]);
        }
        forall i, j | 0 <= i < j < |ns|
          ensures ns[i].info.lead < ns[j].info.lead
        {
          assert Slot(K', NT_STATIC, i) && Slot(K', NT_STATIC, j);
          assert ns[i].lead <= ns[j].lead;
          assert Head(K'[NT_STATIC][i]) != Head(K'[NT_STATIC][j]);
        }
      }
    }

    lemma GroupSlash(child: Node, nodes: set<Node>, ns1: seq<Node>, ns: seq<Node>, K': Kids)
      requires Linked(nodes) && Siblings(kids)
      requires child.Mirror() && KidOk(child.info)
      requires forall x :: x in ns <==> x in children[child.typ] + [child]
      requires forall x :: x in ns1 <==> x in ns
      requires (exists i :: 0 <= i < |ns1| && SlashTail(ns1[i])) ==> ns != [] && SlashTail(ns[|ns| - 1])
      requires K' == kids[child.typ := Infos(ns)] && HeadsDiffer(K')
      requires forall t: nat, i: nat :: Slot(K', t, i) ==> K'[t][i].typ == t
      ensures SlashLast(K')
    {
      if child.typ == NT_PARAM {
        forall i | 0 <= i < |ns|
          ensures ns[i].typ == NT_PARAM && ns[i].info.tail == ns[i].tail
        {
          assert ns[i] in ns;
          GroupKids(child, nodes, ns[i]);
        }
        forall i | 0 <= i < |ns| - 1
          ensures ns[i].info.tail != '/'
        {
          var last := |ns| - 1;
          assert Slot(K', NT_PARAM, i) && Slot(K', NT_PARAM, last);
          assert Head(K'[NT_PARAM][i]) != Head(K'[NT_PARAM][last]);
          assert ns[i] in ns1;
          var p :| 0 <= p < |ns1| && ns1[p] == ns[i];
        }
      }
    }

    lemma GroupMembers(child: Node, nodes: set<Node>, ns: seq<Node>, x: Kid)
      requires Linked(nodes) && Siblings(kids)
      requires child.Mirror() && KidOk(child.info)
      requires forall y :: y in ns <==> y in children[child.typ] + [child]
      ensures x in Infos(ns) <==> x in kids[child.typ] || x == child.info
    {
      var t := child.typ;
      if x in Infos(ns) {
        var i: nat :| i < |ns| && Infos(ns)[i] == x;
        assert ns[i] in ns;
        GroupKids(child, nodes, ns[i]);
      }
      if x in kids[t] {
        var j: nat :| j < |kids[t]| && kids[t][j] == x;
        assert Slot(kids, t, j);
        var y := children[t][j];
        assert y in children[t] + [child];
        var i: nat :| i < |ns| && ns[i] == y;
        assert Infos(ns)[i] == x;
      }
      if x == child.info {
        assert child in children[t] + [child];
        var i: nat :| i < |ns| && ns[i] == child;
        assert Infos(ns)[i] == x;
      }
    }

    lemma GroupOk(child: Node, nodes: set<Node>, ns0: seq<Node>, ns1: seq<Node>, ns: seq<Node>)
      requires Linked(nodes) && Siblings(kids)
      requires child.Mirror() && KidOk(child.info) && NoEdge(kids, Head(child.info))
      requires ns0 == children[child.typ] + [child] && NoDup(ns0)
      requires multiset(ns1) == multiset(ns0) && multiset(ns) == multiset(ns1)
      requires Ascending(ns1)
      requires (forall i :: 0 <= i < |ns1| ==> !SlashTail(ns1[i])) ==> ns == ns1
      requires (exists i :: 0 <= i < |ns1| && SlashTail(ns1[i])) ==> ns != [] && SlashTail(ns[|ns| - 1])
      ensures Added(kids, kids[child.typ := Infos(ns)], child.info)
      ensures Siblings(kids[child.typ := Infos(ns)])
    {
      var t := child.typ;
      var K' := kids[t := Infos(ns)];
      PermutedNoDup(ns0, ns);
      SameElements(ns0, ns);
      SameElements(ns0, ns1);
      forall t': nat, i: nat, j: nat | Slot(K', t', i) && Slot(K', t', j) && i != j
        ensures Head(K'[t'][i]) != Head(K'[t'][j])
      {
        if t' == t {
          assert ns[i] in ns && ns[j] in ns;
          assert ns[i] != ns[j];
          GroupHeads(child, nodes, ns[i], ns[j]);
        } else {
          assert Slot(kids, t', i) && Slot(kids, t', j);
        }
      }
      forall t': nat, i: nat | Slot(K', t', i)
        ensures K'[t'][i].typ == t' && KidOk(K'[t'][i])
      {
        if t' == t {
          assert ns[i] in ns;
          GroupKids(child, nodes, ns[i]);
        } else {
          assert Slot(kids, t', i);
        }
      }
      assert StaticsSorted(K') by {
        GroupSorted(child, nodes, ns1, ns, K');
      }
      assert SlashLast(K') by {
        GroupSlash(child, nodes, ns1, ns, K');
      }
      forall x
        ensures x in K'[t] <==> x in kids[t] || x == child.info
      {
        GroupMembers(child, nodes, ns, x);
      }
    }

    /** `added` is a chain of new nodes that ends in the leaf `hn`. */
    static ghost predicate Chain(added: set<Node>, hn: Node, op: string, ep: Endpoint)
      reads added
    {
      && hn in added && hn.Leaf(op, ep)
      && (forall x :: x in added ==> x.Linked(added))
      && (forall x {:trigger x.Local()} :: x in added && x != hn ==> x.Local())
    }

    /** This node is the top of a chain that holds the single route `k`, and can be put below the
        node at `at`. */
    ghost predicate Ready(at: seq<Tok>, k: seq<Tok>, added: set<Node>, hn: Node, op: string, ep: Endpoint)
      reads this, added
    {
      && Mirror() && KidOk(info) && Edge(info) <= k
      && info.table == Single(k[|Edge(info)|..], op, ep)
      && this in added && Chain(added, hn, op, ep)
      && path == at + Edge(info) && hn.path == at + k
    }

    /** Giving the top of a chain a parent leaves the chain as it is. */
    twostate lemma ReadyKept(new at: seq<Tok>, new k: seq<Tok>, new added: set<Node>, new hn: Node, new op: string, new ep: Endpoint)
      requires old(allocated(added)) && old(allocated(hn))
      requires old(Ready(at, k, added, hn, op, ep)) && old(parent) == null
      requires forall x :: x in added && x != this ==> unchanged(x)
      requires SameEdge() && endpoints == old(endpoints) && children == old(children) && kids == old(kids)
      ensures Ready(at, k, added, hn, op, ep)
    {
      forall x | x in added
        ensures x.Linked(added)
      {
        forall t: nat, i: nat | Slot(x.kids, t, i)
          ensures x.children[t][i] in added && x.Owns(x.children[t][i], x.kids[t][i])
        {
          assert old(x.Owns(x.children[t][i], x.kids[t][i]));
        }
      }
    }

    /** Adds `child` to this node for the pattern text `prefix`, cutting the text into one node per
        segment, and returns the node at which it ends. With `grow` the child is new, and the new
        nodes are given the table that holds once the endpoint of `hn` is set. */
    method AddChild(child: Node, prefix: string, ghost nodes: set<Node>, ghost grow: bool, ghost op: string, ghost ep: Endpoint)
      returns (hn: Node, ghost added: set<Node>)
      requires this != child && Linked(nodes) && Siblings(kids)
      requires prefix != "" && Parses(prefix) && Proper(Toks(prefix)) && NoEdge(kids, Toks(prefix)[0])
      requires child.lead == prefix[0]
      requires !Wild(prefix[0]) ==> child.typ == NT_STATIC && child.tail == '\0' && child.prefix == prefix
      requires !grow ==> Plain(prefix) && child.Mirror() && child.path == path + Edge(child.info)
      requires grow ==> child.Blank() && child !in nodes && child.parent == null
      modifies this`children, this`kids, child
      ensures Linked(nodes + added) && Siblings(kids) && Added(old(kids), kids, child.info) && KidOk(child.info)
      ensures grow ==> child.Ready(path, Toks(prefix), added, hn, op, ep) && forall x :: x in added ==> x == child || fresh(x)
      ensures !grow ==> hn == child && added == {child} && child.SameEdge()
      ensures !grow ==> child.endpoints == old(child.endpoints) && child.kids == old(child.kids) && child.children == old(child.children)
      decreases |prefix|, 2
    {
      hn, added := child.Become(path, prefix, grow, op, ep);
      assert NoEdge(kids, Head(child.info)) by {
        EdgeHead(child.info);
      }
      label L:
      Attach(child, nodes);
      MoreLinked(nodes + {child}, nodes + added);
      if grow {
        child.ReadyKept@L(path, Toks(prefix), added, hn, op, ep);
      }
    }

    lemma MoreLinked(a: set<Node>, b: set<Node>)
      requires Linked(a) && a <= b
      ensures Linked(b)
    {
    }

    /** Gives a new child the type of the first segment of `prefix`, and hangs the rest below it. */
    method Become(ghost at: seq<Tok>, prefix: string, ghost grow: bool, ghost op: string, ghost ep: Endpoint)
      returns (hn: Node, ghost added: set<Node>)
      requires prefix != "" && Parses(prefix) && Proper(Toks(prefix))
      requires lead == prefix[0]
      requires !Wild(prefix[0]) ==> typ == NT_STATIC && tail == '\0' && this.prefix == prefix
      requires !grow ==> Plain(prefix) && Mirror() && path == at + Edge(info)
      requires grow ==> Blank() && parent == null
      modifies this
      ensures grow ==> Ready(at, Toks(prefix), added, hn, op, ep) && parent == null && forall x :: x in added ==> x == this || fresh(x)
      ensures !grow ==> hn == this && added == {this} && SameEdge() && KidOk(info) && Edge(info) == Toks(prefix)
      ensures !grow ==> endpoints == old(endpoints) && kids == old(kids) && children == old(children)
      decreases |prefix|, 1
    {
      hn := this;
      added := {this};
      var g := PatNextSegment(prefix);
      SegmentToks(prefix);
      var seg := g.value;
      if seg.typ == NT_STATIC {
        if grow {
          BecomeLeaf(at, prefix, op, ep);
        }
      } else if seg.start == 0 {
        WildEdge(prefix, seg);
        hn, added := BecomeWild(at, prefix, seg, Toks(prefix), op, ep);
      } else {
        StaticEdge(prefix, seg);
        hn, added := BecomeStatic(at, prefix, seg, Toks(prefix), op, ep);
      }
    }

    lemma LeafReady(at: seq<Tok>, op: string, ep: Endpoint)
      requires Blank() && Mirror() && KidOk(info) && info.table == Single([], op, ep) && path == at + Edge(info)
      ensures Ready(at, Edge(info), {this}, this, op, ep)
    {
    }

    ghost method BecomeLeaf(at: seq<Tok>, prefix: string, op: string, ep: Endpoint)
      requires Blank() && prefix != "" && Plain(prefix)
      requires typ == NT_STATIC && tail == '\0' && this.prefix == prefix && lead == prefix[0]
      modifies this`info, this`path
      ensures Parses(prefix) && Ready(at, Toks(prefix), {this}, this, op, ep)
    {
      PlainToks(prefix);
      info := Kid(typ, lead, tail, prefix, Single([], op, ep));
      path := at + Edge(info);
      assert KidOk(info) && Edge(info) == Toks(prefix);
      LeafReady(at, op, ep);
    }

    /** The text begins with a parameter, a regexp or the final '*'. */
    method BecomeWild(ghost at: seq<Tok>, prefix: string, seg: Segment, ghost k: seq<Tok>, ghost op: string, ghost ep: Endpoint)
      returns (hn: Node, ghost added: set<Node>)
      requires Blank() && parent == null && prefix != "" && lead == prefix[0]
      requires WildFacts(prefix, seg, k)
      modifies this
      ensures Ready(at, k, added, hn, op, ep) && parent == null && forall x :: x in added ==> x == this || fresh(x)
      decreases |prefix|, 0
    {
      if seg.typ == NT_REGEXP {
        this.prefix, rex := seg.re, Some(seg.re);
      }
      typ := seg.typ;
      var segStart: int := if seg.typ == NT_CATCH_ALL then -1 else seg.end;
      if segStart < 0 {
        segStart := |prefix|;
      }
      tail := seg.tail;
      info := Kid(typ, lead, tail, this.prefix, Single([], op, ep));
      path := at + Edge(info);
      hn, added := this, {this};
      if segStart != |prefix| {
        hn, added := Extend(at, k, NT_STATIC, '\0', prefix[segStart..], prefix[segStart..], op, ep);
      } else {
        LeafReady(at, op, ep);
      }
    }

    /** The text begins with literal bytes and has a parameter, a regexp or the final '*' later. */
    method BecomeStatic(ghost at: seq<Tok>, prefix: string, seg: Segment, ghost k: seq<Tok>, ghost op: string, ghost ep: Endpoint)
      returns (hn: Node, ghost added: set<Node>)
      requires Blank() && parent == null && tail == '\0'
      requires 0 < seg.start < |prefix| && lead == prefix[0] && Plain(prefix[..seg.start])
      requires Parses(prefix[seg.start..]) && Wild(prefix[seg.start]) && Proper(Toks(prefix[seg.start..]))
      requires k == Lits(prefix[..seg.start]) + Toks(prefix[seg.start..])
      modifies this
      ensures Ready(at, k, added, hn, op, ep) && parent == null && forall x :: x in added ==> x == this || fresh(x)
      decreases |prefix|, 0
    {
      typ, this.prefix, rex := NT_STATIC, prefix[..seg.start], None;
      info := Kid(typ, lead, tail, this.prefix, Single([], op, ep));
      path := at + Edge(info);
      hn, added := Extend(at, k, seg.typ, seg.tail, "", prefix[seg.start..], op, ep);
    }

    /** Adds the rest of a pattern below a new node. */
    method Extend(ghost at: seq<Tok>, ghost k: seq<Tok>, typ': NodeTyp, tail': char, prefix': string, search: string,
                  ghost op: string, ghost ep: Endpoint)
      returns (hn: Node, ghost added: set<Node>)
      requires Blank() && Mirror() && KidOk(info) && parent == null && path == at + Edge(info)
      requires search != "" && Parses(search) && Fits(typ, tail, Toks(search)) && typ != NT_CATCH_ALL
      requires !Wild(search[0]) ==> typ' == NT_STATIC && tail' == '\0' && prefix' == search
      requires k == Edge(info) + Toks(search)
      modifies this
      ensures Ready(at, k, added, hn, op, ep)
      ensures parent == null && forall x :: x in added ==> x == this || fresh(x)
      decreases |search|, 4
    {
      info := info.(table := Single(Toks(search), op, ep));
      ghost var nn;
      nn, hn, added := Hang(typ', tail', prefix', search, op, ep);
      LongerReady(at, k, Toks(search), nn, added, hn, op, ep);
      added := added + {this};
    }

    method Hang(typ': NodeTyp, tail': char, prefix': string, search: string, ghost op: string, ghost ep: Endpoint)
      returns (ghost nn: Node, hn: Node, ghost added: set<Node>)
      requires Blank()
      requires search != "" && Parses(search) && Proper(Toks(search))
      requires !Wild(search[0]) ==> typ' == NT_STATIC && tail' == '\0' && prefix' == search
      modifies this`children, this`kids
      ensures Linked({} + added) && Added(NO_KIDS, kids, nn.info) && nn.Ready(path, Toks(search), added, hn, op, ep)
      ensures forall x :: x in added ==> fresh(x)
      decreases |search|, 3
    {
      var child := new Node(typ', search[0], tail', prefix');
      nn := child;
      hn, added := AddChild(child, search, {}, true, op, ep);
    }

    /** A new node whose only child is the top of a chain becomes the top itself. */
    lemma LongerReady(at: seq<Tok>, all: seq<Tok>, k: seq<Tok>, nn: Node, added: set<Node>, hn: Node, op: string, ep: Endpoint)
      requires Mirror() && KidOk(info) && endpoints == map[] && path == at + Edge(info) && info.table == Single(k, op, ep)
      requires Fits(typ, tail, k) && typ != NT_CATCH_ALL && all == Edge(info) + k
      requires Linked({} + added) && Added(NO_KIDS, kids, nn.info) && nn.Ready(path, k, added, hn, op, ep)
      ensures Ready(at, all, added + {this}, hn, op, ep)
    {
      assert {} + added == added;
      FirstChild(typ, tail, kids, nn.info, k, op, ep);
      Lengthen(added, hn, op, ep);
      EdgeFirst(at, Edge(info), k);
    }

    static lemma EdgeFirst(at: seq<Tok>, e: seq<Tok>, k: seq<Tok>)
      ensures e <= e + k && (e + k)[|e|..] == k && at + (e + k) == (at + e) + k
    {
    }

    /** A complete node on top of a chain makes a longer chain. */
    lemma Lengthen(added: set<Node>, hn: Node, op: string, ep: Endpoint)
      requires Local() && Linked(added) && Chain(added, hn, op, ep)
      ensures Chain(added + {this}, hn, op, ep)
    {
      forall x | x in added + {this}
        ensures x.Linked(added + {this})
      {
        x.MoreLinked(added, added + {this});
      }
    }

    // ----- insertion

    /** Everything is in order except that `n` waits for an insertion below it. */
    static ghost predicate AllBut(nodes: set<Node>, n: Node)
      reads nodes
    {
      && n in nodes
      && (forall x :: x in nodes ==> x.Linked(nodes))
      && (forall x {:trigger x.Local()} :: x in nodes && x != n ==> x.Local())
    }

    static ghost predicate TreeOk(nodes: set<Node>)
      reads nodes
    {
      && (forall x :: x in nodes ==> x.Linked(nodes))
      && (forall x {:trigger x.Local()} :: x in nodes ==> x.Local())
    }

    /** This node's table already holds the route `k`, which is still to be inserted below it. */
    ghost predicate Pending(T: Table, k: seq<Tok>, op: string, ep: Endpoint)
      reads this`info, this`typ, this`lead, this`tail, this`prefix, this`rex, this`endpoints, this`kids
    {
      && Mirror() && NodeOk(typ, tail, endpoints, T, kids)
      && info.table == Put(T, k, op, ep) && Fits(typ, tail, k)
    }

    /** A node that keeps its children, and whose children keep their edges, keeps its links. */
    twostate lemma LinkKept(new nodes: set<Node>)
      requires old(allocated(nodes)) && old(Linked(nodes))
      requires children == old(children) && kids == old(kids) && path == old(path)
      requires forall c :: c in nodes && old(c.parent) == this ==> c.SameEdge() && c.parent == this
      ensures Linked(nodes)
    {
      forall t: nat, i: nat | Slot(kids, t, i)
        ensures children[t][i] in nodes && Owns(children[t][i], kids[t][i])
      {
        assert old(Owns(children[t][i], kids[t][i]));
      }
    }

    method SetEndpoint(op: string, handler: Option<Handler>, pattern: string)
      requires Parses(pattern) && Distinct(Keys(pattern))
      modifies this`endpoints
      ensures endpoints == old(endpoints)[op := Endpoint(handler, pattern, Keys(pattern))]
    {
      var paramKeys := PatParamKeys(pattern);
      endpoints := endpoints[op := Endpoint(handler, pattern, paramKeys.value)];
    }

    method GetEdge(ntyp: NodeTyp, lead: char, tail: char, prefix: string, ghost nodes: set<Node>)
      returns (r: Node?, ghost i: nat)
      requires Linked(nodes) && Siblings(kids)
      requires ntyp == NT_STATIC || ntyp == NT_CATCH_ALL ==> tail == '\0'
      requires ntyp == NT_REGEXP || ntyp == NT_PARAM ==> lead == '{'
      requires ntyp == NT_CATCH_ALL ==> lead == '*'
      ensures r == null ==> forall j: nat :: Slot(kids, ntyp, j) ==> Head(kids[ntyp][j]) != HeadFor(ntyp, lead, tail, prefix)
      ensures r != null ==>
        Slot(kids, ntyp, i) && children[ntyp][i] == r && Head(kids[ntyp][i]) == HeadFor(ntyp, lead, tail, prefix)
    {
      var nds := children[ntyp];
      i := 0;
      for j := 0 to |nds|
        invariant forall j': nat :: j' < j ==> Head(kids[ntyp][j']) != HeadFor(ntyp, lead, tail, prefix)
      {
        assert Slot(kids, ntyp, j);
        HeadMatch(kids[ntyp][j], lead, tail, prefix);
        if nds[j].lead == lead && nds[j].tail == tail {
          if ntyp == NT_REGEXP && nds[j].prefix != prefix {
            continue;
          }
          return nds[j], j;
        }
      }
      r := null;
    }

    /** Only the table of one child has changed. */
    twostate lemma DescendLinked(new nodes: set<Node>, new c: Node, new t: nat, new i: nat, new rest: seq<Tok>, new op: string, new ep: Endpoint)
      requires old(allocated(nodes)) && old(allocated(c)) && old(Linked(nodes)) && old(Siblings(kids))
      requires old(Slot(kids, t, i)) && old(children[t][i]) == c && children == old(children) && path == old(path)
      requires kids == Updated(old(kids), t, i, rest, op, ep)
      requires forall x :: x in nodes && x != c && old(x.parent) == this ==> x.SameEdge() && x.parent == this
      requires c.parent == this && c.path == old(c.path) && c.Mirror()
      requires c.info == old(c.info).(table := Put(old(c.info).table, rest, op, ep))
      ensures Linked(nodes)
    {
      forall t': nat, i': nat | Slot(kids, t', i')
        ensures children[t'][i'] in nodes && Owns(children[t'][i'], kids[t'][i'])
      {
        assert old(Slot(kids, t', i'));
        assert old(Owns(children[t'][i'], kids[t'][i']));
        if t' != t || i' != i {
          assert old(kids)[t'][i'] != old(kids)[t][i];
        }
      }
    }

    twostate lemma OthersLinked(new nodes: set<Node>, new c: Node)
      requires old(allocated(nodes)) && old(allocated(c)) && c != this && old(c.parent) == this && c.parent == this
      requires forall x :: x in nodes ==> old(x.Linked(nodes))
      requires forall x :: x in nodes && x != this ==> x.children == old(x.children) && x.kids == old(x.kids)
      requires forall x :: x in nodes ==> x.path == old(x.path) && x.parent == old(x.parent)
      requires forall x :: x in nodes && x != c ==> x.SameEdge()
      ensures forall x :: x in nodes && x != this ==> x.Linked(nodes)
    {
      forall x | x in nodes && x != this
        ensures x.Linked(nodes)
      {
        x.LinkKept(nodes);
      }
    }

    /** What is so before a pending insertion is passed on. */
    lemma BeforeDescend(nodes: set<Node>, c: Node, t: nat, i: nat, T: Table, k: seq<Tok>, rest: seq<Tok>, op: string, ep: Endpoint)
      requires AllBut(nodes, this) && Pending(T, k, op, ep)
      requires Slot(kids, t, i) && k == Edge(kids[t][i]) + rest && c == children[t][i]
      ensures c in nodes && c != this && c.parent == this && c.path + rest == path + k && c.info == kids[t][i]
      ensures c.Local() && Fits(c.typ, c.tail, rest)
      ensures NodeOk(typ, tail, endpoints, info.table, Updated(kids, t, i, rest, op, ep)) && Siblings(kids)
    {
      assert Owns(c, kids[t][i]);
      assert path + k == (path + Edge(kids[t][i])) + rest;
      EdgeHead(c.info);
      assert c != this && c.Local();
      InsertBelow(typ, tail, endpoints, T, kids, t, i, rest, op, ep);
      FitsBelow(typ, tail, c.info, rest);
    }

    /** Passing a pending insertion on to the child it leads to. */
    ghost method Descend(nodes: set<Node>, c: Node, t: nat, i: nat, T: Table, k: seq<Tok>, rest: seq<Tok>, op: string, ep: Endpoint)
      returns (below: Table)
      requires AllBut(nodes, this) && Pending(T, k, op, ep)
      requires Slot(kids, t, i) && k == Edge(kids[t][i]) + rest && c == children[t][i]
      modifies this`kids, c`info
      ensures AllBut(nodes, c) && c.Pending(below, rest, op, ep)
      ensures !c.IsRoot() && c.path + rest == path + k
    {
      below := c.info.table;
      BeforeDescend(nodes, c, t, i, T, k, rest, op, ep);
      label L:
      kids := Updated(kids, t, i, rest, op, ep);
      c.info := c.info.(table := Put(c.info.table, rest, op, ep));
      DescendLinked@L(nodes, c, t, i, rest, op, ep);
      OthersLinked@L(nodes, c);
    }

    /** Setting the endpoint a pending insertion waits for completes the tree. */
    method Finish(op: string, pattern: string, handler: Option<Handler>, ghost nodes: set<Node>, ghost T: Table)
      requires Parses(pattern) && Distinct(Keys(pattern))
      requires AllBut(nodes, this) && Mirror() && NodeOk(typ, tail, endpoints, T, kids)
      requires info.table == Put(T, [], op, Endpoint(handler, pattern, Keys(pattern)))
      modifies this`endpoints
      ensures TreeOk(nodes)
    {
      InsertHere(typ, tail, endpoints, T, kids, op, Endpoint(handler, pattern, Keys(pattern)));
      label L:
      SetEndpoint(op, handler, pattern);
      forall x | x in nodes
        ensures x.Linked(nodes)
      {
        x.LinkKept@L(nodes);
      }
    }

    /** Adding a new branch for a pending insertion that no child leads to. */
    method NewEdge(search: string, segTail: char, ghost nodes: set<Node>, ghost T: Table, ghost op: string, ghost ep: Endpoint)
      returns (hn: Node, ghost nodes': set<Node>)
      requires search != "" && Parses(search) && NoEdge(kids, Toks(search)[0])
      requires !Wild(search[0]) ==> segTail == '\0'
      requires AllBut(nodes, this) && Pending(T, Toks(search), op, ep)
      modifies this`children, this`kids
      ensures nodes <= nodes' && AllBut(nodes', hn) && hn.Leaf(op, ep) && hn.path == path + Toks(search) && fresh(hn)
      ensures forall x :: x in nodes' ==> x in nodes || fresh(x)
    {
      ghost var k := Toks(search);
      var child := new Node(NT_STATIC, search[0], segTail, search);
      ghost var added;
      label L:
      hn, added := AddChild(child, search, nodes, true, op, ep);
      nodes' := nodes + added;
      InsertUnder(typ, tail, endpoints, T, old(kids), kids, child.info, k, op, ep);
      GrownTree@L(nodes, added, hn, op, ep);
    }

    /** A chain added below one node leaves the other nodes as they are. */
    twostate lemma GrownTree(new nodes: set<Node>, new added: set<Node>, new hn: Node, new op: string, new ep: Endpoint)
      requires old(allocated(nodes)) && old(AllBut(nodes, this))
      requires forall x :: x in nodes && x != this ==> unchanged(x)
      requires SameEdge() && parent == old(parent) && Local() && Linked(nodes + added)
      requires Chain(added, hn, op, ep)
      ensures AllBut(nodes + added, hn)
    {
      forall x | x in nodes && x != this
        ensures x.Linked(nodes + added)
      {
        x.LinkKept(nodes);
        x.MoreLinked(nodes, nodes + added);
      }
      forall x | x in added
        ensures x.Linked(nodes + added)
      {
        x.MoreLinked(added, nodes + added);
      }
    }

    /** Puts `child` in the place of the child with this label and tail; one with them exists. */
    method ReplaceChild(lead: char, tail: char, child: Node, ghost nodes: set<Node>, ghost i: nat)
      requires Linked(nodes) && Siblings(kids) && child.typ == NT_STATIC && child !in nodes
      requires Slot(kids, NT_STATIC, i) && kids[NT_STATIC][i].lead == lead && tail == '\0'
      modifies this`children, child`lead, child`tail
      ensures children == old(children)[NT_STATIC := old(children)[NT_STATIC][i := child]]
      ensures child.lead == lead && child.tail == tail
    {
      var nds := children[child.typ];
      assert Owns(nds[i], kids[NT_STATIC][i]);
      var j := 0;
      while nds[j].lead != lead || nds[j].tail != tail
        invariant 0 <= j <= i
        decreases i - j
      {
        j := j + 1;
      }
      assert j == i by {
        assert Slot(kids, NT_STATIC, j) && Owns(nds[j], kids[NT_STATIC][j]);
      }
      children := children[child.typ := nds[j := child]];
      child.lead, child.tail := lead, tail;
    }

    /** The links after a split: `child` is new, between this node and `n`. */
    twostate lemma SplitLinks(new nodes: set<Node>, new n: Node, new child: Node, new i: nat)
      requires old(allocated(nodes)) && old(allocated(n)) && n in nodes && this in nodes && n != this && child !in nodes
      requires old(forall x :: x in nodes ==> x.Linked(nodes))
      requires old(Siblings(kids) && Slot(kids, NT_STATIC, i) && children[NT_STATIC][i] == n)
      requires SameEdge() && parent == old(parent)
      requires children == old(children)[NT_STATIC := old(children)[NT_STATIC][i := child]]
      requires kids == WithStatic(old(kids), i, child.info) && Owns(child, child.info)
      requires child.Linked({n})
      requires n.path == old(n.path) && n.kids == old(n.kids) && n.children == old(n.children) && n.parent == child
      requires forall x :: x in nodes && x != this && x != n ==> unchanged(x)
      ensures forall x :: x in nodes + {child} ==> x.Linked(nodes + {child})
    {
      forall t: nat, j: nat | Slot(kids, t, j)
        ensures children[t][j] in nodes + {child} && Owns(children[t][j], kids[t][j])
      {
        assert old(Slot(kids, t, j)) && old(Owns(children[t][j], kids[t][j]));
        assert old(Owns(n, kids[NT_STATIC][i]));
        if t != NT_STATIC || j != i {
          assert old(kids)[t][j] != old(kids)[NT_STATIC][i];
        }
      }
      assert old(Owns(n, kids[NT_STATIC][i]));
      forall x | x in nodes && x != this
        ensures x.Linked(nodes + {child})
      {
        x.LinkKept(nodes);
        x.MoreLinked(nodes, nodes + {child});
      }
    }

    /** Puts a new node for the first `cp` bytes of the edge to `n` in the place of `n`, and leaves
        `n` the rest of its edge. */
    method Halve(n: Node, ghost i: nat, search: string, cp: nat, ghost nodes: set<Node>, ghost u: Kid)
      returns (child: Node)
      requires Linked(nodes) && Siblings(kids)
      requires Slot(kids, NT_STATIC, i) && children[NT_STATIC][i] == n && n != this
      requires 0 < cp < |n.prefix| && cp <= |search| && search[..cp] == n.prefix[..cp]
      requires u == Kid(NT_STATIC, n.info.lead, '\0', n.info.prefix[..cp], u.table)
      modifies this`children, this`kids, n`lead, n`prefix, n`info
      ensures fresh(child) && child.BlankMiddle() && child.info == u && child.Mirror()
      ensures child.path == path + Edge(u) && child.parent == this
      ensures children == old(children)[NT_STATIC := old(children)[NT_STATIC][i := child]]
      ensures kids == WithStatic(old(kids), i, u)
      ensures n.info == Lower(old(n.info), cp) && n.Mirror()
    {
      assert Owns(n, kids[NT_STATIC][i]);
      child := new Node(NT_STATIC, '\0', '\0', search[..cp]);
      ReplaceChild(search[0], '\0', child, nodes, i);
      assert search[0] == search[..cp][0];
      child.info := u;
      child.path, child.parent := path + Edge(u), this;
      kids := WithStatic(kids, i, u);
      n.Trim(cp);
    }

    /** Leaves the node the part of its edge from byte `cp` on. */
    method Trim(cp: nat)
      requires Mirror() && typ == NT_STATIC && 0 < cp < |prefix|
      modifies this`lead, this`prefix, this`info
      ensures info == Lower(old(info), cp) && Mirror()
    {
      info := Lower(info, cp);
      lead := prefix[cp];
      prefix := prefix[cp..];
    }

    ghost predicate BlankMiddle()
      reads this`typ, this`tail, this`endpoints, this`children, this`kids
    {
      typ == NT_STATIC && tail == '\0' && Blank()
    }

    /** Hangs the lower half of a split edge below the new node. */
    method Rehang(n: Node)
      requires this != n && BlankMiddle()
      requires n.Mirror() && KidOk(n.info) && n.typ == NT_STATIC && n.path == path + Edge(n.info)
      modifies this`children, this`kids, n
      ensures Linked({n}) && kids == NO_KIDS[NT_STATIC := [n.info]] && n.parent == this
      ensures n.SameEdge() && n.endpoints == old(n.endpoints) && n.kids == old(n.kids) && n.children == old(n.children)
    {
      PlainToks(n.prefix);
      ProperPlain(n.prefix);
      ghost var ep: Endpoint := Endpoint(None, "", []);
      ghost var hn, added;
      hn, added := AddChild(n, n.prefix, {}, false, "", ep);
      OnlyChild(kids, n.info);
      MoreLinked({} + added, {n});
      assert Slot(kids, NT_STATIC, 0) && Owns(children[NT_STATIC][0], n.info);
    }

    /** The tree after a split. */
    twostate lemma SplitTree(new nodes: set<Node>, new n: Node, new child: Node, new i: nat, new T: Table,
                             new rest: seq<Tok>, new op: string, new ep: Endpoint)
      requires old(allocated(nodes)) && old(allocated(n)) && child !in nodes && n != this
      requires old(AllBut(nodes, this)) && old(Siblings(kids))
      requires old(Slot(kids, NT_STATIC, i)) && old(children[NT_STATIC][i]) == n
      requires SameEdge() && parent == old(parent) && Local()
      requires children == old(children)[NT_STATIC := old(children)[NT_STATIC][i := child]]
      requires kids == WithStatic(old(kids), i, child.info) && Owns(child, child.info) && child.Linked({n})
      requires child.Pending(T, rest, op, ep)
      requires n.Mirror() && n.info.table == old(n.info.table) && n.parent == child && n.path == old(n.path)
      requires n.typ == old(n.typ) && n.tail == old(n.tail)
      requires n.endpoints == old(n.endpoints) && n.kids == old(n.kids) && n.children == old(n.children)
      requires forall x :: x in nodes && x != this && x != n ==> unchanged(x)
      ensures AllBut(nodes + {child}, child)
    {
      assert old(Owns(n, kids[NT_STATIC][i])) && old(n.Local());
      SplitLinks(nodes, n, child, i);
    }

    /** Cuts the edge to the static child `n` after `cp` bytes. */
    method CutEdge(n: Node, ghost i: nat, search: string, cp: nat, ghost nodes: set<Node>, ghost u: Kid) returns (child: Node)
      requires Linked(nodes) && Siblings(kids)
      requires Slot(kids, NT_STATIC, i) && children[NT_STATIC][i] == n && n != this
      requires 0 < cp < |n.prefix| && cp <= |search| && search[..cp] == n.prefix[..cp]
      requires u == Kid(NT_STATIC, n.info.lead, '\0', n.info.prefix[..cp], u.table)
      requires KidOk(Lower(n.info, cp)) && n.typ == NT_STATIC && n.path == (path + Edge(u)) + Edge(Lower(n.info, cp))
      modifies this`children, this`kids, n
      ensures fresh(child) && child.info == u && child.Mirror() && child.path == path + Edge(u) && child.parent == this
      ensures child.typ == NT_STATIC && child.tail == '\0' && child.endpoints == map[]
      ensures children == old(children)[NT_STATIC := old(children)[NT_STATIC][i := child]]
      ensures kids == WithStatic(old(kids), i, u)
      ensures child.Linked({n}) && child.kids == NO_KIDS[NT_STATIC := [n.info]]
      ensures n.info == Lower(old(n.info), cp) && n.Mirror() && n.parent == child && n.path == old(n.path)
      ensures n.typ == old(n.typ) && n.tail == old(n.tail)
      ensures n.endpoints == old(n.endpoints) && n.kids == old(n.kids) && n.children == old(n.children)
    {
      child := Halve(n, i, search, cp, nodes, u);
      child.Rehang(n);
    }

    /** Splits the edge to the static child `n` after `cp` bytes; the new node in the middle takes
        over the pending insertion. */
    method SplitEdge(n: Node, ghost i: nat, search: string, cp: nat,
                     ghost nodes: set<Node>, ghost T: Table, ghost k: seq<Tok>, ghost op: string, ghost ep: Endpoint)
      returns (child: Node, ghost T': Table)
      requires AllBut(nodes, this) && Pending(T, k, op, ep)
      requires Slot(kids, NT_STATIC, i) && children[NT_STATIC][i] == n
      requires 0 < cp < |n.prefix| && cp <= |search| && search[..cp] == n.prefix[..cp] && Lits(search[..cp]) <= k
      modifies this`children, this`kids, n
      ensures fresh(child) && AllBut(nodes + {child}, child) && child.Pending(T', k[cp..], op, ep)
      ensures child.kids == NO_KIDS[NT_STATIC := [Lower(old(n.info), cp)]] && child.path == path + k[..cp]
    {
      assert Owns(n, kids[NT_STATIC][i]);
      EdgeHead(n.info);
      ghost var u;
      u, T' := SplitPure(typ, tail, endpoints, T, kids, i, cp, k, op, ep);
      label L:
      child := CutEdge(n, i, search, cp, nodes, u);
      SplitTree@L(nodes, n, child, i, T', k[cp..], op, ep);
    }

    /** The insertion that adds a new edge. */
    method InsertEdge(search: string, segTail: char, op: string, pattern: string, handler: Option<Handler>,
                      ghost nodes: set<Node>, ghost T: Table)
      returns (hn: Node, ghost nodes': set<Node>)
      requires Parses(pattern) && Distinct(Keys(pattern))
      requires search != "" && Parses(search) && NoEdge(kids, Toks(search)[0])
      requires !Wild(search[0]) ==> segTail == '\0'
      requires AllBut(nodes, this) && Pending(T, Toks(search), op, Endpoint(handler, pattern, Keys(pattern)))
      modifies this`children, this`kids
      ensures TreeOk(nodes') && nodes <= nodes' && hn in nodes' && hn.path == path + Toks(search)
      ensures forall x :: x in nodes' ==> x in nodes || fresh(x)
    {
      hn, nodes' := NewEdge(search, segTail, nodes, T, op, Endpoint(handler, pattern, Keys(pattern)));
      hn.Finish(op, pattern, handler, nodes', map[]);
    }

    /** The insertion that splits the edge to `n` after `cp` bytes. */
    method InsertSplit(n: Node, ghost i: nat, search: string, cp: nat, op: string, pattern: string, handler: Option<Handler>,
                       ghost nodes: set<Node>, ghost T: Table)
      returns (hn: Node, ghost nodes': set<Node>)
      requires Parses(pattern) && Distinct(Keys(pattern)) && Parses(search)
      requires AllBut(nodes, this) && Pending(T, Toks(search), op, Endpoint(handler, pattern, Keys(pattern)))
      requires Slot(kids, NT_STATIC, i) && children[NT_STATIC][i] == n
      requires 0 < cp < |n.prefix| && cp <= |search| && search[..cp] == n.prefix[..cp]
      requires cp < |search| ==> search[cp] != n.prefix[cp]
      modifies this`children, this`kids, n
      ensures TreeOk(nodes') && nodes <= nodes' && hn in nodes' && hn.path == path + Toks(search)
      ensures forall x :: x in nodes' ==> x in nodes || fresh(x)
    {
      ghost var lower := Lower(n.info, cp);
      ghost var ks := Toks(search);
      ghost var T', at := T, path;
      BeforeSplit(n, i, search, cp, nodes);
      var child;
      child, T' := SplitEdge(n, i, search, cp, nodes, T, ks, op, Endpoint(handler, pattern, Keys(pattern)));
      nodes' := nodes + {child};
      var rest := search[cp..];
      if |rest| == 0 {
        child.Finish(op, pattern, handler, nodes', T');
        return child, nodes';
      }
      LowerOnly(child.kids, lower, rest);
      hn, nodes' := child.InsertEdge(rest, '\0', op, pattern, handler, nodes', T');
    }

    lemma BeforeSplit(n: Node, i: nat, search: string, cp: nat, nodes: set<Node>)
      requires Linked(nodes) && Siblings(kids) && Parses(search)
      requires Slot(kids, NT_STATIC, i) && children[NT_STATIC][i] == n
      requires 0 < cp < |n.prefix| && cp <= |search| && search[..cp] == n.prefix[..cp]
      ensures n.info.prefix == n.prefix && !Wild(n.prefix[cp])
      ensures Parses(search[cp..]) && |Toks(search)| >= cp && Lits(search[..cp]) <= Toks(search)
      ensures Toks(search)[cp..] == Toks(search[cp..]) && path + Toks(search) == path + Toks(search)[..cp] + Toks(search[cp..])
    {
      assert Owns(n, kids[NT_STATIC][i]);
      assert n.info.prefix == n.prefix && KidOk(n.info);
      SplitText(path, search, n.prefix, cp);
    }

    /** The insertion branches off at this node: there is no edge `e`, or only the first `cp` bytes
        of it agree with the pattern. */
    method Branch(e: Node?, ghost i: nat, segTail: char, search: string, cp: nat, op: string, pattern: string, handler: Option<Handler>,
                  ghost nodes: set<Node>, ghost T: Table)
      returns (hn: Node, ghost nodes': set<Node>)
      requires Parses(pattern) && Distinct(Keys(pattern)) && search != "" && Parses(search)
      requires AllBut(nodes, this) && Pending(T, Toks(search), op, Endpoint(handler, pattern, Keys(pattern)))
      requires e == null ==> Toks(search) != [] && NoEdge(kids, Toks(search)[0]) && (!Wild(search[0]) ==> segTail == '\0')
      requires e != null ==> Slot(kids, NT_STATIC, i) && children[NT_STATIC][i] == e
      requires e != null ==> 0 < cp < |e.prefix| && cp <= |search| && search[..cp] == e.prefix[..cp]
      requires e != null && cp < |search| ==> search[cp] != e.prefix[cp]
      modifies nodes
      ensures TreeOk(nodes') && nodes <= nodes' && hn in nodes' && hn.path == old(path) + Toks(search)
      ensures forall x :: x in nodes' ==> x in nodes || fresh(x)
      ensures forall x :: x in nodes && old(x.IsRoot()) ==> x.IsRoot() && x.info.table == old(x.info.table)
    {
      if e == null {
        hn, nodes' := InsertEdge(search, segTail, op, pattern, handler, nodes, T);
      } else {
        assert Owns(e, kids[NT_STATIC][i]);
        hn, nodes' := InsertSplit(e, i, search, cp, op, pattern, handler, nodes, T);
      }
    }

    ghost predicate IsRoot()
      reads this`parent, this`path, this`typ
    {
      parent == null && path == [] && typ == NT_STATIC
    }

    /** One round of the insertion: it ends in a new branch, or goes on at a child, behind the first
        `used` bytes of the pattern. */
    method Advance(search: string, op: string, pattern: string, handler: Option<Handler>, ghost nodes: set<Node>, ghost T: Table, ghost root: Node)
      returns (next: Node, used: nat, done: bool, ghost nodes': set<Node>, ghost T': Table)
      requires Parses(pattern) && Distinct(Keys(pattern)) && search != "" && Parses(search)
      requires AllBut(nodes, this) && Pending(T, Toks(search), op, Endpoint(handler, pattern, Keys(pattern)))
      requires root in nodes && root.IsRoot()
      modifies nodes
      ensures nodes <= nodes' && forall x :: x in nodes' ==> x in nodes || fresh(x)
      ensures done ==> TreeOk(nodes') && next in nodes' && next.path == old(path) + Toks(search)
      ensures !done ==> nodes' == nodes && AllBut(nodes, next) && 0 < used <= |search| && Parses(search[used..])
      ensures !done ==> next.Pending(T', Toks(search[used..]), op, Endpoint(handler, pattern, Keys(pattern)))
      ensures !done ==> next.path + Toks(search[used..]) == old(path) + Toks(search)
      ensures root.IsRoot() && root.info.table == old(root.info.table)
    {
      var e, segTail;
      ghost var t, i;
      e, segTail, used, t, i := CommonEdge(search, nodes);
      done := e == null || (e.typ == NT_STATIC && used != |e.prefix|);
      if done {
        T' := T;
        next, nodes' := Branch(e, i, segTail, search, used, op, pattern, handler, nodes, T);
      } else {
        next, nodes' := e, nodes;
        T' := Descend(nodes, e, t, i, T, Toks(search), Toks(search[used..]), op, Endpoint(handler, pattern, Keys(pattern)));
      }
    }

    /** Registers `handler` for `op` and `pattern`. */
    method InsertRoute(op: string, pattern: string, handler: Option<Handler>, ghost nodes: set<Node>)
      returns (hn: Node, ghost nodes': set<Node>)
      requires this in nodes && TreeOk(nodes) && IsRoot()
      requires Valid(pattern)
      modifies nodes
      ensures nodes <= nodes' && TreeOk(nodes') && forall x :: x in nodes' ==> x in nodes || fresh(x)
      ensures IsRoot()
      ensures info.table == Put(old(info.table), Toks(pattern), op, Endpoint(handler, pattern, Keys(pattern)))
      ensures hn in nodes' && hn.path == Toks(pattern)
    {
      ghost var T := info.table;
      StartInsert(nodes, Toks(pattern), op, Endpoint(handler, pattern, Keys(pattern)));
      hn, nodes' := InsertLoop(op, pattern, handler, nodes, T);
    }

    method InsertLoop(op: string, pattern: string, handler: Option<Handler>, ghost nodes: set<Node>, ghost T0: Table)
      returns (hn: Node, ghost nodes': set<Node>)
      requires IsRoot() && Parses(pattern) && Distinct(Keys(pattern))
      requires AllBut(nodes, this) && Pending(T0, Toks(pattern), op, Endpoint(handler, pattern, Keys(pattern)))
      modifies nodes
      ensures nodes <= nodes' && TreeOk(nodes') && forall x :: x in nodes' ==> x in nodes || fresh(x)
      ensures IsRoot()
      ensures info.table == old(info.table)
      ensures hn in nodes' && hn.path == Toks(pattern)
    {
      ghost var ep := Endpoint(handler, pattern, Keys(pattern));
      ghost var k, T := Toks(pattern), T0;
      var n: Node := this;
      var search := pattern;
      while |search| != 0
        invariant AllBut(nodes, n) && Parses(search) && n.Pending(T, Toks(search), op, ep)
        invariant n.path + Toks(search) == k
        invariant IsRoot() && info.table == old(info.table)
        decreases |search|
      {
        var next, used, done;
        next, used, done, nodes', T := n.Advance(search, op, pattern, handler, nodes, T, this);
        if done {
          return next, nodes';
        }
        n := next;
        search := search[used..];
      }
      n.Finish(op, pattern, handler, nodes, T);
      return n, nodes;
    }

    /** The edge that the first token of a pattern selects, if there is one. */
    method EdgeFor(search: string, ghost nodes: set<Node>) returns (e: Node?, segTail: char, used: nat, ghost t: NodeTyp, ghost i: nat)
      requires search != "" && Parses(search) && Linked(nodes) && Siblings(kids)
      ensures Toks(search) != [] && (!Wild(search[0]) ==> segTail == '\0')
      ensures e == null ==> NoEdge(kids, Toks(search)[0])
      ensures e != null ==> Slot(kids, t, i) && children[t][i] == e && Owns(e, kids[t][i]) && e.typ == t
      ensures e != null && t == NT_STATIC ==> e.prefix != "" && e.prefix[0] == search[0]
      ensures e != null && t != NT_STATIC ==>
        0 < used <= |search| && Parses(search[used..]) && Toks(search) == Edge(kids[t][i]) + Toks(search[used..])
    {
      var lead := search[0];
      var segTyp, prefix;
      segTyp, segTail, used, prefix := ReadSegment(search);
      t := segTyp;
      e, i := GetEdge(segTyp, lead, segTail, prefix, nodes);
      if e == null {
        NoEdgeAll(kids, segTyp, lead, segTail, prefix);
      } else {
        assert Owns(e, kids[t][i]);
      }
    }

    /** The edge to follow, and how much of the pattern it has in common with it. */
    method CommonEdge(search: string, ghost nodes: set<Node>) returns (e: Node?, segTail: char, used: nat, ghost t: NodeTyp, ghost i: nat)
      requires search != "" && Parses(search) && Linked(nodes) && Siblings(kids)
      ensures Toks(search) != [] && (!Wild(search[0]) ==> segTail == '\0')
      ensures e == null ==> NoEdge(kids, Toks(search)[0])
      ensures e != null ==> Slot(kids, t, i) && children[t][i] == e && e.typ == t
      ensures e != null && t == NT_STATIC ==> 0 < used <= |e.prefix| && used <= |search| && search[..used] == e.prefix[..used]
      ensures e != null && t == NT_STATIC && used < |e.prefix| && used < |search| ==> search[used] != e.prefix[used]
      ensures e != null && (t == NT_STATIC ==> used == |e.prefix|) ==>
        0 < used <= |search| && Parses(search[used..]) && Toks(search) == Edge(kids[t][i]) + Toks(search[used..])
    {
      e, segTail, used, t, i := EdgeFor(search, nodes);
      if e != null && e.typ == NT_STATIC {
        used := LongestPrefix(search, e.prefix);
        if used == |e.prefix| {
          WholeEdge(kids[t][i], search, used);
        }
      }
    }

    /** The root's table is the first to hold the new route. */
    ghost method StartInsert(nodes: set<Node>, k: seq<Tok>, op: string, ep: Endpoint)
      requires this in nodes && TreeOk(nodes) && IsRoot() && Proper(k)
      modifies this`info
      ensures AllBut(nodes, this) && Pending(old(info.table), k, op, ep)
    {
      label L:
      assert Local();
      info := info.(table := Put(info.table, k, op, ep));
      forall x | x in nodes
        ensures x.Linked(nodes)
      {
        x.LinkKept@L(nodes);
      }
    }

    // ----- lookup

    /** A successful search has found the node of the route `k` below this one. */
    ghost predicate FoundRoute(r: Node, k: seq<Tok>, op: string, nodes: set<Node>)
      reads this`info, this`path, nodes
    {
      && r in nodes && r.path == path + k
      && op in r.endpoints && op in Get(info.table, k) && r.endpoints[op] == Get(info.table, k)[op]
    }

    /** The lookup of a path from the root. Every strict match is searched for; the route found may
        itself be a lax match. Where regexps do not compete, lax matches are not missed either. */
    method FindRoute(rctx: Context, m: Engine, op: string, path: string, ghost nodes: set<Node>)
      returns (rn: Node?, ghost k: seq<Tok>)
      requires this in nodes && TreeOk(nodes) && IsRoot()
      modifies rctx
      ensures rn == null ==> NoCandidate(info.table, m, false, op, path)
      ensures rn == null && LoneRegexps(info.table) ==> NoCandidate(info.table, m, true, op, path)
      ensures rn != null ==> FoundRoute(rn, k, op, nodes) && Candidate(info.table, m, true, op, path, k)
      ensures rn != null ==> First(info.table, m, false, op, path, k)
      ensures rn != null && LoneRegexps(info.table) ==> First(info.table, m, true, op, path, k)
      ensures rn != null ==> rctx.urlKeys == old(rctx.urlKeys) + rn.endpoints[op].keys
      ensures rn != null ==> rctx.urlValues == old(rctx.urlValues) + Match(m, true, k, path).value
      ensures rn != null ==> rctx.routePattern == rn.endpoints[op].pattern
    {
      rctx.routePattern, rctx.keys, rctx.values := "", [], [];
      rn, k := Search(rctx, m, op, path, nodes, LoneRegexps(info.table));
      LaxCovers(info.table, m, LoneRegexps(info.table), op, path, k);
      if rn == null {
        return;
      }
      ghost var ep := rn.endpoints[op];
      rctx.PushedOnEmpty(ep.keys, Match(m, true, k, path).value);
      rctx.Record(if op in rn.endpoints then rn.endpoints[op].pattern else "");
    }

    /** Looks for the route at this node and then below it, with the captures so far on the stack.
        With `lax`, which only lone regexps allow, lax matches are not missed either. */
    method Explore(rctx: Context, m: Engine, op: string, path: string, ghost nodes: set<Node>, ghost lax: bool)
      returns (r: Node?, ghost k: seq<Tok>)
      requires this in nodes && TreeOk(nodes) && (lax ==> LoneRegexps(info.table))
      modifies rctx`keys, rctx`values
      ensures r == null ==> rctx.keys == old(rctx.keys) && rctx.values == old(rctx.values) && NoHit(info.table, m, lax, op, path)
      ensures r != null ==> FoundRoute(r, k, op, nodes) && Hit(info.table, m, true, op, path, k) && FirstHit(info.table, m, lax, op, path, k)
      ensures r != null ==> rctx.Pushed(old(rctx.keys), old(rctx.values), r.endpoints[op].keys, Match(m, true, k, path).value)
      decreases |path|, if typ == NT_STATIC then 1 else 0, 3
    {
      if |path| == 0 {
        if op in endpoints && endpoints[op].handler.Some? {
          rctx.keys := rctx.keys + endpoints[op].keys;
          k := [];
          HereFirst(m, lax, op);
          return this, k;
        }
      }
      r, k := Search(rctx, m, op, path, nodes, lax);
      if r == null {
        NothingHere(m, lax, op, path);
      } else {
        FirstAnywhere(m, lax, op, path, k);
      }
    }

    /** Searches the routes below this node, group by group. */
    method Search(rctx: Context, m: Engine, op: string, path: string, ghost nodes: set<Node>, ghost lax: bool)
      returns (r: Node?, ghost k: seq<Tok>)
      requires this in nodes && TreeOk(nodes) && (lax ==> LoneRegexps(info.table))
      modifies rctx`keys, rctx`values
      ensures r == null ==> rctx.keys == old(rctx.keys) && rctx.values == old(rctx.values) && NoCandidate(info.table, m, lax, op, path)
      ensures r != null ==> FoundRoute(r, k, op, nodes) && Candidate(info.table, m, true, op, path, k) && First(info.table, m, lax, op, path, k)
      ensures r != null ==> rctx.Pushed(old(rctx.keys), old(rctx.values), r.endpoints[op].keys, Match(m, true, k, path).value)
      decreases |path|, if typ == NT_STATIC then 1 else 0, 2
    {
      assert Local();
      r, k := null, [];
      var t := 0;
      while t < 5
        invariant 0 <= t <= 5 && r == null
        invariant rctx.keys == old(rctx.keys) && rctx.values == old(rctx.values)
        invariant FromGroup(info.table, m, lax, op, path, t)
      {
        var nds := children[t];
        if |nds| == 0 {
          NoGlob(info.table, kids, m, lax, op, path, t);
          t := t + 1;
          continue;
        }
        if t == NT_STATIC {
          r, k := TryStatic(rctx, m, op, path, nodes, lax);
        } else if t == NT_PARAM || t == NT_REGEXP {
          assert typ == NT_STATIC && old(typ) == NT_STATIC;
          r, k := TryParams(t, rctx, m, op, path, nodes, lax);
        } else {
          assert typ == NT_STATIC && old(typ) == NT_STATIC;
          r, k := TryRest(rctx, m, op, path, nodes, lax);
        }
        if r != null {
          return;
        }
        t := t + 1;
      }
    }

    /** The group of literal edges. */
    method TryStatic(rctx: Context, m: Engine, op: string, path: string, ghost nodes: set<Node>, ghost lax: bool)
      returns (r: Node?, ghost k: seq<Tok>)
      requires this in nodes && TreeOk(nodes) && (lax ==> LoneRegexps(info.table)) && children[NT_STATIC] != []
      requires FromGroup(info.table, m, lax, op, path, NT_STATIC)
      modifies rctx`keys, rctx`values
      ensures r == null ==> rctx.keys == old(rctx.keys) && rctx.values == old(rctx.values) && FromGroup(info.table, m, lax, op, path, NT_REGEXP)
      ensures r != null ==> FoundRoute(r, k, op, nodes) && Candidate(info.table, m, true, op, path, k) && First(info.table, m, lax, op, path, k)
      ensures r != null ==> rctx.Pushed(old(rctx.keys), old(rctx.values), r.endpoints[op].keys, Match(m, true, k, path).value)
      decreases |path|, if typ == NT_STATIC then 1 else 0, 1
    {
      assert Local();
      var first := '\0';
      if path != "" {
        first := path[0];
      }
      r, k := null, [];
      var xn;
      ghost var i;
      xn, i := FindEdge(first, nodes);
      if xn == null || !(xn.prefix <= path) {
        NoStatic(first, xn, i, m, lax, op, path, nodes);
        return;
      }
      r, k := TakeStatic(xn, i, rctx, m, op, path, nodes, lax);
    }

    lemma NoStatic(first: char, xn: Node?, i: nat, m: Engine, lax: bool, op: string, path: string, nodes: set<Node>)
      requires Linked(nodes) && Local() && FromGroup(info.table, m, lax, op, path, NT_STATIC)
      requires path != "" ==> first == path[0]
      requires xn == null ==> forall j: nat :: Slot(kids, NT_STATIC, j) ==> kids[NT_STATIC][j].lead != first
      requires xn != null ==> Slot(kids, NT_STATIC, i) && children[NT_STATIC][i] == xn && kids[NT_STATIC][i].lead == first
      requires xn != null ==> !(xn.prefix <= path)
      ensures FromGroup(info.table, m, lax, op, path, NT_REGEXP)
    {
      if xn != null {
        assert Owns(xn, kids[NT_STATIC][i]);
      }
      StaticFailed(info.table, kids, m, lax, op, path, first, i);
    }

    /** Takes the literal edge that the path begins with. */
    method TakeStatic(xn: Node, ghost i: nat, rctx: Context, m: Engine, op: string, path: string, ghost nodes: set<Node>, ghost lax: bool)
      returns (r: Node?, ghost k: seq<Tok>)
      requires this in nodes && TreeOk(nodes) && (lax ==> LoneRegexps(info.table))
      requires FromGroup(info.table, m, lax, op, path, NT_STATIC)
      requires Slot(kids, NT_STATIC, i) && children[NT_STATIC][i] == xn && xn.prefix <= path
      modifies rctx`keys, rctx`values
      ensures r == null ==> rctx.keys == old(rctx.keys) && rctx.values == old(rctx.values) && FromGroup(info.table, m, lax, op, path, NT_REGEXP)
      ensures r != null ==> FoundRoute(r, k, op, nodes) && Candidate(info.table, m, true, op, path, k) && First(info.table, m, lax, op, path, k)
      ensures r != null ==> rctx.Pushed(old(rctx.keys), old(rctx.values), r.endpoints[op].keys, Match(m, true, k, path).value)
      decreases |path|, if typ == NT_STATIC then 1 else 0, 0
    {
      assert Local();
      assert Owns(xn, kids[NT_STATIC][i]);
      ghost var T, K := info.table, kids;
      LoneChild(NT_STATIC, i, lax);
      StaticAhead(T, K, m, lax, op, path, i);
      var rest := path[|xn.prefix|..];
      r, k := xn.Explore(rctx, m, op, rest, nodes, lax);
      if r == null {
        StaticFailed(T, K, m, lax, op, path, path[0], i);
        return;
      }
      FoundStatic(xn, i, m, lax, op, path, k);
      k := Lift(xn, NT_STATIC, i, r, k, op, nodes);
    }

    /** What is found below a static child is found here, with nothing captured on the way. */
    lemma FoundStatic(xn: Node, i: nat, m: Engine, lax: bool, op: string, path: string, rest: seq<Tok>)
      requires Local() && Slot(kids, NT_STATIC, i) && Owns(xn, kids[NT_STATIC][i]) && xn.prefix <= path
      requires AllAhead(info.table, kids, m, lax, op, path, NT_STATIC, i)
      requires Hit(kids[NT_STATIC][i].table, m, true, op, path[|xn.prefix|..], rest)
      requires FirstHit(kids[NT_STATIC][i].table, m, lax, op, path[|xn.prefix|..], rest)
      ensures var k := Edge(kids[NT_STATIC][i]) + rest;
        && Candidate(info.table, m, true, op, path, k) && First(info.table, m, lax, op, path, k)
        && Get(info.table, k) == Get(kids[NT_STATIC][i].table, rest)
        && Match(m, true, k, path).value == Match(m, true, rest, path[|xn.prefix|..]).value
    {
      FoundVia(info.table, kids, m, lax, op, path, NT_STATIC, i, |xn.prefix|, rest);
      assert Caught(kids[NT_STATIC][i], path[..|xn.prefix|]) == [];
    }

    /** A node found from a child, as found from this node. */
    lemma Lift(c: Node, t: nat, i: nat, r: Node, rest: seq<Tok>, op: string, nodes: set<Node>) returns (k: seq<Tok>)
      requires Slot(kids, t, i) && Owns(c, kids[t][i]) && c.FoundRoute(r, rest, op, nodes)
      requires Get(info.table, Edge(kids[t][i]) + rest) == Get(kids[t][i].table, rest)
      ensures k == Edge(kids[t][i]) + rest && FoundRoute(r, k, op, nodes)
    {
      k := Edge(kids[t][i]) + rest;
      assert path + k == (path + Edge(kids[t][i])) + rest;
    }

    lemma LoneChild(t: nat, i: nat, lax: bool)
      requires Local() && Slot(kids, t, i) && (lax ==> LoneRegexps(info.table))
      ensures lax ==> LoneRegexps(kids[t][i].table)
    {
      if lax {
        LoneBelow(info.table, kids, t, i);
      }
    }

    lemma HereFirst(m: Engine, lax: bool, op: string)
      requires Local() && op in endpoints && endpoints[op].handler.Some?
      ensures Hit(info.table, m, true, op, "", []) && FirstHit(info.table, m, lax, op, "", [])
    {
      forall k | Hit(info.table, m, lax, op, "", k)
        ensures NoLater([], k)
      {
      }
    }

    lemma NothingHere(m: Engine, lax: bool, op: string, path: string)
      requires Local() && NoCandidate(info.table, m, lax, op, path)
      requires path == "" ==> !(op in endpoints && endpoints[op].handler.Some?)
      ensures NoHit(info.table, m, lax, op, path)
    {
      forall k
        ensures !Hit(info.table, m, lax, op, path, k)
      {
        assert !Candidate(info.table, m, lax, op, path, k);
      }
    }

    lemma FirstAnywhere(m: Engine, lax: bool, op: string, path: string, k: seq<Tok>)
      requires Local() && First(info.table, m, lax, op, path, k)
      requires path == "" ==> !(op in endpoints && endpoints[op].handler.Some?)
      ensures FirstHit(info.table, m, lax, op, path, k)
    {
      forall k' | Hit(info.table, m, lax, op, path, k')
        ensures NoLater(k, k')
      {
        assert k' != [];
        assert Candidate(info.table, m, lax, op, path, k');
      }
    }

    lemma PieceTaken(m: Engine, path: string)
      requires Mirror() && (typ == NT_REGEXP || typ == NT_PARAM)
      ensures forall n {:trigger path[..n]} :: 0 <= n <= |path| ==>
        (Step(m, false, info, path) == Some(n) <==> Piece(m, false, Edge(info)[0], path[..n], path[n..]))
    {
      forall n | 0 <= n <= |path|
        ensures Step(m, false, info, path) == Some(n) <==> Piece(m, false, Edge(info)[0], path[..n], path[n..])
      {
        SpanExactlyWhen(m, false, Edge(info)[0], path, n);
      }
    }

    /** How many bytes a parameter takes; `None` when it cannot be taken. */
    method ParamLength(m: Engine, ntyp: NodeTyp, path: string) returns (r: Option<nat>)
      requires Mirror() && typ == ntyp && (ntyp == NT_REGEXP || ntyp == NT_PARAM) && path != ""
      ensures r == Step(m, false, info, path)
      ensures forall n {:trigger path[..n]} :: 0 <= n <= |path| ==>
        (r == Some(n) <==> Piece(m, false, Edge(info)[0], path[..n], path[n..]))
    {
      PieceTaken(m, path);
      var p := IndexOf(path, tail);
      if p < 0 {
        if tail == '/' {
          p := |path|;
        } else {
          return None;
        }
      } else if ntyp == NT_REGEXP && p == 0 {
        return None;
      }
      assert path[..|path|] == path;
      if ntyp == NT_REGEXP && rex.Some? {
        if !m(rex.value, path[..p]) {
          return None;
        }
      } else if IndexOf(path[..p], '/') != -1 {
        return None;
      }
      return Some(p);
    }

    /** One parameter child: captures its text and explores what lies behind it; when that fails the
        captured text is taken off the stack again. */
    method TakeParam(xn: Node, ghost j: nat, ntyp: NodeTyp, rctx: Context, m: Engine, op: string, path: string, ghost nodes: set<Node>, ghost lax: bool)
      returns (r: Node?, ghost k: seq<Tok>)
      requires this in nodes && TreeOk(nodes) && (lax ==> LoneRegexps(info.table)) && typ == NT_STATIC
      requires (ntyp == NT_REGEXP || ntyp == NT_PARAM) && path != ""
      requires Slot(kids, ntyp, j) && children[ntyp][j] == xn && AllAhead(info.table, kids, m, lax, op, path, ntyp, j)
      modifies rctx`keys, rctx`values
      ensures r == null ==> rctx.keys == old(rctx.keys) && rctx.values == old(rctx.values) && AllAhead(info.table, kids, m, lax, op, path, ntyp, j + 1)
      ensures r != null ==> FoundRoute(r, k, op, nodes) && Candidate(info.table, m, true, op, path, k) && First(info.table, m, lax, op, path, k)
      ensures r != null ==> rctx.Pushed(old(rctx.keys), old(rctx.values), r.endpoints[op].keys, Match(m, true, k, path).value)
      decreases |path|, 1, 0
    {
      assert Local();
      assert Owns(xn, kids[ntyp][j]);
      ghost var T, K := info.table, kids;
      LoneChild(ntyp, j, lax);
      r, k := null, [];
      var p := xn.ParamLength(m, ntyp, path);
      if p.None? {
        NextSibling(T, K, m, lax, op, path, ntyp, j);
        return;
      }
      var prevlen := |rctx.values|;
      StepLax(m, K[ntyp][j], path);
      ghost var values := rctx.values;
      rctx.values := rctx.values + [path[..p.value]];
      r, k := xn.Explore(rctx, m, op, path[p.value..], nodes, lax);
      if r == null {
        rctx.values := rctx.values[..prevlen];
        NextSibling(T, K, m, lax, op, path, ntyp, j);
        return;
      }
      FoundVia(T, K, m, lax, op, path, ntyp, j, p.value, k);
      Reassociate(values, path[..p.value], Match(m, true, k, path[p.value..]).value);
      k := Lift(xn, ntyp, j, r, k, op, nodes);
    }

    lemma UnderParameter(m: Engine, op: string, path: string, k: seq<Tok>)
      requires Local() && (typ == NT_REGEXP || typ == NT_PARAM) && path != "" && Hit(info.table, m, true, op, path, k)
      ensures path[0] == tail
    {
      BelowParameter(typ, tail, endpoints, info.table, kids, m, true, op, path, k);
    }

    lemma RetryFailed(xn: Node, j: nat, ntyp: NodeTyp, m: Engine, lax: bool, op: string, path: string)
      requires Local() && (lax ==> LoneRegexps(info.table)) && (ntyp == NT_REGEXP || ntyp == NT_PARAM) && path != ""
      requires AllAhead(info.table, kids, m, lax, op, path, ntyp, |kids[ntyp]|)
      requires Slot(kids, ntyp, j) && j == |kids[ntyp]| - 1 && Owns(xn, kids[ntyp][j])
      requires NoHit(xn.info.table, m, lax, op, path)
      ensures FromGroup(info.table, m, lax, op, path, ntyp + 1)
    {
      if lax {
        LoneGroup(info.table, kids);
      }
      RetryNone(info.table, kids, m, lax, op, path, ntyp);
    }

    /** What the retry finds below the last sibling is found here, behind an empty capture. */
    lemma FoundRetry(xn: Node, j: nat, ntyp: NodeTyp, m: Engine, lax: bool, op: string, path: string, rest: seq<Tok>)
      requires Local() && (ntyp == NT_REGEXP || ntyp == NT_PARAM) && path != ""
      requires Slot(kids, ntyp, j) && Owns(xn, kids[ntyp][j]) && xn.Local() && KidOk(kids[ntyp][j])
      requires AllAhead(info.table, kids, m, lax, op, path, ntyp, |kids[ntyp]|)
      requires Hit(kids[ntyp][j].table, m, true, op, path, rest) && FirstHit(kids[ntyp][j].table, m, lax, op, path, rest)
      ensures var k := Edge(kids[ntyp][j]) + rest;
        && Candidate(info.table, m, true, op, path, k) && First(info.table, m, lax, op, path, k)
        && Get(info.table, k) == Get(kids[ntyp][j].table, rest)
        && Match(m, true, k, path).value == [""] + Match(m, true, rest, path).value
    {
      xn.UnderParameter(m, op, path, rest);
      RetryFound(info.table, kids, m, lax, op, path, ntyp, j, rest);
      LiveVia(info.table, kids, ntyp, j, op, rest);
    }

    /** After all siblings have failed, the last one is tried once more, with an empty text. */
    method Retry(xn: Node, ghost j: nat, ntyp: NodeTyp, rctx: Context, m: Engine, op: string, path: string, ghost nodes: set<Node>, ghost lax: bool)
      returns (r: Node?, ghost k: seq<Tok>)
      requires this in nodes && TreeOk(nodes) && (lax ==> LoneRegexps(info.table)) && typ == NT_STATIC
      requires (ntyp == NT_REGEXP || ntyp == NT_PARAM) && path != ""
      requires Slot(kids, ntyp, j) && j == |kids[ntyp]| - 1 && children[ntyp][j] == xn
      requires AllAhead(info.table, kids, m, lax, op, path, ntyp, |kids[ntyp]|)
      modifies rctx`keys, rctx`values
      ensures r == null ==> rctx.keys == old(rctx.keys) && rctx.values == old(rctx.values) && FromGroup(info.table, m, lax, op, path, ntyp + 1)
      ensures r != null ==> FoundRoute(r, k, op, nodes) && Candidate(info.table, m, true, op, path, k) && First(info.table, m, lax, op, path, k)
      ensures r != null ==> rctx.Pushed(old(rctx.keys), old(rctx.values), r.endpoints[op].keys, Match(m, true, k, path).value)
      decreases |path|, 1, 0
    {
      assert Local();
      assert Owns(xn, kids[ntyp][j]) && xn.Local();
      LoneChild(ntyp, j, lax);
      ghost var values := rctx.values;
      rctx.values := rctx.values + [""];
      r, k := xn.Explore(rctx, m, op, path, nodes, lax);
      if r == null {
        if |rctx.values| > 0 {
          rctx.values := rctx.values[..|rctx.values| - 1];
        }
        RetryFailed(xn, j, ntyp, m, lax, op, path);
        return;
      }
      FoundRetry(xn, j, ntyp, m, lax, op, path, k);
      Reassociate(values, "", Match(m, true, k, path).value);
      k := Lift(xn, ntyp, j, r, k, op, nodes);
    }

    /** A group of parameter edges: the siblings in order, then the last one once more. */
    method TryParams(ntyp: NodeTyp, rctx: Context, m: Engine, op: string, path: string, ghost nodes: set<Node>, ghost lax: bool)
      returns (r: Node?, ghost k: seq<Tok>)
      requires this in nodes && TreeOk(nodes) && (lax ==> LoneRegexps(info.table)) && typ == NT_STATIC
      requires (ntyp == NT_REGEXP || ntyp == NT_PARAM) && children[ntyp] != []
      requires FromGroup(info.table, m, lax, op, path, ntyp)
      modifies rctx`keys, rctx`values
      ensures r == null ==> rctx.keys == old(rctx.keys) && rctx.values == old(rctx.values) && FromGroup(info.table, m, lax, op, path, ntyp + 1)
      ensures r != null ==> FoundRoute(r, k, op, nodes) && Candidate(info.table, m, true, op, path, k) && First(info.table, m, lax, op, path, k)
      ensures r != null ==> rctx.Pushed(old(rctx.keys), old(rctx.values), r.endpoints[op].keys, Match(m, true, k, path).value)
      decreases |path|, 1, 1
    {
      assert Local();
      var nds := children[ntyp];
      r, k := null, [];
      if path == "" {
        EmptyPath(info.table, kids, m, lax, op, ntyp);
        return;
      }
      StartGroup(info.table, kids, m, lax, op, path, ntyp);
      var j := 0;
      while j < |nds|
        invariant 0 <= j <= |nds|
        invariant rctx.keys == old(rctx.keys) && rctx.values == old(rctx.values)
        invariant AllAhead(info.table, kids, m, lax, op, path, ntyp, j)
      {
        assert Slot(kids, ntyp, j);
        r, k := TakeParam(nds[j], j, ntyp, rctx, m, op, path, nodes, lax);
        if r != null {
          return;
        }
        j := j + 1;
      }
      r, k := Retry(nds[|nds| - 1], |nds| - 1, ntyp, rctx, m, op, path, nodes, lax);
    }

    lemma RestFailed(xn: Node, m: Engine, lax: bool, op: string, path: string)
      requires Local() && Slot(kids, NT_CATCH_ALL, 0) && |kids[NT_CATCH_ALL]| == 1 && Owns(xn, kids[NT_CATCH_ALL][0])
      requires FromGroup(info.table, m, lax, op, path, NT_CATCH_ALL) && NoHit(xn.info.table, m, lax, op, "")
      ensures NoCandidate(info.table, m, lax, op, path)
    {
      assert path[|path|..] == "";
      SkipGroup(info.table, kids, m, lax, op, path, NT_CATCH_ALL);
    }

    lemma RestFound(xn: Node, m: Engine, lax: bool, op: string, path: string, rest: seq<Tok>)
      requires Local() && Slot(kids, NT_CATCH_ALL, 0) && Owns(xn, kids[NT_CATCH_ALL][0])
      requires FromGroup(info.table, m, lax, op, path, NT_CATCH_ALL)
      requires Hit(xn.info.table, m, true, op, "", rest) && FirstHit(xn.info.table, m, lax, op, "", rest)
      ensures var k := Edge(xn.info) + rest;
        && Candidate(info.table, m, true, op, path, k) && First(info.table, m, lax, op, path, k)
        && Get(info.table, k) == Get(xn.info.table, rest)
        && Match(m, true, k, path).value == [path] + Match(m, true, rest, "").value
    {
      assert path[|path|..] == "" && path[..|path|] == path;
      RestAhead(info.table, kids, m, lax, op, path);
      FoundVia(info.table, kids, m, lax, op, path, NT_CATCH_ALL, 0, |path|, rest);
    }

    /** The trailing '*'. */
    method TryRest(rctx: Context, m: Engine, op: string, path: string, ghost nodes: set<Node>, ghost lax: bool)
      returns (r: Node?, ghost k: seq<Tok>)
      requires this in nodes && TreeOk(nodes) && (lax ==> LoneRegexps(info.table)) && typ == NT_STATIC
      requires |children[NT_CATCH_ALL]| == 1
      requires FromGroup(info.table, m, lax, op, path, NT_CATCH_ALL)
      modifies rctx`keys, rctx`values
      ensures r == null ==> rctx.keys == old(rctx.keys) && rctx.values == old(rctx.values) && NoCandidate(info.table, m, lax, op, path)
      ensures r != null ==> FoundRoute(r, k, op, nodes) && Candidate(info.table, m, true, op, path, k) && First(info.table, m, lax, op, path, k)
      ensures r != null ==> rctx.Pushed(old(rctx.keys), old(rctx.values), r.endpoints[op].keys, Match(m, true, k, path).value)
      decreases |path|, 1, 1
    {
      assert Local();
      assert Slot(kids, NT_CATCH_ALL, 0);
      var xn := children[NT_CATCH_ALL][0];
      assert Owns(xn, kids[NT_CATCH_ALL][0]);
      LoneChild(NT_CATCH_ALL, 0, lax);
      ghost var values := rctx.values;
      rctx.values := rctx.values + [path];
      r, k := xn.Explore(rctx, m, op, "", nodes, lax);
      if r == null {
        if |rctx.values| > 0 {
          rctx.values := rctx.values[..|rctx.values| - 1];
        }
        assert values + [path] == rctx.values + [path];
        RestFailed(xn, m, lax, op, path);
        return;
      }
      RestFound(xn, m, lax, op, path, k);
      Reassociate(values, path, Match(m, true, k, "").value);
      k := Lift(xn, NT_CATCH_ALL, 0, r, k, op, nodes);
    }

    /** Binary search among the static children. */
    method FindEdge(lead: char, ghost nodes: set<Node>) returns (r: Node?, ghost at: nat)
      requires Linked(nodes) && Siblings(kids) && children[NT_STATIC] != []
      ensures r == null ==> forall i: nat :: Slot(kids, NT_STATIC, i) ==> kids[NT_STATIC][i].lead != lead
      ensures r != null ==> Slot(kids, NT_STATIC, at) && children[NT_STATIC][at] == r && kids[NT_STATIC][at].lead == lead
    {
      var ns := children[NT_STATIC];
      forall x: nat | x < |ns|
        ensures ns[x].lead == kids[NT_STATIC][x].lead
      {
        assert Slot(kids, NT_STATIC, x);
        assert Owns(ns[x], kids[NT_STATIC][x]);
      }
      r, at := FindLabel(ns, lead);
    }
  }

  /** What holds of all lax matches holds of all strict ones. */
  lemma CandidateLax(T: Table, m: Engine, lax: bool, op: string, path: string, k: seq<Tok>)
    requires Candidate(T, m, false, op, path, k)
    ensures Candidate(T, m, lax, op, path, k)
  {
    StrictIsLax(m, k, path);
  }

  lemma LaxCovers(T: Table, m: Engine, lax: bool, op: string, path: string, k: seq<Tok>)
    ensures NoCandidate(T, m, lax, op, path) ==> NoCandidate(T, m, false, op, path)
    ensures First(T, m, lax, op, path, k) ==> First(T, m, false, op, path, k)
  {
    if NoCandidate(T, m, lax, op, path) {
      LaxCoversNone(T, m, lax, op, path);
    }
    if First(T, m, lax, op, path, k) {
      LaxCoversFirst(T, m, lax, op, path, k);
    }
  }

  lemma LaxCoversNone(T: Table, m: Engine, lax: bool, op: string, path: string)
    requires NoCandidate(T, m, lax, op, path)
    ensures NoCandidate(T, m, false, op, path)
  {
    forall k
      ensures !Candidate(T, m, false, op, path, k)
    {
      if Candidate(T, m, false, op, path, k) {
        CandidateLax(T, m, lax, op, path, k);
      }
    }
  }

  lemma LaxCoversFirst(T: Table, m: Engine, lax: bool, op: string, path: string, k: seq<Tok>)
    requires First(T, m, lax, op, path, k)
    ensures First(T, m, false, op, path, k)
  {
    forall k' | Candidate(T, m, false, op, path, k')
      ensures NoLater(k, k')
    {
      CandidateLax(T, m, lax, op, path, k');
    }
  }

  lemma Reassociate(values: seq<string>, v: string, cs: seq<string>)
    ensures (values + [v]) + cs == values + ([v] + cs)
  {
  }

  /** Binary search for a label. */
  method FindLabel(ns: seq<Node>, lead: char) returns (r: Node?, ghost at: nat)
    requires ns != [] && forall x, y :: 0 <= x < y < |ns| ==> ns[x].lead < ns[y].lead
    ensures r == null ==> forall x :: 0 <= x < |ns| ==> ns[x].lead != lead
    ensures r != null ==> at < |ns| && ns[at] == r && r.lead == lead
  {
    var num := |ns|;
    var idx := 0;
    var i, j := 0, num - 1;
    while i <= j
      invariant 0 <= i <= num && -1 <= j < num && 0 <= idx < num
      invariant (i == num && ns[idx].lead == lead) ||
        ((forall x :: 0 <= x < i ==> ns[x].lead < lead) && (forall x :: j < x < num ==> lead < ns[x].lead))
      decreases j - i
    {
      idx := i + (j - i) / 2;
      if lead > ns[idx].lead {
        i := idx + 1;
      } else if lead < ns[idx].lead {
        j := idx - 1;
      } else {
        i := num;
      }
    }
    at := idx;
    if ns[idx].lead != lead {
      return null, at;
    }
    return ns[idx], at;
  }

  /** The parameter stacks of one lookup, and what it reports. */
  class Context {
    var keys: seq<string>
    var values: seq<string>
    var urlKeys: seq<string>
    var urlValues: seq<string>
    var routePattern: string

    constructor ()
      ensures keys == [] && values == [] && urlKeys == [] && urlValues == [] && routePattern == ""
    {
      keys, values, urlKeys, urlValues, routePattern := [], [], [], [], "";
    }

    /** Takes the captures over into the parameters of the request, and the pattern with them. */
    method Record(pattern: string)
      modifies this`urlKeys, this`urlValues, this`routePattern
      ensures urlKeys == old(urlKeys) + keys && urlValues == old(urlValues) + values
      ensures routePattern == if pattern != "" then pattern else old(routePattern)
    {
      urlKeys := urlKeys + keys;
      urlValues := urlValues + values;
      if pattern != "" {
        routePattern := pattern;
      }
    }

    /** The stacks hold what they held before and the given keys and captured values on top. */
    ghost predicate Pushed(keys0: seq<string>, values0: seq<string>, ks: seq<string>, vs: seq<string>)
      reads this`keys, this`values
    {
      keys == keys0 + ks && values == values0 + vs
    }

    lemma PushedOnEmpty(ks: seq<string>, vs: seq<string>)
      requires Pushed([], [], ks, vs)
      ensures keys == ks && values == vs
    {
    }
  }

  /** The length of the common prefix of two texts. */
  method LongestPrefix(k1: string, k2: string) returns (i: nat)
    ensures i <= |k1| && i <= |k2| && k1[..i] == k2[..i]
    ensures i < |k1| && i < |k2| ==> k1[i] != k2[i]
  {
    var n := |k1|;
    if |k2| < n {
      n := |k2|;
    }
    i := 0;
    while i < n
      invariant 0 <= i <= n && k1[..i] == k2[..i]
    {
      if k1[i] != k2[i] {
        break;
      }
      i := i + 1;
    }
  }

  /** The segment `insertRoute` looks at: only a '{' or '*' is parsed. */
  function FirstSegment(search: string): Segment
    requires search != "" && Parses(search)
  {
    if Wild(search[0]) then SegmentToks(search); NextSegment(search).value
    else Segment(NT_STATIC, "", "", '\0', 0, 0)
  }

  /** The fields of the first segment stand for the first token; a parameter is exactly one token. */
  lemma FirstToken(search: string)
    requires search != "" && Parses(search)
    ensures var g := FirstSegment(search);
      && Toks(search) != [] && Toks(search)[0] == HeadFor(g.typ, search[0], g.tail, g.re)
      && (g.typ == NT_STATIC || g.typ == NT_CATCH_ALL ==> g.tail == '\0')
      && (g.typ == NT_REGEXP || g.typ == NT_PARAM ==> search[0] == '{')
      && (g.typ == NT_CATCH_ALL ==> search[0] == '*')
      && (g.typ == NT_STATIC <==> !Wild(search[0]))
      && (g.typ != NT_STATIC ==> 0 < g.end <= |search| && Parses(search[g.end..]) && Toks(search)[1..] == Toks(search[g.end..]))
  {
    if Wild(search[0]) {
      SegmentToks(search);
      assert search[0..] == search;
      var g := FirstSegment(search);
      FirstWildIs(search, 0);
      assert Toks(search) == [HeadTok(search)] + Toks(search[g.end..]);
    } else {
      assert Toks(search)[0] == Lit(search[0]);
    }
  }

  /** Only the group of a token's own type can have a child that begins with it. */
  lemma NoEdgeAll(K: Kids, typ: NodeTyp, lead: char, tail: char, re: string)
    requires Siblings(K) && typ != NT_GLOB
    requires forall j: nat :: Slot(K, typ, j) ==> Head(K[typ][j]) != HeadFor(typ, lead, tail, re)
    ensures NoEdge(K, HeadFor(typ, lead, tail, re))
  {
  }

  /** Parses the first segment, if it is not literal text, into the fields that select an edge: they
      stand for the first token, and a parameter's text is exactly one token. */
  method ReadSegment(search: string) returns (segTyp: NodeTyp, segTail: char, segEndIdx: nat, prefix: string)
    requires search != "" && Parses(search)
    ensures Toks(search) != [] && Toks(search)[0] == HeadFor(segTyp, search[0], segTail, prefix) && segTyp != NT_GLOB
    ensures segTyp == NT_STATIC || segTyp == NT_CATCH_ALL ==> segTail == '\0'
    ensures segTyp == NT_REGEXP || segTyp == NT_PARAM ==> search[0] == '{'
    ensures segTyp == NT_CATCH_ALL ==> search[0] == '*'
    ensures segTyp == NT_STATIC <==> !Wild(search[0])
    ensures segTyp != NT_STATIC ==> 0 < segEndIdx <= |search| && Parses(search[segEndIdx..])
    ensures segTyp != NT_STATIC ==> Toks(search) == [Toks(search)[0]] + Toks(search[segEndIdx..])
  {
    FirstToken(search);
    segTyp, segTail, segEndIdx, prefix := NT_STATIC, '\0', 0, "";
    var lead := search[0];
    if lead == '{' || lead == '*' {
      var g := PatNextSegment(search);
      segTyp, segTail, segEndIdx := g.value.typ, g.value.tail, g.value.end;
      if segTyp == NT_REGEXP {
        prefix := g.value.re;
      }
      assert Toks(search) == [Toks(search)[0]] + Toks(search)[1..];
    }
  }

  lemma WholeEdge(c: Kid, search: string, cp: nat)
    requires KidOk(c) && c.typ == NT_STATIC && Parses(search)
    requires cp == |c.prefix| <= |search| && search[..cp] == c.prefix[..cp]
    ensures Parses(search[cp..]) && Toks(search) == Edge(c) + Toks(search[cp..])
  {
    assert c.prefix[..cp] == c.prefix;
    CommonText(search, c.prefix, cp);
    CutInTwo([], Toks(search), cp);
  }

  lemma CutInTwo<T>(front: seq<T>, k: seq<T>, n: nat)
    requires n <= |k|
    ensures front + k == front + k[..n] + k[n..] && k == k[..n] + k[n..] && k[..n] <= k
  {
  }

  lemma SplitText(front: seq<Tok>, search: string, prefix: string, cp: nat)
    requires Parses(search) && Plain(prefix) && cp <= |search| && cp <= |prefix| && search[..cp] == prefix[..cp]
    ensures Parses(search[cp..]) && |Toks(search)| >= cp && Lits(search[..cp]) <= Toks(search)
    ensures Toks(search)[cp..] == Toks(search[cp..]) && front + Toks(search) == front + Toks(search)[..cp] + Toks(search[cp..])
  {
    CommonText(search, prefix, cp);
    CutInTwo(front, Toks(search), cp);
  }

  /** After a split the new node's only edge begins with a byte the pattern does not have there. */
  lemma LowerOnly(K: Kids, lower: Kid, rest: string)
    requires K == NO_KIDS[NT_STATIC := [lower]] && lower.typ == NT_STATIC && !Wild(lower.lead)
    requires rest != "" && Parses(rest) && rest[0] != lower.lead
    ensures Toks(rest) != [] && NoEdge(K, Toks(rest)[0])
  {
    FirstToken(rest);
    assert Toks(rest)[0] != Lit(lower.lead);
    assert forall t: nat, j: nat :: Slot(K, t, j) ==> t == NT_STATIC && j == 0;
  }

  /** Literal text of the pattern that an edge agrees with. */
  lemma CommonText(search: string, prefix: string, cp: nat)
    requires Parses(search) && Plain(prefix) && cp <= |search| && cp <= |prefix| && search[..cp] == prefix[..cp]
    ensures Parses(search[cp..]) && |Toks(search)| >= cp
    ensures Toks(search)[cp..] == Toks(search[cp..]) && Toks(search)[..cp] == Lits(search[..cp])
  {
    assert forall j :: 0 <= j < cp ==> search[..cp][j] == prefix[j];
    SplitPlain(search, cp);
  }
}
