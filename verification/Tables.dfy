/** The flat route table, and how the table of a tree node is divided among its children. */
module Tables {
  import opened Wrappers
  import opened Tokens
  import opened Patterns

  /** A handler; the router knows only which one it is. */
  datatype Handler = Handler(id: nat)

  /** What is stored for one operation at one node. A nil handler is `None`. */
  datatype Endpoint = Endpoint(handler: Option<Handler>, pattern: string, keys: seq<string>)

  type Endpoints = map<string, Endpoint>

  /** Token sequence to operation to endpoint. */
  type Table = map<seq<Tok>, Endpoints>

  function Get(T: Table, k: seq<Tok>): Endpoints {
    if k in T then T[k] else map[]
  }

  function Put(T: Table, k: seq<Tok>, op: string, ep: Endpoint): Table {
    T[k := Get(T, k)[op := ep]]
  }

  /** A route that can be found: a registration with a handler. */
  predicate Live(T: Table, op: string, k: seq<Tok>) {
    op in Get(T, k) && Get(T, k)[op].handler.Some?
  }

  // ----- searching a table

  /** A live route below a node (so not the node itself) that matches the path. */
  predicate Candidate(T: Table, m: Engine, lax: bool, op: string, path: string, k: seq<Tok>) {
    k != [] && Live(T, op, k) && Matches(m, lax, k, path)
  }

  ghost predicate NoCandidate(T: Table, m: Engine, lax: bool, op: string, path: string) {
    forall k :: !Candidate(T, m, lax, op, path, k)
  }

  /** `k` is searched no later than any matching live route. */
  ghost predicate First(T: Table, m: Engine, lax: bool, op: string, path: string, k: seq<Tok>) {
    forall k' :: Candidate(T, m, lax, op, path, k') ==> NoLater(k, k')
  }

  /** Some route is recorded in the table. */
  ghost predicate Used(T: Table) {
    exists k :: k in T && T[k] != map[]
  }

  /** Two routes never part at two different regexp parameters. */
  predicate RexAgree(a: seq<Tok>, b: seq<Tok>) {
    if a != [] && b != [] && a[0] == b[0] then RexAgree(a[1..], b[1..])
    else !(a != [] && b != [] && a[0].Rex? && b[0].Rex?)
  }

  /** No two routes of the table offer different regexp parameters at the same point. */
  ghost predicate LoneRegexps(T: Table) {
    forall a, b :: Get(T, a) != map[] && Get(T, b) != map[] ==> RexAgree(a, b)
  }

  // ----- dividing a table

  /** What a parent knows of a child: the fields that make up the edge, and the child's table. */
  datatype Kid = Kid(typ: NodeTyp, lead: char, tail: char, prefix: string, table: Table)

  function Edge(c: Kid): (e: seq<Tok>) {
    if c.typ == NT_STATIC then Lits(c.prefix)
    else if c.typ == NT_REGEXP then [Rex(c.prefix, c.tail)]
    else if c.typ == NT_PARAM then [Par(c.tail)]
    else [Rest]
  }

  predicate KidOk(c: Kid) {
    && c.typ != NT_GLOB
    && (c.typ == NT_STATIC ==>
          c.prefix != "" && c.prefix[0] == c.lead && Plain(c.prefix) && c.tail == '\0')
    && (c.typ == NT_REGEXP || c.typ == NT_PARAM ==> c.lead == '{')
    && (c.typ == NT_CATCH_ALL ==> c.lead == '*' && c.tail == '\0')
  }

  /** The first token of an edge; siblings differ in it. */
  function Head(c: Kid): Tok {
    if c.typ == NT_STATIC then Lit(c.lead)
    else if c.typ == NT_REGEXP then Rex(c.prefix, c.tail)
    else if c.typ == NT_PARAM then Par(c.tail)
    else Rest
  }

  /** `C` is the part of `P` behind the edge `e`. */
  ghost predicate IsSub(P: Table, e: seq<Tok>, C: Table) {
    forall k {:trigger Get(C, k)} :: Get(C, k) == Get(P, e + k)
  }

  /** The children of a node, one sequence per node type. */
  type Kids = ks: seq<seq<Kid>> | |ks| == 5 witness [[], [], [], [], []]

  const NO_KIDS: Kids := [[], [], [], [], []]

  predicate Slot(K: Kids, t: nat, i: nat) {
    t < 5 && i < |K[t]|
  }

  ghost predicate HeadsDiffer(K: Kids) {
    forall t: nat, i: nat, j: nat :: Slot(K, t, i) && Slot(K, t, j) && i != j ==> Head(K[t][i]) != Head(K[t][j])
  }

  ghost predicate KidsOk(T: Table, K: Kids) {
    forall t: nat, i: nat :: Slot(K, t, i) ==>
      K[t][i].typ == t && KidOk(K[t][i]) && IsSub(T, Edge(K[t][i]), K[t][i].table) && Used(K[t][i].table)
  }

  ghost predicate Covered(K: Kids, k: seq<Tok>) {
    exists t: nat, i: nat :: Slot(K, t, i) && Edge(K[t][i]) <= k
  }

  /** Every non-empty route of the table leads into a child. */
  ghost predicate AllCovered(T: Table, K: Kids) {
    forall k :: k != [] && Get(T, k) != map[] ==> Covered(K, k)
  }

  /** Static siblings are sorted by label: the condition for the binary search. */
  predicate StaticsSorted(K: Kids) {
    forall i, j :: 0 <= i < j < |K[NT_STATIC]| ==> K[NT_STATIC][i].lead < K[NT_STATIC][j].lead
  }

  /** Of the `{name}` siblings the one delimited by '/' comes last. */
  predicate SlashLast(K: Kids) {
    forall i :: 0 <= i < |K[NT_PARAM]| - 1 ==> K[NT_PARAM][i].tail != '/'
  }

  /** What may hang below a node of the given type and tail. */
  predicate BelowOk(typ: NodeTyp, tail: char, K: Kids) {
    && typ != NT_GLOB && K[NT_GLOB] == [] && |K[NT_CATCH_ALL]| <= 1
    && (typ == NT_REGEXP || typ == NT_PARAM ==>
          && K[NT_REGEXP] == [] && K[NT_PARAM] == [] && K[NT_CATCH_ALL] == []
          && forall i :: 0 <= i < |K[NT_STATIC]| ==> K[NT_STATIC][i].lead == tail)
    && (typ == NT_CATCH_ALL ==> K == NO_KIDS)
  }

  /** The representation invariant of one node with table `T`, endpoints `eps` and children `K`. */
  ghost predicate NodeOk(typ: NodeTyp, tail: char, eps: Endpoints, T: Table, K: Kids) {
    && Get(T, []) == eps
    && KidsOk(T, K)
    && HeadsDiffer(K)
    && AllCovered(T, K)
    && StaticsSorted(K)
    && SlashLast(K)
    && BelowOk(typ, tail, K)
  }

  /** A route that may be inserted below a node of the given type and tail. */
  predicate Fits(typ: NodeTyp, tail: char, k: seq<Tok>) {
    && Proper(k)
    && (typ == NT_REGEXP || typ == NT_PARAM ==> if k == [] then tail == '/' else k[0] == Lit(tail))
    && (typ == NT_CATCH_ALL ==> k == [])
  }

  lemma EdgeHead(c: Kid)
    requires KidOk(c)
    ensures Edge(c) != [] && Edge(c)[0] == Head(c)
  {
  }

  /** At most one child has an edge that `k` starts with. */
  lemma OneEdge(T: Table, K: Kids, k: seq<Tok>, t: nat, i: nat, t': nat, i': nat)
    requires KidsOk(T, K) && HeadsDiffer(K)
    requires Slot(K, t, i) && Slot(K, t', i')
    requires Edge(K[t][i]) <= k && k != [] && k[0] == Head(K[t'][i'])
    ensures t == t' && i == i'
  {
    EdgeHead(K[t][i]);
    EdgeHead(K[t'][i']);
  }

  /** The table of one child after an insertion behind its edge. */
  function Updated(K: Kids, t: nat, i: nat, rest: seq<Tok>, op: string, ep: Endpoint): (r: Kids)
    requires Slot(K, t, i)
  {
    K[t := K[t][i := K[t][i].(table := Put(K[t][i].table, rest, op, ep))]]
  }

  lemma PutUsed(T: Table, k: seq<Tok>, op: string, ep: Endpoint)
    ensures Used(Put(T, k, op, ep))
  {
    assert op in Put(T, k, op, ep)[k];
  }

  lemma SubPut(P: Table, e: seq<Tok>, C: Table, rest: seq<Tok>, op: string, ep: Endpoint)
    requires IsSub(P, e, C)
    ensures IsSub(Put(P, e + rest, op, ep), e, Put(C, rest, op, ep))
  {
    forall k
      ensures Get(Put(C, rest, op, ep), k) == Get(Put(P, e + rest, op, ep), e + k)
    {
      assert Get(C, k) == Get(P, e + k);
      assert Get(C, rest) == Get(P, e + rest);
      if e + k == e + rest {
        assert k == (e + k)[|e|..] == (e + rest)[|e|..] == rest;
      }
    }
  }

  lemma SubPutElsewhere(P: Table, e: seq<Tok>, C: Table, k0: seq<Tok>, op: string, ep: Endpoint)
    requires IsSub(P, e, C) && !(e <= k0)
    ensures IsSub(Put(P, k0, op, ep), e, C)
  {
    forall k
      ensures Get(C, k) == Get(Put(P, k0, op, ep), e + k)
    {
      assert e <= e + k;
    }
  }

  lemma UpdatedKids(T: Table, K: Kids, t: nat, i: nat, rest: seq<Tok>, op: string, ep: Endpoint)
    requires KidsOk(T, K) && HeadsDiffer(K) && Slot(K, t, i)
    ensures KidsOk(Put(T, Edge(K[t][i]) + rest, op, ep), Updated(K, t, i, rest, op, ep))
  {
    var e := Edge(K[t][i]);
    var k0 := e + rest;
    var T', K' := Put(T, k0, op, ep), Updated(K, t, i, rest, op, ep);
    EdgeHead(K[t][i]);
    forall t': nat, i': nat | Slot(K', t', i')
      ensures K'[t'][i'].typ == t' && KidOk(K'[t'][i']) && IsSub(T', Edge(K'[t'][i']), K'[t'][i'].table) && Used(K'[t'][i'].table)
    {
      assert Slot(K, t', i');
      if t' == t && i' == i {
        SubPut(T, e, K[t][i].table, rest, op, ep);
        PutUsed(K[t][i].table, rest, op, ep);
      } else {
        assert !(Edge(K[t'][i']) <= k0) by {
          if Edge(K[t'][i']) <= k0 {
            OneEdge(T, K, k0, t', i', t, i);
          }
        }
        SubPutElsewhere(T, Edge(K[t'][i']), K[t'][i'].table, k0, op, ep);
      }
    }
  }

  lemma UpdatedHeads(K: Kids, t: nat, i: nat, rest: seq<Tok>, op: string, ep: Endpoint)
    requires HeadsDiffer(K) && Slot(K, t, i)
    ensures HeadsDiffer(Updated(K, t, i, rest, op, ep))
  {
    var K' := Updated(K, t, i, rest, op, ep);
    forall t': nat, i1: nat, i2: nat | Slot(K', t', i1) && Slot(K', t', i2) && i1 != i2
      ensures Head(K'[t'][i1]) != Head(K'[t'][i2])
    {
      assert Slot(K, t', i1) && Slot(K, t', i2);
    }
  }

  lemma UpdatedCovered(T: Table, K: Kids, t: nat, i: nat, rest: seq<Tok>, op: string, ep: Endpoint)
    requires AllCovered(T, K) && Slot(K, t, i)
    ensures AllCovered(Put(T, Edge(K[t][i]) + rest, op, ep), Updated(K, t, i, rest, op, ep))
  {
    var k0 := Edge(K[t][i]) + rest;
    var T', K' := Put(T, k0, op, ep), Updated(K, t, i, rest, op, ep);
    forall k | k != [] && Get(T', k) != map[]
      ensures Covered(K', k)
    {
      if k == k0 {
        assert Slot(K', t, i) && Edge(K'[t][i]) <= k;
      } else {
        assert Covered(K, k);
        var t': nat, i': nat :| Slot(K, t', i') && Edge(K[t'][i']) <= k;
        assert Slot(K', t', i') && Edge(K'[t'][i']) <= k;
      }
    }
  }

  /** Inserting into the child that a route leads to keeps the parent's invariant. */
  lemma InsertBelow(typ: NodeTyp, tail: char, eps: Endpoints, T: Table, K: Kids,
                    t: nat, i: nat, rest: seq<Tok>, op: string, ep: Endpoint)
    requires NodeOk(typ, tail, eps, T, K) && Slot(K, t, i)
    ensures NodeOk(typ, tail, eps, Put(T, Edge(K[t][i]) + rest, op, ep), Updated(K, t, i, rest, op, ep))
  {
    EdgeHead(K[t][i]);
    UpdatedKids(T, K, t, i, rest, op, ep);
    UpdatedHeads(K, t, i, rest, op, ep);
    UpdatedCovered(T, K, t, i, rest, op, ep);
  }

  /** A table that holds a single route. */
  function Single(k: seq<Tok>, op: string, ep: Endpoint): Table {
    Put(map[], k, op, ep)
  }

  /** `K'` has the children `K` and the new child `c` in group `c.typ`, in any order. */
  ghost predicate Added(K: Kids, K': Kids, c: Kid) {
    && (forall t: nat :: t < 5 && t != c.typ ==> K'[t] == K[t])
    && (forall x :: x in K'[c.typ] <==> x in K[c.typ] || x == c)
    && HeadsDiffer(K')
    && StaticsSorted(K')
    && SlashLast(K')
  }

  /** No child begins with the token `h`. */
  ghost predicate NoEdge(K: Kids, h: Tok) {
    forall t: nat, i: nat :: Slot(K, t, i) ==> Head(K[t][i]) != h
  }

  /** The new child of `K'` and the old children have a slot each. */
  lemma AddedSlots(K: Kids, K': Kids, c: Kid, t: nat, i: nat) returns (i': nat)
    requires Added(K, K', c) && Slot(K, t, i)
    ensures Slot(K', t, i') && K'[t][i'] == K[t][i]
  {
    if t == c.typ {
      assert K[t][i] in K'[t];
      i' :| 0 <= i' < |K'[t]| && K'[t][i'] == K[t][i];
    } else {
      i' := i;
    }
  }

  /** Adding a child for a route that no child leads to keeps the invariant. */
  lemma InsertNew(typ: NodeTyp, tail: char, eps: Endpoints, T: Table, K: Kids, K': Kids,
                  c: Kid, rest: seq<Tok>, op: string, ep: Endpoint)
    requires NodeOk(typ, tail, eps, T, K)
    requires KidOk(c) && c.table == Single(rest, op, ep)
    requires NoEdge(K, Head(c)) && Added(K, K', c)
    requires Fits(typ, tail, Edge(c) + rest)
    ensures NodeOk(typ, tail, eps, Put(T, Edge(c) + rest, op, ep), K')
  {
    var e := Edge(c);
    var k0 := e + rest;
    var T' := Put(T, k0, op, ep);
    EdgeHead(c);
    forall t: nat, i: nat | Slot(K', t, i)
      ensures K'[t][i].typ == t && KidOk(K'[t][i]) && IsSub(T', Edge(K'[t][i]), K'[t][i].table) && Used(K'[t][i].table)
    {
      var d := K'[t][i];
      if d == c {
        NewSub(T, K, c, rest, op, ep);
        PutUsed(map[], rest, op, ep);
      } else {
        assert d in K[t];
        var j :| 0 <= j < |K[t]| && K[t][j] == d;
        assert Slot(K, t, j);
        EdgeHead(d);
        SubPutElsewhere(T, Edge(d), d.table, k0, op, ep);
      }
    }
    forall k | k != [] && Get(T', k) != map[]
      ensures Covered(K', k)
    {
      if k == k0 {
        assert c in K'[c.typ];
        var i :| 0 <= i < |K'[c.typ]| && K'[c.typ][i] == c;
        assert Slot(K', c.typ, i) && Edge(K'[c.typ][i]) <= k;
      } else {
        assert Covered(K, k);
        var t: nat, i: nat :| Slot(K, t, i) && Edge(K[t][i]) <= k;
        var i' := AddedSlots(K, K', c, t, i);
        assert Slot(K', t, i') && Edge(K'[t][i']) <= k;
      }
    }
    AddedBelow(typ, tail, K, K', c, rest);
  }

  lemma InsertUnder(typ: NodeTyp, tail: char, eps: Endpoints, T: Table, K: Kids, K': Kids,
                    c: Kid, k: seq<Tok>, op: string, ep: Endpoint)
    requires NodeOk(typ, tail, eps, T, K)
    requires KidOk(c) && Edge(c) <= k && c.table == Single(k[|Edge(c)|..], op, ep)
    requires k != [] && NoEdge(K, k[0]) && Added(K, K', c) && Fits(typ, tail, k)
    ensures NodeOk(typ, tail, eps, Put(T, k, op, ep), K')
  {
    EdgeHead(c);
    assert k == Edge(c) + k[|Edge(c)|..];
    InsertNew(typ, tail, eps, T, K, K', c, k[|Edge(c)|..], op, ep);
  }

  lemma NotCovered(T: Table, K: Kids, k: seq<Tok>)
    requires KidsOk(T, K) && k != [] && NoEdge(K, k[0])
    ensures !Covered(K, k)
  {
    forall t: nat, i: nat | Slot(K, t, i)
      ensures !(Edge(K[t][i]) <= k)
    {
      EdgeHead(K[t][i]);
    }
  }

  lemma NewSub(T: Table, K: Kids, c: Kid, rest: seq<Tok>, op: string, ep: Endpoint)
    requires KidsOk(T, K) && AllCovered(T, K) && NoEdge(K, Head(c)) && KidOk(c)
    ensures IsSub(Put(T, Edge(c) + rest, op, ep), Edge(c), Single(rest, op, ep))
  {
    var e := Edge(c);
    EdgeHead(c);
    forall k
      ensures Get(T, e + k) == map[]
    {
      assert (e + k)[0] == Head(c);
      NotCovered(T, K, e + k);
    }
    assert IsSub(T, e, map[]);
    SubPut(T, e, map[], rest, op, ep);
  }

  lemma AddedBelow(typ: NodeTyp, tail: char, K: Kids, K': Kids, c: Kid, rest: seq<Tok>)
    requires BelowOk(typ, tail, K) && Added(K, K', c) && KidOk(c)
    requires NoEdge(K, Head(c)) && Fits(typ, tail, Edge(c) + rest)
    requires forall t: nat, i: nat :: Slot(K, t, i) ==> K[t][i].typ == t
    ensures BelowOk(typ, tail, K')
  {
    EdgeHead(c);
    assert (Edge(c) + rest)[0] == Head(c);
    if c.typ == NT_CATCH_ALL {
      assert Slot(K, NT_CATCH_ALL, 0) <==> K[NT_CATCH_ALL] != [];
      forall i | 0 <= i < |K'[NT_CATCH_ALL]|
        ensures K'[NT_CATCH_ALL][i] == c
      {
        assert K'[NT_CATCH_ALL][i] in K'[NT_CATCH_ALL];
      }
      assert Slot(K', NT_CATCH_ALL, 0) && Slot(K', NT_CATCH_ALL, 1) <==> |K'[NT_CATCH_ALL]| > 1;
    }
    if typ == NT_REGEXP || typ == NT_PARAM {
      forall i | 0 <= i < |K'[NT_STATIC]|
        ensures K'[NT_STATIC][i].lead == tail
      {
        assert K'[NT_STATIC][i] in K'[NT_STATIC];
      }
    }
  }

  // ----- splitting an edge

  /** The table of a node inserted above `C`, `e` away from it. */
  function Behind(e: seq<Tok>, C: Table): (r: Table)
    ensures IsSub(r, e, C)
    ensures forall k :: !(e <= k) ==> Get(r, k) == map[]
  {
    assert forall k: seq<Tok> {:trigger e + k} :: (e + k)[|e|..] == k;
    var r: Table := map k | k in C :: (e + k) := C[k];
    assert IsSub(r, e, C) by {
      forall k
        ensures Get(C, k) == Get(r, e + k)
      {
        assert (e + k)[|e|..] == k;
      }
    }
    r
  }

  /** The static child `c`, cut after its first `n` bytes: the upper half, */
  function Upper(c: Kid, n: nat): Kid
    requires c.typ == NT_STATIC && 0 < n < |c.prefix|
  {
    Kid(NT_STATIC, c.lead, '\0', c.prefix[..n], Behind(Lits(c.prefix[n..]), c.table))
  }

  /** and the lower half. */
  function Lower(c: Kid, n: nat): Kid
    requires c.typ == NT_STATIC && 0 < n < |c.prefix|
  {
    c.(lead := c.prefix[n], prefix := c.prefix[n..])
  }

  lemma UpperSub(T: Table, K: Kids, i: nat, n: nat)
    requires KidsOk(T, K) && HeadsDiffer(K) && AllCovered(T, K)
    requires Slot(K, NT_STATIC, i) && 0 < n < |K[NT_STATIC][i].prefix|
    ensures var u := Upper(K[NT_STATIC][i], n); KidOk(u) && IsSub(T, Edge(u), u.table) && Used(u.table)
  {
    var c := K[NT_STATIC][i];
    var u := Upper(c, n);
    UpperUsed(c, n);
    var a, b := Lits(c.prefix[..n]), Lits(c.prefix[n..]);
    assert a + b == Edge(c) by {
      assert c.prefix[..n] + c.prefix[n..] == c.prefix;
    }
    forall k
      ensures Get(u.table, k) == Get(T, a + k)
    {
      if b <= k {
        var k' := k[|b|..];
        assert k == b + k' && a + k == Edge(c) + k';
        assert Get(c.table, k') == Get(T, Edge(c) + k');
      } else {
        UpperGap(T, K, i, n, k);
      }
    }
    assert forall j :: 0 <= j < n ==> c.prefix[..n][j] == c.prefix[j];
  }

  lemma UpperUsed(c: Kid, n: nat)
    requires c.typ == NT_STATIC && 0 < n < |c.prefix| && Used(c.table)
    ensures Used(Upper(c, n).table)
  {
    var k0 :| k0 in c.table && c.table[k0] != map[];
    var k := Lits(c.prefix[n..]) + k0;
    assert Get(c.table, k0) == Get(Upper(c, n).table, k);
    assert k in Upper(c, n).table;
  }

  /** No route branches off inside an edge. */
  lemma UpperGap(T: Table, K: Kids, i: nat, n: nat, k: seq<Tok>)
    requires KidsOk(T, K) && HeadsDiffer(K) && AllCovered(T, K)
    requires Slot(K, NT_STATIC, i) && 0 < n < |K[NT_STATIC][i].prefix|
    requires !(Lits(K[NT_STATIC][i].prefix[n..]) <= k)
    ensures Get(T, Lits(K[NT_STATIC][i].prefix[..n]) + k) == map[]
  {
    var c := K[NT_STATIC][i];
    var a, b := Lits(c.prefix[..n]), Lits(c.prefix[n..]);
    var k1 := a + k;
    EdgeHead(c);
    assert k1[0] == Head(c);
    assert Edge(c) == a + b by {
      assert c.prefix[..n] + c.prefix[n..] == c.prefix;
    }
    assert !(Edge(c) <= k1) by {
      assert k == k1[n..] && b == Edge(c)[n..];
    }
    forall t: nat, j: nat | Slot(K, t, j)
      ensures !(Edge(K[t][j]) <= k1)
    {
      if Edge(K[t][j]) <= k1 {
        OneEdge(T, K, k1, t, j, NT_STATIC, i);
      }
    }
    assert !Covered(K, k1);
  }

  /** Replacing a child by its upper half keeps the parent's invariant. */
  lemma SplitParent(typ: NodeTyp, tail: char, eps: Endpoints, T: Table, K: Kids, i: nat, n: nat)
    requires NodeOk(typ, tail, eps, T, K)
    requires Slot(K, NT_STATIC, i) && 0 < n < |K[NT_STATIC][i].prefix|
    ensures NodeOk(typ, tail, eps, T, WithStatic(K, i, Upper(K[NT_STATIC][i], n)))
  {
    var c := K[NT_STATIC][i];
    var u := Upper(c, n);
    var K' := WithStatic(K, i, u);
    UpperSub(T, K, i, n);
    forall t: nat, j: nat | Slot(K', t, j)
      ensures K'[t][j].typ == t && KidOk(K'[t][j]) && IsSub(T, Edge(K'[t][j]), K'[t][j].table) && Used(K'[t][j].table)
    {
      assert Slot(K, t, j);
    }
    UpperHeads(K, i, n);
    forall k | k != [] && Get(T, k) != map[]
      ensures Covered(K', k)
    {
      assert Covered(K, k);
      UpperCovered(K, i, n, k);
    }
  }

  lemma UpperHeads(K: Kids, i: nat, n: nat)
    requires Slot(K, NT_STATIC, i) && K[NT_STATIC][i].typ == NT_STATIC && 0 < n < |K[NT_STATIC][i].prefix|
    requires KidOk(K[NT_STATIC][i]) && HeadsDiffer(K)
    ensures HeadsDiffer(WithStatic(K, i, Upper(K[NT_STATIC][i], n)))
  {
    var K' := WithStatic(K, i, Upper(K[NT_STATIC][i], n));
    forall t: nat, j1: nat, j2: nat | Slot(K', t, j1) && Slot(K', t, j2) && j1 != j2
      ensures Head(K'[t][j1]) != Head(K'[t][j2])
    {
      assert Slot(K, t, j1) && Slot(K, t, j2);
    }
  }

  /** A shorter edge covers at least as much. */
  lemma UpperCovered(K: Kids, i: nat, n: nat, k: seq<Tok>)
    requires Slot(K, NT_STATIC, i) && KidOk(K[NT_STATIC][i]) && K[NT_STATIC][i].typ == NT_STATIC
    requires 0 < n < |K[NT_STATIC][i].prefix| && Covered(K, k)
    ensures Covered(WithStatic(K, i, Upper(K[NT_STATIC][i], n)), k)
  {
    var c := K[NT_STATIC][i];
    var u := Upper(c, n);
    var K' := WithStatic(K, i, u);
    var t: nat, j: nat :| Slot(K, t, j) && Edge(K[t][j]) <= k;
    assert Edge(u) <= Edge(c);
    assert Slot(K', t, j) && Edge(K'[t][j]) <= k;
  }

  /** The node inserted by a split has the lower half as its only child. */
  lemma SplitMiddle(c: Kid, n: nat)
    requires KidOk(c) && c.typ == NT_STATIC && 0 < n < |c.prefix| && Used(c.table)
    ensures NodeOk(NT_STATIC, '\0', map[], Upper(c, n).table, NO_KIDS[NT_STATIC := [Lower(c, n)]])
  {
    var K := NO_KIDS[NT_STATIC := [Lower(c, n)]];
    var T := Upper(c, n).table;
    assert Edge(Lower(c, n)) == Lits(c.prefix[n..]);
    forall k | k != [] && Get(T, k) != map[]
      ensures Covered(K, k)
    {
      assert Slot(K, NT_STATIC, 0) && Edge(K[NT_STATIC][0]) <= k;
    }
    assert forall t: nat, j: nat :: Slot(K, t, j) ==> t == NT_STATIC && j == 0;
  }

  /** Setting an endpoint of the node itself. */
  lemma InsertHere(typ: NodeTyp, tail: char, eps: Endpoints, T: Table, K: Kids, op: string, ep: Endpoint)
    requires NodeOk(typ, tail, eps, T, K)
    ensures NodeOk(typ, tail, eps[op := ep], Put(T, [], op, ep), K)
  {
    forall t: nat, i: nat | Slot(K, t, i)
      ensures K[t][i].typ == t && KidOk(K[t][i]) && IsSub(Put(T, [], op, ep), Edge(K[t][i]), K[t][i].table) && Used(K[t][i].table)
    {
      EdgeHead(K[t][i]);
      SubPutElsewhere(T, Edge(K[t][i]), K[t][i].table, [], op, ep);
    }
  }

  /** The only child of a new node. */
  lemma OnlyChild(K: Kids, c: Kid)
    requires Added(NO_KIDS, K, c) && c.typ != NT_GLOB
    ensures K == NO_KIDS[c.typ := [c]]
  {
    var g := K[c.typ];
    assert c in g;
    forall i | 0 <= i < |g|
      ensures g[i] == c
    {
      assert g[i] in g;
    }
    assert Slot(K, c.typ, 0) && Slot(K, c.typ, 1) <==> |g| > 1;
    assert g == [c];
    assert K == NO_KIDS[c.typ := [c]];
  }

  /** The first token of the edge that a node type, label, tail and regexp stand for. */
  function HeadFor(typ: NodeTyp, lead: char, tail: char, re: string): Tok {
    Head(Kid(typ, lead, tail, re, map[]))
  }

  /** The fields `getEdge` compares are those that make up the first token. */
  lemma HeadMatch(c: Kid, lead: char, tail: char, re: string)
    requires KidOk(c)
    requires c.typ == NT_STATIC || c.typ == NT_CATCH_ALL ==> tail == '\0'
    requires c.typ == NT_REGEXP || c.typ == NT_PARAM ==> lead == '{'
    requires c.typ == NT_CATCH_ALL ==> lead == '*'
    ensures Head(c) == HeadFor(c.typ, lead, tail, re) <==>
      c.lead == lead && c.tail == tail && (c.typ == NT_REGEXP ==> c.prefix == re)
  {
  }

  /** What follows an edge fits below the child. */
  lemma FitsBelow(typ: NodeTyp, tail: char, c: Kid, rest: seq<Tok>)
    requires KidOk(c) && Fits(typ, tail, Edge(c) + rest)
    ensures Fits(c.typ, c.tail, rest)
  {
    var k := Edge(c) + rest;
    ProperSuffix(Edge(c), rest);
    if c.typ != NT_STATIC {
      assert k[0] == Edge(c)[0] && k[1..] == rest;
      if rest != [] {
        assert k[1] == rest[0];
      }
    }
  }

  /** Replacing one static child. */
  function WithStatic(K: Kids, i: nat, c: Kid): Kids
    requires Slot(K, NT_STATIC, i)
  {
    K[NT_STATIC := K[NT_STATIC][i := c]]
  }

  lemma WithStaticTwice(K: Kids, i: nat, c: Kid, d: Kid)
    requires Slot(K, NT_STATIC, i)
    ensures Slot(WithStatic(K, i, c), NT_STATIC, i) && WithStatic(K, i, c)[NT_STATIC][i] == c
    ensures WithStatic(WithStatic(K, i, c), i, d) == WithStatic(K, i, d)
  {
    assert K[NT_STATIC][i := c][i := d] == K[NT_STATIC][i := d];
  }

  /** The middle node of a split that takes over the insertion of `rest`. */
  function SplitKid(c: Kid, n: nat, rest: seq<Tok>, op: string, ep: Endpoint): Kid
    requires c.typ == NT_STATIC && 0 < n < |c.prefix|
  {
    Upper(c, n).(table := Put(Upper(c, n).table, rest, op, ep))
  }

  /** Inserting below a child that has just been replaced. */
  lemma ReplaceInsert(typ: NodeTyp, tail: char, eps: Endpoints, T: Table, K: Kids, i: nat, u: Kid, rest: seq<Tok>, op: string, ep: Endpoint)
    requires Slot(K, NT_STATIC, i) && NodeOk(typ, tail, eps, T, WithStatic(K, i, u))
    ensures NodeOk(typ, tail, eps, Put(T, Edge(u) + rest, op, ep), WithStatic(K, i, u.(table := Put(u.table, rest, op, ep))))
  {
    var v := u.(table := Put(u.table, rest, op, ep));
    WithStaticTwice(K, i, u, v);
    InsertBelow(typ, tail, eps, T, WithStatic(K, i, u), NT_STATIC, i, rest, op, ep);
    assert Updated(WithStatic(K, i, u), NT_STATIC, i, rest, op, ep) == WithStatic(WithStatic(K, i, u), i, v);
  }

  /** Splitting an edge and inserting below the new middle node keeps the parent's invariant. */
  lemma SplitInsert(typ: NodeTyp, tail: char, eps: Endpoints, T: Table, K: Kids, i: nat, n: nat, k: seq<Tok>, op: string, ep: Endpoint)
    requires NodeOk(typ, tail, eps, T, K)
    requires Slot(K, NT_STATIC, i) && 0 < n < |K[NT_STATIC][i].prefix|
    requires Lits(K[NT_STATIC][i].prefix[..n]) <= k
    ensures NodeOk(typ, tail, eps, Put(T, k, op, ep), WithStatic(K, i, SplitKid(K[NT_STATIC][i], n, k[n..], op, ep)))
  {
    var u, rest := Upper(K[NT_STATIC][i], n), k[n..];
    assert Edge(u) + rest == k;
    assert SplitKid(K[NT_STATIC][i], n, rest, op, ep) == u.(table := Put(u.table, rest, op, ep));
    SplitParent(typ, tail, eps, T, K, i, n);
    ReplaceInsert(typ, tail, eps, T, K, i, u, rest, op, ep);
  }

  /** The two halves of a split edge are edges, and the insertion fits below the middle node. */
  lemma SplitHalves(typ: NodeTyp, tail: char, c: Kid, n: nat, k: seq<Tok>)
    requires KidOk(c) && c.typ == NT_STATIC && 0 < n < |c.prefix|
    requires Lits(c.prefix[..n]) <= k && Fits(typ, tail, k)
    ensures KidOk(Upper(c, n)) && KidOk(Lower(c, n)) && Fits(NT_STATIC, '\0', k[n..])
    ensures Edge(Upper(c, n)) + Edge(Lower(c, n)) == Edge(c) && Edge(Upper(c, n)) == k[..n]
  {
    var u := Upper(c, n);
    assert forall j :: 0 <= j < |c.prefix| - n ==> c.prefix[n..][j] == c.prefix[j + n];
    assert forall j :: 0 <= j < n ==> c.prefix[..n][j] == c.prefix[j];
    assert Edge(u) + k[n..] == k;
    FitsBelow(typ, tail, u, k[n..]);
  }

  /** A split as seen from outside: the middle node `u`, and its table `U` before the insertion. */
  lemma SplitPure(typ: NodeTyp, tail: char, eps: Endpoints, T: Table, K: Kids, i: nat, n: nat, k: seq<Tok>, op: string, ep: Endpoint)
    returns (u: Kid, U: Table)
    requires NodeOk(typ, tail, eps, T, K) && Fits(typ, tail, k)
    requires Slot(K, NT_STATIC, i) && 0 < n < |K[NT_STATIC][i].prefix|
    requires Lits(K[NT_STATIC][i].prefix[..n]) <= k
    ensures var c := K[NT_STATIC][i];
      && c.typ == NT_STATIC
      && u == Kid(NT_STATIC, c.lead, '\0', c.prefix[..n], Put(U, k[n..], op, ep))
      && NodeOk(typ, tail, eps, Put(T, k, op, ep), WithStatic(K, i, u))
      && NodeOk(NT_STATIC, '\0', map[], U, NO_KIDS[NT_STATIC := [Lower(c, n)]])
      && KidOk(u) && KidOk(Lower(c, n)) && Fits(NT_STATIC, '\0', k[n..])
      && Edge(u) == k[..n] && Edge(u) + Edge(Lower(c, n)) == Edge(c)
  {
    var c := K[NT_STATIC][i];
    U := Upper(c, n).table;
    u := SplitKid(c, n, k[n..], op, ep);
    SplitInsert(typ, tail, eps, T, K, i, n, k, op, ep);
    SplitMiddle(c, n);
    SplitHalves(typ, tail, c, n, k);
  }
}
