/** How a match of a route is divided between an edge and what lies below it: the facts the search
    of the tree rests on. */
module Searching {
  import opened Wrappers
  import opened Text
  import opened Tokens
  import opened Patterns
  import opened Tables

  /** The group of children a token is looked for in. */
  function Group(h: Tok): NodeTyp {
    match h
    case Lit(_) => NT_STATIC
    case Rex(_, _) => NT_REGEXP
    case Par(_) => NT_PARAM
    case Rest => NT_CATCH_ALL
  }

  /** How many bytes of the path an edge takes. */
  function Step(m: Engine, lax: bool, c: Kid, path: string): (r: Option<nat>)
    ensures r.Some? ==> r.value <= |path|
  {
    if c.typ == NT_STATIC then if c.prefix <= path then Some(|c.prefix|) else None
    else Span(m, lax, Head(c), path)
  }

  /** What an edge captures. */
  function Caught(c: Kid, taken: string): seq<string> {
    if c.typ == NT_STATIC then [] else [taken]
  }

  /** A route through an edge matches exactly when the edge can be taken and the rest matches. */
  lemma MatchVia(m: Engine, lax: bool, c: Kid, rest: seq<Tok>, path: string)
    requires KidOk(c)
    ensures Step(m, lax, c, path).None? ==> !Matches(m, lax, Edge(c) + rest, path)
    ensures Step(m, lax, c, path).Some? ==>
      var n := Step(m, lax, c, path).value;
      && (Matches(m, lax, Edge(c) + rest, path) <==> Matches(m, lax, rest, path[n..]))
      && (Matches(m, lax, rest, path[n..]) ==>
            Match(m, lax, Edge(c) + rest, path).value == Caught(c, path[..n]) + Match(m, lax, rest, path[n..]).value)
  {
    if c.typ == NT_STATIC {
      MatchLits(m, lax, c.prefix, rest, path);
      assert forall cs: seq<string> :: [] + cs == cs;
    } else {
      assert (Edge(c) + rest)[1..] == rest;
    }
  }

  /** What can be taken strictly can be taken laxly, with the same bytes. */
  lemma StepLax(m: Engine, c: Kid, path: string)
    requires Step(m, false, c, path).Some?
    ensures Step(m, true, c, path) == Step(m, false, c, path)
  {
  }

  lemma LiveVia(T: Table, K: Kids, t: nat, i: nat, op: string, rest: seq<Tok>)
    requires KidsOk(T, K) && Slot(K, t, i)
    ensures Live(T, op, Edge(K[t][i]) + rest) <==> Live(K[t][i].table, op, rest)
    ensures Get(T, Edge(K[t][i]) + rest) == Get(K[t][i].table, rest)
  {
    assert Get(K[t][i].table, rest) == Get(T, Edge(K[t][i]) + rest);
  }

  /** Every route below a node leads through a child. */
  lemma Leads(T: Table, K: Kids, op: string, k: seq<Tok>) returns (t: nat, i: nat, rest: seq<Tok>)
    requires KidsOk(T, K) && AllCovered(T, K) && k != [] && Live(T, op, k)
    ensures Slot(K, t, i) && k == Edge(K[t][i]) + rest
    ensures k[0] == Head(K[t][i]) && t == Group(k[0]) && Live(K[t][i].table, op, rest)
  {
    assert Covered(K, k);
    t, i :| Slot(K, t, i) && Edge(K[t][i]) <= k;
    rest := k[|Edge(K[t][i])|..];
    EdgeHead(K[t][i]);
    LiveVia(T, K, t, i, op, rest);
  }

  /** A live route of this table, the node itself included, that matches the path. */
  predicate Hit(T: Table, m: Engine, lax: bool, op: string, path: string, k: seq<Tok>) {
    Live(T, op, k) && Matches(m, lax, k, path)
  }

  ghost predicate NoHit(T: Table, m: Engine, lax: bool, op: string, path: string) {
    forall k :: !Hit(T, m, lax, op, path, k)
  }

  ghost predicate FirstHit(T: Table, m: Engine, lax: bool, op: string, path: string, k: seq<Tok>) {
    forall k' :: Hit(T, m, lax, op, path, k') ==> NoLater(k, k')
  }

  /** The candidates that are still to be looked for when the search has come to child `i` of group
      `t`: those in later groups, those behind child `i` or a later sibling and, under the lax
      reading, those that take nothing for a regexp parameter. */
  predicate Ahead(K: Kids, lax: bool, path: string, t: nat, i: nat, k: seq<Tok>)
    requires k != [] && t < 5
  {
    || Group(k[0]) > t
    || (Group(k[0]) == t && exists j: nat :: i <= j < |K[t]| && Head(K[t][j]) == k[0])
    || (lax && t == NT_REGEXP && k[0].Rex? && path != "" && path[0] == k[0].tail)
  }

  ghost predicate AllAhead(T: Table, K: Kids, m: Engine, lax: bool, op: string, path: string, t: nat, i: nat)
    requires t < 5
  {
    forall k :: Candidate(T, m, lax, op, path, k) ==> Ahead(K, lax, path, t, i, k)
  }

  /** Every candidate is in group `t` or a later one. */
  ghost predicate FromGroup(T: Table, m: Engine, lax: bool, op: string, path: string, t: nat) {
    forall k :: Candidate(T, m, lax, op, path, k) ==> Group(k[0]) >= t
  }

  lemma StartGroup(T: Table, K: Kids, m: Engine, lax: bool, op: string, path: string, t: nat)
    requires t < 5 && KidsOk(T, K) && AllCovered(T, K) && FromGroup(T, m, lax, op, path, t)
    ensures AllAhead(T, K, m, lax, op, path, t, 0)
  {
    forall k | Candidate(T, m, lax, op, path, k)
      ensures Ahead(K, lax, path, t, 0, k)
    {
      var t', i', rest := Leads(T, K, op, k);
    }
  }

  /** A child that cannot be taken, or behind which nothing matches, is passed over. */
  lemma NextSibling(T: Table, K: Kids, m: Engine, lax: bool, op: string, path: string, t: nat, i: nat)
    requires KidsOk(T, K) && HeadsDiffer(K) && AllCovered(T, K) && Slot(K, t, i)
    requires AllAhead(T, K, m, lax, op, path, t, i)
    requires Step(m, lax, K[t][i], path).Some? ==>
      || (lax && t == NT_REGEXP && Step(m, lax, K[t][i], path).value == 0)
      || NoHit(K[t][i].table, m, lax, op, path[Step(m, lax, K[t][i], path).value..])
    ensures AllAhead(T, K, m, lax, op, path, t, i + 1)
  {
    var c := K[t][i];
    forall k | Candidate(T, m, lax, op, path, k)
      ensures Ahead(K, lax, path, t, i + 1, k)
    {
      if k[0] == Head(c) {
        var t', i', rest := Leads(T, K, op, k);
        OneEdge(T, K, k, t', i', t, i);
        MatchVia(m, lax, c, rest, path);
        var s := Step(m, lax, c, path);
        assert s.Some? ==> Hit(c.table, m, lax, op, path[s.value..], rest);
      }
    }
  }

  /** What is found behind a child is found for the node, and comes first. */
  lemma FoundBehind(T: Table, K: Kids, m: Engine, lax: bool, op: string, path: string, t: nat, i: nat, n: nat, rest: seq<Tok>)
    requires KidsOk(T, K) && HeadsDiffer(K) && AllCovered(T, K) && SlashLast(K) && Slot(K, t, i)
    requires AllAhead(T, K, m, lax, op, path, t, i)
    requires Step(m, true, K[t][i], path) == Some(n)
    requires Hit(K[t][i].table, m, true, op, path[n..], rest)
    requires FirstHit(K[t][i].table, m, lax, op, path[n..], rest)
    ensures Candidate(T, m, true, op, path, Edge(K[t][i]) + rest)
    ensures First(T, m, lax, op, path, Edge(K[t][i]) + rest)
  {
    var c := K[t][i];
    var k := Edge(c) + rest;
    EdgeHead(c);
    LiveVia(T, K, t, i, op, rest);
    MatchVia(m, true, c, rest, path);
    forall k' | Candidate(T, m, lax, op, path, k')
      ensures NoLater(k, k')
    {
      var t', i', rest' := Leads(T, K, op, k');
      if t' == t && i' == i {
        MatchVia(m, lax, c, rest', path);
        StepSame(m, lax, c, path);
        assert Hit(c.table, m, lax, op, path[n..], rest');
        NoLaterShift(Edge(c), rest, rest');
      } else {
        OtherHead(T, K, t, i, t', i');
        if Group(k'[0]) == t {
          SameGroup(T, K, m, lax, path, t, i, n, i', rest');
        }
      }
    }
  }

  /** What is found behind a child, and what it captures. */
  lemma FoundVia(T: Table, K: Kids, m: Engine, lax: bool, op: string, path: string, t: nat, i: nat, n: nat, rest: seq<Tok>)
    requires KidsOk(T, K) && HeadsDiffer(K) && AllCovered(T, K) && SlashLast(K) && Slot(K, t, i)
    requires AllAhead(T, K, m, lax, op, path, t, i)
    requires Step(m, true, K[t][i], path) == Some(n)
    requires Hit(K[t][i].table, m, true, op, path[n..], rest)
    requires FirstHit(K[t][i].table, m, lax, op, path[n..], rest)
    ensures var k := Edge(K[t][i]) + rest;
      && Candidate(T, m, true, op, path, k) && First(T, m, lax, op, path, k)
      && Get(T, k) == Get(K[t][i].table, rest)
      && Match(m, true, k, path).value == Caught(K[t][i], path[..n]) + Match(m, true, rest, path[n..]).value
  {
    FoundBehind(T, K, m, lax, op, path, t, i, n, rest);
    MatchVia(m, true, K[t][i], rest, path);
    LiveVia(T, K, t, i, op, rest);
  }

  lemma StepSame(m: Engine, lax: bool, c: Kid, path: string)
    requires Step(m, lax, c, path).Some? && Step(m, true, c, path).Some?
    ensures Step(m, lax, c, path) == Step(m, true, c, path)
  {
    if !lax {
      StepLax(m, c, path);
    }
  }

  lemma OtherHead(T: Table, K: Kids, t: nat, i: nat, t': nat, i': nat)
    requires KidsOk(T, K) && HeadsDiffer(K) && Slot(K, t, i) && Slot(K, t', i') && (t' != t || i' != i)
    ensures Head(K[t][i]) != Head(K[t'][i'])
  {
  }

  /** Of two siblings through which the path can be matched, the earlier one is searched no later. */
  lemma SameGroup(T: Table, K: Kids, m: Engine, lax: bool, path: string, t: nat, i: nat, n: nat, i': nat, rest': seq<Tok>)
    requires KidsOk(T, K) && HeadsDiffer(K) && SlashLast(K)
    requires Slot(K, t, i) && Slot(K, t, i') && i != i'
    requires Step(m, true, K[t][i], path) == Some(n)
    requires Matches(m, lax, Edge(K[t][i']) + rest', path)
    requires Ahead(K, lax, path, t, i, Edge(K[t][i']) + rest')
    ensures t != NT_STATIC && Rank(Edge(K[t][i])) <= Rank(Edge(K[t][i']))
  {
  }

  // ----- the groups one by one

  /** A group none of whose children leads to a match. */
  lemma SkipGroup(T: Table, K: Kids, m: Engine, lax: bool, op: string, path: string, t: nat)
    requires t < 5 && KidsOk(T, K) && AllCovered(T, K) && FromGroup(T, m, lax, op, path, t)
    requires forall i: nat :: Slot(K, t, i) && Step(m, lax, K[t][i], path).Some? ==>
      NoHit(K[t][i].table, m, lax, op, path[Step(m, lax, K[t][i], path).value..])
    ensures FromGroup(T, m, lax, op, path, t + 1)
  {
    forall k | Candidate(T, m, lax, op, path, k)
      ensures Group(k[0]) >= t + 1
    {
      var t', i, rest := Leads(T, K, op, k);
      MatchVia(m, lax, K[t'][i], rest, path);
      var s := Step(m, lax, K[t'][i], path);
      assert s.Some? ==> Hit(K[t'][i].table, m, lax, op, path[s.value..], rest);
    }
  }

  /** The static child that begins with the next byte is the only one that matters. */
  lemma StaticAhead(T: Table, K: Kids, m: Engine, lax: bool, op: string, path: string, i: nat)
    requires KidsOk(T, K) && AllCovered(T, K) && FromGroup(T, m, lax, op, path, NT_STATIC)
    requires Slot(K, NT_STATIC, i) && K[NT_STATIC][i].prefix <= path
    ensures AllAhead(T, K, m, lax, op, path, NT_STATIC, i)
  {
    forall k | Candidate(T, m, lax, op, path, k)
      ensures Ahead(K, lax, path, NT_STATIC, i, k)
    {
      var t', i', rest := Leads(T, K, op, k);
      assert K[NT_STATIC][i].prefix[0] == path[0];
    }
  }

  /** No static child leads to a match: none has the right label, or the one that has, child `i`,
      cannot be taken or leads nowhere. */
  lemma StaticFailed(T: Table, K: Kids, m: Engine, lax: bool, op: string, path: string, first: char, i: nat)
    requires KidsOk(T, K) && HeadsDiffer(K) && AllCovered(T, K) && FromGroup(T, m, lax, op, path, NT_STATIC)
    requires path != "" ==> first == path[0]
    requires || (forall j: nat :: Slot(K, NT_STATIC, j) ==> K[NT_STATIC][j].lead != first)
      || (Slot(K, NT_STATIC, i) && K[NT_STATIC][i].lead == first && (!(K[NT_STATIC][i].prefix <= path) ||
            NoHit(K[NT_STATIC][i].table, m, lax, op, path[|K[NT_STATIC][i].prefix|..])))
    ensures FromGroup(T, m, lax, op, path, NT_REGEXP)
  {
    forall j: nat | Slot(K, NT_STATIC, j) && K[NT_STATIC][j].lead == first
      ensures !(K[NT_STATIC][j].prefix <= path) || NoHit(K[NT_STATIC][j].table, m, lax, op, path[|K[NT_STATIC][j].prefix|..])
    {
      OneStatic(K, i, j);
    }
    SkipGroup(T, K, m, lax, op, path, NT_STATIC);
  }

  lemma OneStatic(K: Kids, i: nat, j: nat)
    requires HeadsDiffer(K) && Slot(K, NT_STATIC, i) && Slot(K, NT_STATIC, j)
    requires K[NT_STATIC][i].typ == NT_STATIC && K[NT_STATIC][j].typ == NT_STATIC
    requires K[NT_STATIC][i].lead == K[NT_STATIC][j].lead
    ensures i == j
  {
  }

  /** The trailing '*' has no siblings. */
  lemma RestAhead(T: Table, K: Kids, m: Engine, lax: bool, op: string, path: string)
    requires KidsOk(T, K) && AllCovered(T, K) && FromGroup(T, m, lax, op, path, NT_CATCH_ALL)
    requires |K[NT_CATCH_ALL]| == 1
    ensures AllAhead(T, K, m, lax, op, path, NT_CATCH_ALL, 0)
  {
    StartGroup(T, K, m, lax, op, path, NT_CATCH_ALL);
  }

  /** A route below a parameter begins with the parameter's delimiter, and so does a non-empty text
      that it matches. */
  lemma BelowParameter(typ: NodeTyp, tail: char, eps: Endpoints, T: Table, K: Kids, m: Engine, lax: bool, op: string, path: string, k: seq<Tok>)
    requires NodeOk(typ, tail, eps, T, K) && (typ == NT_REGEXP || typ == NT_PARAM)
    requires path != "" && Hit(T, m, lax, op, path, k)
    ensures k != [] && k[0] == Lit(tail) && path[0] == tail
  {
    assert k != [];
    var t, i, rest := Leads(T, K, op, k);
  }

  /** After the siblings of a parameter group have failed the last one is tried once more, taking
      nothing. What that finds begins with the delimiter: a lax match. */
  lemma RetryFound(T: Table, K: Kids, m: Engine, lax: bool, op: string, path: string, t: nat, i: nat, rest: seq<Tok>)
    requires KidsOk(T, K) && HeadsDiffer(K) && AllCovered(T, K) && SlashLast(K)
    requires t == NT_REGEXP || t == NT_PARAM
    requires Slot(K, t, i) && AllAhead(T, K, m, lax, op, path, t, |K[t]|)
    requires path != "" && path[0] == K[t][i].tail
    requires Hit(K[t][i].table, m, true, op, path, rest) && FirstHit(K[t][i].table, m, lax, op, path, rest)
    ensures Candidate(T, m, true, op, path, Edge(K[t][i]) + rest)
    ensures First(T, m, lax, op, path, Edge(K[t][i]) + rest)
    ensures Match(m, true, Edge(K[t][i]) + rest, path).value == [""] + Match(m, true, rest, path).value
  {
    var c := K[t][i];
    IndexOfIs(path, c.tail, 0);
    assert path[..0] == "" && path[0..] == path;
    assert Step(m, true, c, path) == Some(0);
    assert AllAhead(T, K, m, lax, op, path, t, i);
    FoundBehind(T, K, m, lax, op, path, t, i, 0, rest);
    MatchVia(m, true, c, rest, path);
  }

  /** For a `{name}` edge that second try finds nothing new: the delimiter comes first, so the edge
      was already taken with an empty text. */
  lemma RetryRedundant(c: Kid, m: Engine, lax: bool, path: string)
    requires c.typ == NT_PARAM && path != "" && path[0] == c.tail
    ensures Step(m, lax, c, path) == Some(0) && path[0..] == path
  {
    IndexOfIs(path, c.tail, 0);
  }

  lemma RetryNone(T: Table, K: Kids, m: Engine, lax: bool, op: string, path: string, t: nat)
    requires KidsOk(T, K) && AllCovered(T, K)
    requires t == NT_REGEXP || t == NT_PARAM
    requires |K[t]| > 0 && AllAhead(T, K, m, lax, op, path, t, |K[t]|)
    requires path != "" && (lax && t == NT_REGEXP ==> |K[t]| == 1)
    requires NoHit(K[t][|K[t]| - 1].table, m, lax, op, path)
    ensures FromGroup(T, m, lax, op, path, t + 1)
  {
    if lax && t == NT_REGEXP {
      forall k | Candidate(T, m, lax, op, path, k)
        ensures Group(k[0]) > t
      {
        var t', i, rest := Leads(T, K, op, k);
        MatchVia(m, lax, K[t'][i], rest, path);
        if t' == t {
          IndexOfIs(path, K[t][0].tail, 0);
          assert path[0..] == path;
          assert Hit(K[t][0].table, m, lax, op, path, rest);
        }
      }
    }
  }

  // ----- one regexp at a time

  lemma {:induction false} RexAgreeBelow(e: seq<Tok>, a: seq<Tok>, b: seq<Tok>)
    ensures RexAgree(e + a, e + b) <==> RexAgree(a, b)
  {
    if e == [] {
      assert e + a == a && e + b == b;
    } else {
      assert (e + a)[1..] == e[1..] + a && (e + b)[1..] == e[1..] + b;
      RexAgreeBelow(e[1..], a, b);
    }
  }

  lemma LoneBelow(T: Table, K: Kids, t: nat, i: nat)
    requires KidsOk(T, K) && Slot(K, t, i) && LoneRegexps(T)
    ensures LoneRegexps(K[t][i].table)
  {
    var C, e := K[t][i].table, Edge(K[t][i]);
    forall a, b | Get(C, a) != map[] && Get(C, b) != map[]
      ensures RexAgree(a, b)
    {
      assert Get(T, e + a) != map[] && Get(T, e + b) != map[];
      RexAgreeBelow(e, a, b);
    }
  }

  lemma TwoRegexps(T: Table, c: Kid, d: Kid)
    requires c.typ == NT_REGEXP && d.typ == NT_REGEXP && Head(c) != Head(d)
    requires IsSub(T, Edge(c), c.table) && IsSub(T, Edge(d), d.table) && Used(c.table) && Used(d.table)
    ensures !LoneRegexps(T)
  {
    var a :| a in c.table && c.table[a] != map[];
    var b :| b in d.table && d.table[b] != map[];
    assert Get(c.table, a) == Get(T, Edge(c) + a) && Get(d.table, b) == Get(T, Edge(d) + b);
    assert !RexAgree(Edge(c) + a, Edge(d) + b);
  }

  lemma LoneGroup(T: Table, K: Kids)
    requires KidsOk(T, K) && HeadsDiffer(K) && LoneRegexps(T)
    ensures |K[NT_REGEXP]| <= 1
  {
    if |K[NT_REGEXP]| > 1 {
      assert Slot(K, NT_REGEXP, 0) && Slot(K, NT_REGEXP, 1);
      TwoRegexps(T, K[NT_REGEXP][0], K[NT_REGEXP][1]);
    }
  }

  /** An empty rest of the path takes no parameter. */
  lemma EmptyPath(T: Table, K: Kids, m: Engine, lax: bool, op: string, t: nat)
    requires t == NT_REGEXP || t == NT_PARAM
    requires KidsOk(T, K) && AllCovered(T, K) && FromGroup(T, m, lax, op, "", t)
    ensures FromGroup(T, m, lax, op, "", t + 1)
  {
    SkipGroup(T, K, m, lax, op, "", t);
  }

  /** No trailing '*'. */
  lemma NoGlob(T: Table, K: Kids, m: Engine, lax: bool, op: string, path: string, t: nat)
    requires t < 5 && K[t] == []
    requires KidsOk(T, K) && AllCovered(T, K) && FromGroup(T, m, lax, op, path, t)
    ensures FromGroup(T, m, lax, op, path, t + 1)
  {
    SkipGroup(T, K, m, lax, op, path, t);
  }
}
