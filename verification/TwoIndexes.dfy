/** The router answers requests from the radix tree, while the transports navigate the component tree.
    When both find a route, they find the same one. */
module TwoIndexes {
  import opened Wrappers
  import opened Text
  import opened Tokens
  import opened Patterns
  import opened Tables
  import opened Segments
  import opened Globs
  import opened Routers
  import opened Listing
  import opened Components
  import opened Trees
  import opened Navigation

  // ----- the component tree of a router

  /** The entry is an active registration. */
  ghost predicate Registered(log: seq<Reg>, e: Entry)
    requires ValidLog(log)
  {
    exists i: nat :: Active(log, i) && log[i] == Reg(e.op, e.pattern, Some(e.handler))
  }

  lemma InTableIsActive(log: seq<Reg>, op: string, p: string, h: Handler)
    requires ValidLog(log)
    ensures InTable(Replay(log), op, p, h) <==> Registered(log, Entry(op, p, h))
  {
    var T := Replay(log);
    if InTable(T, op, p, h) {
      var k :| LiveAt(Get(T, k), op, p, h);
      var i := LiveIsActive(log, op, k);
      assert log[i] == Reg(op, p, Some(h));
    }
    if Registered(log, Entry(op, p, h)) {
      var i: nat :| Active(log, i) && log[i] == Reg(op, p, Some(h));
      ActiveIsLive(log, i);
      assert LiveAt(Get(T, Toks(p)), op, p, h);
    }
  }

  lemma {:induction false} ReplayBounded(log: seq<Reg>) returns (bound: nat)
    requires ValidLog(log)
    ensures Bounded(Replay(log), bound)
  {
    if log == [] {
      bound := 0;
    } else {
      var n := |log| - 1;
      bound := ReplayBounded(log[..n]);
      if |Toks(log[n].pattern)| > bound {
        bound := |Toks(log[n].pattern)|;
      }
    }
  }

  lemma ReplayPatterns(log: seq<Reg>)
    requires ValidLog(log)
    ensures PatternsOk(Replay(log), [])
  {
    forall k, op | op in Get(Replay(log), k)
      ensures var p := Get(Replay(log), k)[op].pattern; Parses(p) && p != "" && Toks(p) == [] + k
    {
      ReplayHolds(log, op, k);
      LastIs(log, op, k);
    }
  }

  /** The component tree of the routes registered so far: it depends on the active registrations only. */
  method GetTree(r: Router) returns (root: TreeNode, ghost at: Places, ghost V: Values, ghost order: seq<Entry>)
    requires r.Ok()
    ensures fresh(at.Values) && Shows(at, V) && Named(V) && Built(V, order) && [] in at && root == at[[]]
    ensures NoRepeats(order) && forall e :: e in order <==> Registered(r.log, e)
  {
    ghost var bound := ReplayBounded(r.log);
    ReplayPatterns(r.log);
    ghost var log := r.log;
    var routes := Walk(r.tree, r.nodes, bound);
    var handlers := HandlerMap(routes);
    root, at, V, order := BuildTree(handlers);
    BuiltNamed(V, order);
    forall e ensures e in order <==> Registered(log, e) {
      InTableIsActive(log, e.op, e.pattern, e.handler);
    }
  }

  /** No two active registrations have patterns with the same components. */
  ghost predicate OnePattern(log: seq<Reg>)
    requires ValidLog(log)
  {
    forall e, f :: Registered(log, e) && Registered(log, f) && SplitPath(e.pattern) == SplitPath(f.pattern) ==> e.pattern == f.pattern
  }

  lemma OneHandler(log: seq<Reg>, e: Entry, f: Entry)
    requires ValidLog(log) && Registered(log, e) && Registered(log, f) && e.op == f.op && e.pattern == f.pattern
    ensures e == f
  {
    var i: nat :| Active(log, i) && log[i] == Reg(e.op, e.pattern, Some(e.handler));
    var j: nat :| Active(log, j) && log[j] == Reg(f.op, f.pattern, Some(f.handler));
    assert Same(log[i], log[j]) && Same(log[j], log[i]);
  }

  /** The component tree depends only on the active registrations, not on the history that led to them
      nor on the order in which the maps were visited. */
  lemma TreeOfActiveRoutes(log: seq<Reg>, log': seq<Reg>, at: Places, V: Values, order: seq<Entry>,
                           at': Places, V': Values, order': seq<Entry>)
    requires ValidLog(log) && ValidLog(log') && OnePattern(log)
    requires forall e :: Registered(log, e) <==> Registered(log', e)
    requires Shows(at, V) && Built(V, order) && NoRepeats(order) && forall e :: e in order <==> Registered(log, e)
    requires Shows(at', V') && Built(V', order') && NoRepeats(order') && forall e :: e in order' <==> Registered(log', e)
    ensures SameTree(at, at')
  {
    forall e, f | e in Routes(order) && f in Routes(order) && e.op == f.op && e.pattern == f.pattern
      ensures e == f
    {
      OneHandler(log, e, f);
    }
    assert Routes(order) == Routes(order');
    ValuesAgree(V, order, V', order');
    SameShown(at, at', V);
  }

  lemma CompetesElsewhere(log: seq<Reg>, log': seq<Reg>, m: Engine, lax: bool, op: string, path: string, i: nat) returns (i': nat)
    requires ValidLog(log) && ValidLog(log') && forall e :: Registered(log, e) <==> Registered(log', e)
    requires Competes(log, m, lax, op, path, i)
    ensures Competes(log', m, lax, op, path, i') && log'[i'] == log[i]
  {
    var e := Entry(op, log[i].pattern, log[i].handler.value);
    assert Registered(log, e);
    i' :| Active(log', i') && log'[i'] == Reg(e.op, e.pattern, Some(e.handler));
  }

  /** A lookup depends only on the active registrations: what one history allows as an answer, every
      other history with the same active registrations allows too. */
  lemma AnswerElsewhere(log: seq<Reg>, log': seq<Reg>, m: Engine, op: string, path: string, found: bool, i: nat,
                        handler: Option<Handler>, params: map<string, string>, pattern: string) returns (i': nat)
    requires ValidLog(log) && ValidLog(log') && forall e :: Registered(log, e) <==> Registered(log', e)
    requires Answer(log, m, op, path, found, i, handler, params, pattern)
    ensures Answer(log', m, op, path, found, i', handler, params, pattern)
    ensures found ==> log'[i'] == log[i]
  {
    i' := i;
    if found {
      i' := CompetesElsewhere(log, log', m, true, op, path, i);
    }
    forall j: nat | Competes(log', m, false, op, path, j)
      ensures found && NoLater(Toks(pattern), Toks(log'[j].pattern))
    {
      var j' := CompetesElsewhere(log', log, m, false, op, path, j);
    }
  }

  /** On a safe path two routers with the same active registrations answer alike, up to the pairs of
      patterns that the search order leaves open. */
  lemma LookupOfActiveRoutes(log: seq<Reg>, log': seq<Reg>, m: Engine, op: string, path: string,
                             found: bool, i: nat, h: Option<Handler>, ps: map<string, string>, p: string,
                             found': bool, i': nat, h': Option<Handler>, ps': map<string, string>, p': string)
    requires ValidLog(log) && ValidLog(log') && RegexpSafe(log, m, op, path)
    requires forall e :: Registered(log, e) <==> Registered(log', e)
    requires Answer(log, m, op, path, found, i, h, ps, p) && Answer(log', m, op, path, found', i', h', ps', p')
    ensures found == found'
    ensures (h == h' && ps == ps' && p == p') || (found && Parses(p) && Parses(p') && Unordered(Toks(p), Toks(p')))
  {
    var j := AnswerElsewhere(log', log, m, op, path, found', i', h', ps', p');
    FindsExactlyMatches(log, m, op, path, found, i, h, ps, p);
    FindsExactlyMatches(log, m, op, path, found', j, h', ps', p');
    if found {
      AnswersAgree(log, m, op, path, i, h, ps, p, j, h', ps', p');
    }
  }

  /** Asks two routers for the same path. */
  method FindInBoth(r: Router, r': Router, m: Engine, op: string, path: string)
    returns (h: Option<Handler>, ps: map<string, string>, p: string, h': Option<Handler>, ps': map<string, string>, p': string)
    requires r.Ok() && r'.Ok() && RegexpSafe(r.log, m, op, path)
    requires forall e :: Registered(r.log, e) <==> Registered(r'.log, e)
    ensures h.Some? == h'.Some?
    ensures (h == h' && ps == ps' && p == p') || (h.Some? && Parses(p) && Parses(p') && Unordered(Toks(p), Toks(p')))
  {
    ghost var i, i';
    h, ps, p, i := r.Find(m, op, path);
    h', ps', p', i' := r'.Find(m, op, path);
    LookupOfActiveRoutes(r.log, r'.log, m, op, path, h.Some?, i, h, ps, p, h'.Some?, i', h', ps', p');
  }

  // ----- plain patterns

  /** Literal text, a whole-segment parameter, or a final '*': the component is the node's name as it
      stands, with a type that says what it means. */
  predicate PlainSeg(g: Seg) {
    match g
    case Word(t) => t != "" && Without(t, "/{}*?")
    case Name(n) => Without(n, "/{}:*?")
    case Regexp(_, _) => false
    case Star => true
  }

  predicate PlainSegs(gs: seq<Seg>) {
    SegsOk(gs) && forall i :: 0 <= i < |gs| ==> PlainSeg(gs[i])
  }

  function SegOfPart(part: string): Seg {
    if part == "*" then Star
    else if Braced(part) && |part| >= 2 then Name(part[1..|part| - 1])
    else Word(part)
  }

  function SegsOf(pattern: string): seq<Seg> {
    var parts := SplitPath(pattern);
    seq(|parts|, i requires 0 <= i < |parts| => SegOfPart(parts[i]))
  }

  function Parts(gs: seq<Seg>): seq<string> {
    seq(|gs|, i requires 0 <= i < |gs| => SegText(gs[i]))
  }

  /** A pattern made of such segments, or "/" itself. */
  predicate PlainPattern(p: string) {
    PlainSegs(SegsOf(p)) && p == if SegsOf(p) == [] then "/" else PatternText(SegsOf(p))
  }

  lemma PartsOf(p: string)
    ensures Parts(SegsOf(p)) == SplitPath(p)
  {
    assert forall part: string :: SegText(SegOfPart(part)) == part by {
      forall part: string
        ensures SegText(SegOfPart(part)) == part
      {
        if Braced(part) && |part| >= 2 {
          assert part == "{" + part[1..|part| - 1] + "}";
        }
      }
    }
  }

  /** Every sequence of plain segments is the reading of its text. */
  lemma PlainText(gs: seq<Seg>)
    requires gs != [] && PlainSegs(gs)
    ensures SplitPath(PatternText(gs)) == Parts(gs) && SegsOf(PatternText(gs)) == gs && PlainPattern(PatternText(gs))
  {
    var joined := Join(Parts(gs), '/');
    TextIsJoin(gs);
    forall i | 0 <= i < |gs|
      ensures '/' !in Parts(gs)[i] && Parts(gs)[i] != "" && SegOfPart(Parts(gs)[i]) == gs[i]
    {
      PlainPart(gs[i]);
    }
    JoinEnds(Parts(gs));
    assert PatternText(gs)[1..] == joined;
    assert "/"[0] == '/' && forall c :: c in "/" ==> c == '/';
    assert TrimLeft(joined, "/") == joined && TrimRight(joined, "/") == joined;
    SplitJoin(Parts(gs), '/');
  }

  lemma NotIn(s: string, bad: string, i: nat)
    requires Without(s, bad) && i < |bad|
    ensures bad[i] !in s
  {
  }

  lemma PlainWord(t: string)
    requires t != "" && Without(t, "/{}*?")
    ensures '/' !in t && '*' !in t && '?' !in t && t[0] != '{' && t != "*"
  {
    var bad := "/{}*?";
    NotIn(t, bad, 0);
    NotIn(t, bad, 1);
    NotIn(t, bad, 3);
    NotIn(t, bad, 4);
    assert t[0] in t && "*"[0] == '*';
  }

  lemma PlainName(n: string)
    requires Without(n, "/{}:*?")
    ensures var t := "{" + n + "}"; '/' !in t && '*' !in t && '?' !in t && t[1..|t| - 1] == n && t != "*"
  {
    var t, bad := "{" + n + "}", "/{}:*?";
    NotIn(n, bad, 0);
    NotIn(n, bad, 4);
    NotIn(n, bad, 5);
    assert forall c :: c in t ==> c == '{' || c == '}' || c in n;
    assert t[0] == '{' && "*"[0] == '*';
  }

  lemma PlainPart(g: Seg)
    requires PlainSeg(g)
    ensures '/' !in SegText(g) && SegText(g) != "" && SegOfPart(SegText(g)) == g
    ensures (Braced(SegText(g)) <==> g.Name?) && (SegText(g) == "*" <==> g.Star?) && !IsGlob(SegText(g))
    ensures g.Name? ==> Trim(SegText(g), "{}") == g.name
  {
    match g {
      case Word(t) =>
        PlainWord(t);
      case Name(n) =>
        PlainName(n);
        TrimBraces(n);
      case Star =>
        assert "*"[0] == '*';
    }
  }

  lemma TrimBraces(n: string)
    requires Without(n, "/{}:*?")
    ensures Trim("{" + n + "}", "{}") == n
  {
    var s := n + "}";
    assert ("{" + n + "}")[1..] == s;
    assert "{}"[0] == '{' && "{}"[1] == '}' && forall c :: c in "{}" ==> c == '{' || c == '}';
    assert "/{}:*?"[1] == '{' && "/{}:*?"[2] == '}';
    if n == "" {
      assert s[1..] == "";
      assert TrimLeft(s, "{}") == "";
    } else {
      assert s[0] == n[0];
      assert TrimLeft(s, "{}") == s;
      assert s[..|s| - 1] == n && n[|n| - 1] !in "{}";
      assert TrimRight(s, "{}") == TrimRight(n, "{}") == n;
    }
  }

  lemma Slashes(first: string, rest: string)
    ensures "/" + (first + ("/" + rest)) == "/" + (first + ['/'] + rest)
  {
  }

  lemma PartsStep(gs: seq<Seg>)
    requires gs != []
    ensures Parts(gs) == [SegText(gs[0])] + Parts(gs[1..]) && Parts(gs)[1..] == Parts(gs[1..])
  {
  }

  lemma {:induction false} TextIsJoin(gs: seq<Seg>)
    requires gs != []
    ensures PatternText(gs) == "/" + Join(Parts(gs), '/')
  {
    PatternTextIs(gs);
    PartsStep(gs);
    if |gs| == 1 {
      assert PatternText(gs[1..]) == "" && SegText(gs[0]) + "" == SegText(gs[0]);
    } else {
      TextIsJoin(gs[1..]);
      Slashes(SegText(gs[0]), Join(Parts(gs[1..]), '/'));
    }
  }

  /** Non-empty parts: the joined text begins with the first and ends with the last of them. */
  lemma {:induction false} JoinEnds(parts: seq<string>)
    requires parts != [] && forall i :: 0 <= i < |parts| ==> parts[i] != "" && '/' !in parts[i]
    ensures var s := Join(parts, '/'); s != "" && s[0] != '/' && s[|s| - 1] != '/'
  {
    if |parts| > 1 {
      JoinEnds(parts[1..]);
    }
  }

  // ----- plain routers

  ghost predicate AllPlain(log: seq<Reg>)
    requires ValidLog(log)
  {
    forall i: nat :: Active(log, i) ==> PlainPattern(log[i].pattern)
  }

  /** At most one parameter name at each position. */
  ghost predicate OneName(log: seq<Reg>)
    requires ValidLog(log)
  {
    forall i: nat, j: nat, at, x, y {:trigger Active(log, i), Active(log, j), Below(at, x), Below(at, y)} ::
      (Active(log, i) && Active(log, j) && Braced(x) && Braced(y)
       && Below(at, x) <= SplitPath(log[i].pattern) && Below(at, y) <= SplitPath(log[j].pattern)) ==> x == y
  }

  /** A tree whose names mean what they say: no globs, wildcards only as leaves, one parameter a node. */
  ghost predicate PlainTree(V: Values) {
    && (forall p, c {:trigger Below(p, c)} :: Below(p, c) in V ==>
          && V[Below(p, c)].typ != Glob
          && (V[Below(p, c)].typ == Param <==> Braced(c))
          && (V[Below(p, c)].typ == Wildcard <==> c == "*")
          && (c == "*" ==> Leaf(V, Below(p, c))))
    && (forall p, x, y {:trigger ParamChild(V, p, x), ParamChild(V, p, y)} :: ParamChild(V, p, x) && ParamChild(V, p, y) ==> x == y)
  }

  /** A plain route through a place: the name there is plain, and nothing follows a '*'. */
  lemma PlainThrough(e: Entry, p: seq<string>, c: string)
    requires PlainPattern(e.pattern) && Passes(e, Below(p, c))
    ensures !IsGlob(c) && (c == "*" ==> SplitPath(e.pattern) == Below(p, c)) && e.pattern != ""
  {
    var gs := SegsOf(e.pattern);
    PartsOf(e.pattern);
    var g := gs[|p|];
    assert SegText(g) == SplitPath(e.pattern)[|p|] == Below(p, c)[|p|] == c;
    PlainPart(g);
    if g.Star? {
      StarIsLast(gs, |p|);
    }
  }

  lemma {:induction false} StarIsLast(gs: seq<Seg>, i: nat)
    requires SegsOk(gs) && i < |gs| && gs[i].Star?
    ensures i == |gs| - 1
  {
    if i > 0 {
      StarIsLast(gs[1..], i - 1);
    }
  }

  lemma PlainPlace(log: seq<Reg>, V: Values, order: seq<Entry>, p: seq<string>, c: string)
    requires ValidLog(log) && AllPlain(log) && Built(V, order) && forall e :: e in order <==> Registered(log, e)
    requires Below(p, c) in V
    ensures V[Below(p, c)].typ != Glob
    ensures V[Below(p, c)].typ == Param <==> Braced(c)
    ensures V[Below(p, c)].typ == Wildcard <==> c == "*"
    ensures c == "*" ==> Leaf(V, Below(p, c))
  {
    var e := RouteThrough(log, V, order, p, c);
    PlainThrough(e, p, c);
    TypeOfPlace(order, p, c);
    if c == "*" {
      StarPlace(log, V, order, p, e);
    }
  }

  lemma RouteThrough(log: seq<Reg>, V: Values, order: seq<Entry>, p: seq<string>, c: string) returns (e: Entry)
    requires ValidLog(log) && AllPlain(log) && Built(V, order) && forall e :: e in order <==> Registered(log, e)
    requires Below(p, c) in V
    ensures e in order && Passes(e, Below(p, c)) && PlainPattern(e.pattern)
    ensures V[Below(p, c)].typ == TypeAt(order, Below(p, c))
  {
    assert Has(order, Below(p, c));
    e :| e in order && Passes(e, Below(p, c));
    assert Registered(log, e);
  }

  lemma TypeOfPlace(order: seq<Entry>, p: seq<string>, c: string)
    ensures var typ := TypeAt(order, Below(p, c));
      (typ == Glob <==> IsGlob(c)) && (typ == Wildcard <==> c == "*") && (!IsGlob(c) ==> (typ == Param <==> Braced(c)))
  {
    assert Below(p, c)[|p|] == c && "*"[0] == '*';
  }

  /** The place of a final '*' is a leaf. */
  lemma StarPlace(log: seq<Reg>, V: Values, order: seq<Entry>, p: seq<string>, e: Entry)
    requires ValidLog(log) && AllPlain(log) && Built(V, order) && forall e :: e in order <==> Registered(log, e)
    requires Below(p, "*") in V && e in order && SplitPath(e.pattern) == Below(p, "*")
    ensures Leaf(V, Below(p, "*"))
  {
    var at := Below(p, "*");
    PatternIs(order, at);
    forall f | f in order ensures f.pattern != "" { assert Registered(log, f); }
    forall name ensures Below(at, name) !in V {
      NothingPastStar(log, order, p, name);
    }
  }

  lemma NothingPastStar(log: seq<Reg>, order: seq<Entry>, p: seq<string>, name: string)
    requires ValidLog(log) && AllPlain(log) && forall e :: e in order <==> Registered(log, e)
    ensures !Has(order, Below(Below(p, "*"), name))
  {
    forall e | e in order
      ensures !Passes(e, Below(Below(p, "*"), name))
    {
      assert Registered(log, e);
      PrefixOf(Below(p, "*"), name, SplitPath(e.pattern));
      if Passes(e, Below(p, "*")) {
        PlainThrough(e, p, "*");
      }
    }
  }

  lemma OneParamChild(log: seq<Reg>, V: Values, order: seq<Entry>, p: seq<string>, x: string, y: string)
    requires ValidLog(log) && OneName(log) && Built(V, order) && forall e :: e in order <==> Registered(log, e)
    requires Below(p, x) in V && Below(p, y) in V && Braced(x) && Braced(y)
    ensures x == y
  {
    assert Has(order, Below(p, x)) && Has(order, Below(p, y));
    var e :| e in order && Passes(e, Below(p, x));
    var f :| f in order && Passes(f, Below(p, y));
    assert Registered(log, e) && Registered(log, f);
    var i: nat :| Active(log, i) && log[i] == Reg(e.op, e.pattern, Some(e.handler));
    var j: nat :| Active(log, j) && log[j] == Reg(f.op, f.pattern, Some(f.handler));
  }

  lemma TreeIsPlain(log: seq<Reg>, V: Values, order: seq<Entry>)
    requires ValidLog(log) && AllPlain(log) && OneName(log)
    requires Built(V, order) && forall e :: e in order <==> Registered(log, e)
    ensures PlainTree(V)
  {
    forall p, c | Below(p, c) in V
      ensures V[Below(p, c)].typ != Glob && (V[Below(p, c)].typ == Param <==> Braced(c))
      ensures (V[Below(p, c)].typ == Wildcard <==> c == "*") && (c == "*" ==> Leaf(V, Below(p, c)))
    {
      PlainPlace(log, V, order, p, c);
    }
    forall p, x, y | ParamChild(V, p, x) && ParamChild(V, p, y)
      ensures x == y
    {
      PlainPlace(log, V, order, p, x);
      PlainPlace(log, V, order, p, y);
      OneParamChild(log, V, order, p, x, y);
    }
  }

  // ----- walking a plain tree

  predicate PlainComps(cs: seq<string>) {
    CompsOk(cs) && forall i :: 0 <= i < |cs| ==> Without(cs[i], "{}*")
  }

  function Names(trail: seq<Move>): seq<string> {
    seq(|trail|, i requires 0 <= i < |trail| => NameOf(trail[i]))
  }

  lemma {:induction false} EndIs(p: seq<string>, trail: seq<Move>)
    ensures End(p, trail) == p + Names(trail)
    decreases |trail|
  {
    if trail != [] {
      EndIs(Below(p, NameOf(trail[0])), trail[1..]);
      assert Names(trail) == [NameOf(trail[0])] + Names(trail[1..]);
    }
  }

  /** A component of a plain path is the text of no segment but the literal one. */
  lemma PlainComp(c: string)
    requires Without(c, "{}*") && c != ""
    ensures c != "*" && !Braced(c)
  {
    assert "{}*"[0] == '{' && "{}*"[2] == '*' && c[0] !in "{}*";
  }

  /** In a plain tree a move consumes a component as the segment it goes through would. */
  lemma MoveMatches(m: Engine, V: Values, p: seq<string>, c: string, mv: Move, g: Seg)
    requires PlainTree(V) && Takes(m, V, p, c, mv) && PlainSeg(g) && NameOf(mv) == SegText(g)
    requires Without(c, "{}*") && c != ""
    ensures mv == match g case Word(_) => Exact(c) case Name(_) => ByParam(SegText(g)) case _ => TakeAll
    ensures SegMatch(m, g, c) || g.Star?
    ensures g.Name? ==> Trim(SegText(g), "{}") == g.name
  {
    PlainPart(g);
    PlainComp(c);
    if mv.ByGlob? || mv.ByParam? || mv.TakeOne? || mv.TakeAll? {
      assert Below(p, NameOf(mv)) in V;
    }
  }

  lemma PlainTail(gs: seq<Seg>)
    requires PlainSegs(gs) && gs != []
    ensures PlainSeg(gs[0]) && PlainSegs(gs[1..]) && (gs[0].Star? ==> gs == [Star])
  {
  }

  lemma CompsTail(cs: seq<string>)
    requires PlainComps(cs) && cs != []
    ensures cs[0] != "" && Without(cs[0], "{}*") && PlainComps(cs[1..])
  {
  }

  lemma NamesTail(trail: seq<Move>, gs: seq<Seg>)
    requires Names(trail) == Parts(gs) && trail != []
    ensures gs != [] && NameOf(trail[0]) == SegText(gs[0]) && Names(trail[1..]) == Parts(gs[1..])
  {
    assert |Names(trail)| == |Parts(gs)| && Names(trail)[0] == Parts(gs)[0];
    assert Names(trail[1..]) == Names(trail)[1..] && Parts(gs[1..]) == Parts(gs)[1..];
  }

  lemma UpdateFirst(params: map<string, string>, k: string, v: string, more: map<string, string>)
    ensures params + (map[k := v] + more) == params[k := v] + more
  {
  }

  /** What one segment adds to the captures. */
  lemma NotedThen(params: map<string, string>, cs: seq<string>, gs: seq<Seg>)
    requires gs != [] && cs != [] && !gs[0].Star? && PlainSeg(gs[0])
    requires |SegKeys(gs[1..])| == |SegCaps(gs[1..], cs[1..])|
    ensures |SegKeys(gs)| == |SegCaps(gs, cs)|
    ensures params + ParamMap(SegKeys(gs), SegCaps(gs, cs)) ==
      (if gs[0].Name? then params[gs[0].name := cs[0]] else params) + ParamMap(SegKeys(gs[1..]), SegCaps(gs[1..], cs[1..]))
  {
    var keys, caps := SegKeys(gs[1..]), SegCaps(gs[1..], cs[1..]);
    if gs[0].Name? {
      assert SegKeys(gs) == [gs[0].name] + keys && SegCaps(gs, cs) == [cs[0]] + caps;
      ParamMapCons(gs[0].name, cs[0], keys, caps);
      UpdateFirst(params, gs[0].name, cs[0], ParamMap(keys, caps));
    } else {
      assert SegKeys(gs) == keys && SegCaps(gs, cs) == caps;
    }
  }

  lemma NotedAll(params: map<string, string>, cs: seq<string>, gs: seq<Seg>)
    requires gs == [Star] && cs != []
    ensures |SegKeys(gs)| == |SegCaps(gs, cs)|
    ensures params + ParamMap(SegKeys(gs), SegCaps(gs, cs)) == params["*" := JoinSlash(cs)]
  {
    assert gs[1..] == [] && SegKeys(gs) == ["*"] && SegCaps(gs, cs) == [JoinSlash(cs)];
    ParamMapCons("*", JoinSlash(cs), [], []);
  }

  /** A walk that ends at a route's node matches the route, and notes its captures under its names. */
  lemma {:induction false} WalkMatches(m: Engine, V: Values, p: seq<string>, cs: seq<string>, trail: seq<Move>,
                                       gs: seq<Seg>, params: map<string, string>)
    requires PlainTree(V) && PlainComps(cs) && PlainSegs(gs)
    requires Walks(m, V, p, cs, trail) && Left(m, V, p, cs, trail) == [] && Names(trail) == Parts(gs)
    ensures SegsMatch(m, gs, cs) && |SegKeys(gs)| == |SegCaps(gs, cs)|
    ensures Params(m, V, p, cs, trail, params) == params + ParamMap(SegKeys(gs), SegCaps(gs, cs))
    decreases |trail|
  {
    assert |trail| == |Names(trail)| == |Parts(gs)| == |gs|;
    if trail != [] {
      var mv, g := trail[0], gs[0];
      NamesTail(trail, gs);
      PlainTail(gs);
      CompsTail(cs);
      MoveMatches(m, V, p, cs[0], mv, g);
      if g.Star? {
        assert trail[1..] == [];
        NotedAll(params, cs, gs);
      } else {
        var params' := Noted(params, cs, mv);
        assert params' == if g.Name? then params[g.name := cs[0]] else params;
        WalkMatches(m, V, Below(p, NameOf(mv)), cs[1..], trail[1..], gs[1..], params');
        NotedThen(params, cs, gs);
      }
    }
  }

  // ----- the walk and the search choose alike

  /** The nodes of a route lie in the tree. */
  ghost predicate InTree(V: Values, p: seq<string>, gs: seq<Seg>)
    decreases |gs|
  {
    gs != [] ==> Below(p, SegText(gs[0])) in V && InTree(V, Below(p, SegText(gs[0])), gs[1..])
  }

  lemma {:induction false} RouteInTree(V: Values, order: seq<Entry>, e: Entry, p: seq<string>, gs: seq<Seg>)
    requires Built(V, order) && e in order && SplitPath(e.pattern) == p + Parts(gs)
    ensures InTree(V, p, gs)
    decreases |gs|
  {
    if gs != [] {
      var at := Below(p, SegText(gs[0]));
      assert Parts(gs) == [SegText(gs[0])] + Parts(gs[1..]);
      assert p + Parts(gs) == at + Parts(gs[1..]);
      assert Passes(e, at) && Has(order, at);
      RouteInTree(V, order, e, at, gs[1..]);
    }
  }

  lemma {:induction false} NoLaterDrop(e: seq<Tok>, a: seq<Tok>, b: seq<Tok>)
    requires NoLater(e + a, e + b)
    ensures NoLater(a, b)
  {
    if e == [] {
      assert e + a == a && e + b == b;
    } else {
      assert (e + a)[1..] == e[1..] + a && (e + b)[1..] == e[1..] + b;
      NoLaterDrop(e[1..], a, b);
    }
  }

  function SegRank(g: Seg): nat {
    match g
    case Word(_) => 0
    case Name(_) => 3
    case Regexp(_, _) => 1
    case Star => 4
  }

  lemma FirstTok(g: Seg, k: seq<Tok>)
    requires PlainSeg(g)
    ensures Rank(SegTok(g) + k) == SegRank(g)
  {
    assert SegTok(g) != [] && (SegTok(g) + k)[0] == SegTok(g)[0];
  }

  lemma NoLaterRank(a: seq<Tok>, b: seq<Tok>)
    requires NoLater(a, b) && a != [] && b != []
    ensures Rank(a) <= Rank(b)
  {
  }

  /** The search order on tokens, read off the segments. */
  lemma SegOrder(a: seq<Seg>, b: seq<Seg>)
    requires a != [] && b != [] && PlainSeg(a[0]) && PlainSeg(b[0]) && NoLater(SegToks(a), SegToks(b))
    ensures SegRank(a[0]) <= SegRank(b[0])
    ensures a[0] == b[0] ==> NoLater(SegToks(a[1..]), SegToks(b[1..]))
  {
    SegToksIs(a);
    SegToksIs(b);
    NoLaterDrop([Lit('/')], SegTok(a[0]) + SegToks(a[1..]), SegTok(b[0]) + SegToks(b[1..]));
    TokOrder(a[0], SegToks(a[1..]), b[0], SegToks(b[1..]));
  }

  lemma TokOrder(g: Seg, a: seq<Tok>, h: Seg, b: seq<Tok>)
    requires PlainSeg(g) && PlainSeg(h) && NoLater(SegTok(g) + a, SegTok(h) + b)
    ensures SegRank(g) <= SegRank(h)
    ensures g == h ==> NoLater(a, b)
  {
    FirstTok(g, a);
    FirstTok(h, b);
    NoLaterRank(SegTok(g) + a, SegTok(h) + b);
    if g == h {
      NoLaterDrop(SegTok(g), a, b);
    }
  }

  /** The route at which the greedy walk ends comes first among the plain routes that match the path. */
  lemma {:induction false} WalkIsFirst(m: Engine, V: Values, p: seq<string>, cs: seq<string>, trail: seq<Move>, gs: seq<Seg>, hs: seq<Seg>)
    requires PlainTree(V) && PlainComps(cs) && PlainSegs(gs) && PlainSegs(hs)
    requires Walks(m, V, p, cs, trail) && Left(m, V, p, cs, trail) == [] && Names(trail) == Parts(gs)
    requires InTree(V, p, hs) && SegsMatch(m, hs, cs) && NoLater(SegToks(hs), SegToks(gs))
    ensures hs == gs
    decreases |trail|
  {
    assert |trail| == |Names(trail)| == |Parts(gs)| == |gs|;
    if trail != [] {
      var mv, g, h := trail[0], gs[0], hs[0];
      NamesTail(trail, gs);
      PlainTail(gs);
      PlainTail(hs);
      CompsTail(cs);
      SegOrder(hs, gs);
      SameSegment(m, V, p, cs[0], mv, g, h);
      if !g.Star? {
        MoveMatches(m, V, p, cs[0], mv, g);
        WalkIsFirst(m, V, Below(p, NameOf(mv)), cs[1..], trail[1..], gs[1..], hs[1..]);
        assert gs == [g] + gs[1..] && hs == [h] + hs[1..];
      }
    }
  }

  lemma SameSegment(m: Engine, V: Values, p: seq<string>, c: string, mv: Move, g: Seg, h: Seg)
    requires PlainTree(V) && Takes(m, V, p, c, mv) && PlainSeg(g) && PlainSeg(h) && NameOf(mv) == SegText(g)
    requires Without(c, "{}*") && c != ""
    requires Below(p, SegText(h)) in V && (SegMatch(m, h, c) || h.Star?)
    requires SegRank(h) <= SegRank(g)
    ensures h == g
  {
    PlainPart(g);
    PlainPart(h);
    MoveMatches(m, V, p, c, mv, g);
    assert h.Name? <==> ParamChild(V, p, SegText(h));
    assert g.Name? ==> ParamChild(V, p, SegText(g));
  }

  // ----- agreement

  /** The path that the components spell. */
  function PathOf(cs: seq<string>): string {
    if cs == [] then "/" else PathText(cs)
  }

  lemma PlainReads(p: string)
    requires PlainPattern(p) && p != "/"
    ensures Parses(p)
    ensures var gs := SegsOf(p); gs != [] && Toks(p) == SegToks(gs) && Keys(p) == SegKeys(gs) && Parts(gs) == SplitPath(p)
  {
    TextReads(SegsOf(p));
    PartsOf(p);
  }

  lemma RootReads()
    ensures Parses("/") && Toks("/") == [Lit('/')] && Keys("/") == [] && SplitPath("/") == [] && SegsOf("/") == []
  {
    assert "/"[1..] == "" && "/"[0] in "/";
    assert Parses("");
  }

  /** A plain pattern matches a path of components exactly when its segments do. */
  lemma PlainMatch(m: Engine, lax: bool, p: string, cs: seq<string>)
    requires PlainPattern(p) && Parses(p) && CompsOk(cs) && cs != []
    ensures Match(m, lax, Toks(p), PathText(cs)) == if SegsMatch(m, SegsOf(p), cs) then Some(SegCaps(SegsOf(p), cs)) else None
  {
    if p == "/" {
      RootReads();
      assert PathText(cs)[1..] == cs[0] + PathText(cs[1..]);
      assert [Lit('/')][1..] == [];
    } else {
      PlainReads(p);
      MatchSegments(m, lax, SegsOf(p), cs);
    }
  }

  /** Where the walk found a handler, a route ends. */
  lemma RouteAtEnd(log: seq<Reg>, V: Values, order: seq<Entry>, q: seq<string>, op: string) returns (e: Entry, i: nat)
    requires ValidLog(log) && Built(V, order) && forall e :: e in order <==> Registered(log, e)
    requires q in V && op in V[q].handlers
    ensures e in order && SplitPath(e.pattern) == q && e.op == op && e.handler == V[q].handlers[op]
    ensures Active(log, i) && log[i] == Reg(op, e.pattern, Some(e.handler))
  {
    HandlerKeys(order, q, op);
    e :| e in order && SplitPath(e.pattern) == q && e.op == op && HandlersAfter(order, q)[op] == e.handler;
    assert Registered(log, e);
    i :| Active(log, i) && log[i] == Reg(e.op, e.pattern, Some(e.handler));
  }

  lemma SameIndex(log: seq<Reg>, i: nat, j: nat)
    requires ValidLog(log) && Active(log, i) && Active(log, j) && log[i].op == log[j].op && log[i].pattern == log[j].pattern
    ensures i == j
  {
    assert Same(log[i], log[j]) && Same(log[j], log[i]);
  }

  /** The registration a lookup finds is the one the walk came to. */
  lemma SamePatternFound(log: seq<Reg>, m: Engine, op: string, cs: seq<string>, V: Values, order: seq<Entry>, trail: seq<Move>,
                         e: Entry, i: nat)
    requires ValidLog(log) && AllPlain(log) && OneName(log) && PlainComps(cs) && cs != []
    requires Built(V, order) && forall e :: e in order <==> Registered(log, e)
    requires Walks(m, V, [], cs, trail) && Left(m, V, [], cs, trail) == [] && PlainPattern(e.pattern)
    requires Parses(e.pattern) && Names(trail) == Parts(SegsOf(e.pattern)) && e.pattern != "/"
    requires Competes(log, m, true, op, PathText(cs), i) && NoLater(Toks(log[i].pattern), Toks(e.pattern))
    ensures log[i].pattern == e.pattern
  {
    var p := log[i].pattern;
    var f := Entry(op, p, log[i].handler.value);
    assert Registered(log, f);
    TreeIsPlain(log, V, order);
    PartsOf(p);
    assert SplitPath(p) == [] + Parts(SegsOf(p));
    RouteInTree(V, order, f, [], SegsOf(p));
    FirstOnWalk(m, V, cs, trail, e.pattern, p);
  }

  /** A pattern in the tree that matches the path, and is searched no later than the walk's, is the walk's. */
  lemma FirstOnWalk(m: Engine, V: Values, cs: seq<string>, trail: seq<Move>, pattern: string, p: string)
    requires PlainTree(V) && PlainComps(cs) && cs != [] && Walks(m, V, [], cs, trail) && Left(m, V, [], cs, trail) == []
    requires PlainPattern(pattern) && Parses(pattern) && pattern != "/" && Names(trail) == Parts(SegsOf(pattern))
    requires PlainPattern(p) && Parses(p) && InTree(V, [], SegsOf(p))
    requires Matches(m, true, Toks(p), PathText(cs)) && NoLater(Toks(p), Toks(pattern))
    ensures p == pattern
  {
    PlainMatch(m, true, p, cs);
    assert p != "/" by { RootReads(); }
    PlainReads(p);
    PlainReads(pattern);
    WalkIsFirst(m, V, [], cs, trail, SegsOf(pattern), SegsOf(p));
  }

  lemma NamesAtEnd(trail: seq<Move>, pattern: string)
    requires SplitPath(pattern) == End([], trail)
    ensures Names(trail) == Parts(SegsOf(pattern))
  {
    EndIs([], trail);
    PartsOf(pattern);
    assert [] + Names(trail) == Names(trail);
  }

  /** The walk's route matches the path, with the walk's parameters as its captures. */
  lemma WalkCaptures(m: Engine, V: Values, cs: seq<string>, trail: seq<Move>, pattern: string, lax: bool)
    requires PlainTree(V) && PlainComps(cs) && cs != [] && PlainPattern(pattern) && Parses(pattern) && pattern != "/"
    requires Walks(m, V, [], cs, trail) && Left(m, V, [], cs, trail) == [] && Names(trail) == Parts(SegsOf(pattern))
    ensures var r := Match(m, lax, Toks(pattern), PathText(cs));
      r.Some? && |Keys(pattern)| == |r.value| && Params(m, V, [], cs, trail, map[]) == ParamMap(Keys(pattern), r.value)
  {
    var gs := SegsOf(pattern);
    PlainReads(pattern);
    PlainMatch(m, lax, pattern, cs);
    WalkMatches(m, V, [], cs, trail, gs, map[]);
    NothingNoted(ParamMap(SegKeys(gs), SegCaps(gs, cs)));
  }

  lemma NothingNoted(more: map<string, string>)
    ensures map[] + more == more
  {
  }

  lemma NotRoot(trail: seq<Move>, pattern: string)
    requires Names(trail) == Parts(SegsOf(pattern)) && trail != []
    ensures pattern != "/"
  {
    RootReads();
    assert |Names(trail)| == |Parts(SegsOf(pattern))|;
  }

  /** When the walk over the component tree comes to a node with a handler for `op`, the lookup of the
      same path finds that same handler, with the same parameters. */
  lemma IndexesAgree(log: seq<Reg>, m: Engine, op: string, cs: seq<string>, V: Values, order: seq<Entry>, trail: seq<Move>,
                     found: bool, i: nat, handler: Option<Handler>, params: map<string, string>, pattern: string)
    requires ValidLog(log) && AllPlain(log) && OneName(log) && PlainComps(cs)
    requires Built(V, order) && forall e :: e in order <==> Registered(log, e)
    requires Walks(m, V, [], cs, trail) && Left(m, V, [], cs, trail) == []
    requires End([], trail) in V && op in V[End([], trail)].handlers
    requires Answer(log, m, op, PathOf(cs), found, i, handler, params, pattern)
    ensures found && handler == Some(V[End([], trail)].handlers[op])
    ensures params == Params(m, V, [], cs, trail, map[])
  {
    var e, j := RouteAtEnd(log, V, order, End([], trail), op);
    if cs == [] {
      RootAgrees(log, m, op, e, j, found, i, handler, params, pattern);
    } else {
      assert PlainPattern(e.pattern) && Parses(e.pattern);
      NamesAtEnd(trail, e.pattern);
      NotRoot(trail, e.pattern);
      TreeIsPlain(log, V, order);
      WalkCaptures(m, V, cs, trail, e.pattern, false);
      WalkCaptures(m, V, cs, trail, e.pattern, true);
      assert Competes(log, m, false, op, PathOf(cs), j);
      SamePatternFound(log, m, op, cs, V, order, trail, e, i);
      SameIndex(log, i, j);
    }
  }

  /** A transport that passes the walk's parameters with its request does not change what the handler
      gets: exactly the captures of its own pattern. */
  lemma ServedWithCaptures(log: seq<Reg>, m: Engine, op: string, cs: seq<string>, V: Values, order: seq<Entry>, trail: seq<Move>,
                           found: bool, i: nat, handler: Option<Handler>, params: map<string, string>, pattern: string)
    requires ValidLog(log) && AllPlain(log) && OneName(log) && PlainComps(cs)
    requires Built(V, order) && forall e :: e in order <==> Registered(log, e)
    requires Walks(m, V, [], cs, trail) && Left(m, V, [], cs, trail) == []
    requires End([], trail) in V && op in V[End([], trail)].handlers
    requires Answer(log, m, op, PathOf(cs), found, i, handler, params, pattern)
    ensures found && params + Params(m, V, [], cs, trail, map[]) == ParamMap(Keys(pattern), Captures(m, pattern, PathOf(cs)))
  {
    IndexesAgree(log, m, op, cs, V, order, trail, found, i, handler, params, pattern);
    assert params + params == params;
  }

  lemma RootAgrees(log: seq<Reg>, m: Engine, op: string, e: Entry, j: nat,
                   found: bool, i: nat, handler: Option<Handler>, params: map<string, string>, pattern: string)
    requires ValidLog(log) && PlainPattern(e.pattern) && SplitPath(e.pattern) == []
    requires Active(log, j) && log[j] == Reg(op, e.pattern, Some(e.handler))
    requires Answer(log, m, op, "/", found, i, handler, params, pattern)
    ensures found && handler == Some(e.handler) && params == map[] && pattern == "/"
  {
    PartsOf(e.pattern);
    RootReads();
    assert e.pattern == "/";
    var k := Toks(log[j].pattern);
    assert k[1..] == [] && "/"[1..] == "";
    assert Matches(m, false, k, "/");
    assert Competes(log, m, false, op, "/", j);
    var x := Toks(pattern);
    assert x == [Lit('/')] by {
      RootFirst(m, x);
    }
    assert Same(log[i], log[j]) && Same(log[j], log[i]);
    KeyCount(pattern);
  }

  /** Nothing but "/" itself is searched before "/". */
  lemma RootFirst(m: Engine, x: seq<Tok>)
    requires Matches(m, true, x, "/") && NoLater(x, [Lit('/')])
    ensures x == [Lit('/')]
  {
    assert [Lit('/')][1..] == [];
    assert "/"[1..] == "";
    assert x == [x[0]] + x[1..];
    assert x[0].Lit? ==> Matches(m, true, x[1..], "") && NoLater(x[1..], []);
  }

  lemma OnlyChild(order: seq<Entry>, a: string, b: string, x: string, c: string, name: string)
    requires forall e :: e in order ==> SplitPath(e.pattern) == [a, b] || SplitPath(e.pattern) == [x, c]
    requires a != x && Has(order, Below([a], name))
    ensures name == b
  {
    var e :| e in order && Passes(e, Below([a], name));
    assert Below([a], name)[0] == a && Below([a], name)[1] == name;
  }

  lemma OnlyChildren(V: Values, order: seq<Entry>, a: string, b: string, x: string, c: string)
    requires Built(V, order) && a != x
    requires forall e :: e in order ==> SplitPath(e.pattern) == [a, b] || SplitPath(e.pattern) == [x, c]
    ensures forall name :: Below([a], name) in V ==> name == b
  {
    forall name | Below([a], name) in V
      ensures name == b
    {
      OnlyChild(order, a, b, x, c, name);
    }
  }

  /** The converse does not hold: the walk does not come back from a child it has entered. With the
      routes "/a/b" and "/{x}/c" it is stuck on the path "/a/c", which the second pattern matches. */
  lemma WalkMayMiss(m: Engine, a: string, b: string, c: string, x: string, h: Handler, g: Handler, V: Values, order: seq<Entry>)
    requires PlainSeg(Word(a)) && PlainSeg(Word(b)) && PlainSeg(Word(c)) && PlainSeg(Name(x)) && b != c
    requires Built(V, order)
    requires Entry("read", PatternText([Word(a), Word(b)]), h) in order
    requires forall e :: e in order ==>
      e == Entry("read", PatternText([Word(a), Word(b)]), h) || e == Entry("read", PatternText([Name(x), Word(c)]), g)
    ensures Walks(m, V, [], [a, c], [Exact(a)]) && Stuck(m, V, [a], c)
    ensures SegsMatch(m, [Name(x), Word(c)], [a, c])
  {
    var p, q := PatternText([Word(a), Word(b)]), PatternText([Name(x), Word(c)]);
    TwoSegs(Word(a), Word(b));
    TwoSegs(Name(x), Word(c));
    MissedBy(m, p, q, a, b, c, x, h, g, V, order);
    TwoMatch(m, x, a, c);
  }

  lemma MissedBy(m: Engine, p: string, q: string, a: string, b: string, c: string, x: string, h: Handler, g: Handler,
                 V: Values, order: seq<Entry>)
    requires PlainSeg(Word(a)) && PlainSeg(Word(b)) && PlainSeg(Name(x)) && b != c
    requires SplitPath(p) == [a, b] && SplitPath(q) == [SegText(Name(x)), c]
    requires Built(V, order) && Entry("read", p, h) in order
    requires forall e :: e in order ==> e == Entry("read", p, h) || e == Entry("read", q, g)
    ensures Walks(m, V, [], [a, c], [Exact(a)]) && Stuck(m, V, [a], c)
  {
    PlainPart(Word(a));
    PlainPart(Name(x));
    FirstStep(m, V, order, a, c, Entry("read", p, h));
    OnlyChildren(V, order, a, b, SegText(Name(x)), c);
    StuckBelow(m, V, order, a, b, c);
  }

  lemma TwoMatch(m: Engine, x: string, a: string, c: string)
    ensures SegsMatch(m, [Name(x), Word(c)], [a, c])
  {
    assert [Name(x), Word(c)][1..] == [Word(c)] && [a, c][1..] == [c];
    assert [Word(c)][1..] == [] && [c][1..] == [];
  }

  lemma FirstStep(m: Engine, V: Values, order: seq<Entry>, a: string, c: string, e: Entry)
    requires Built(V, order) && e in order && |SplitPath(e.pattern)| > 0 && SplitPath(e.pattern)[0] == a
    ensures Walks(m, V, [], [a, c], [Exact(a)])
  {
    assert Below([], a) == [a] == SplitPath(e.pattern)[..1];
    assert Passes(e, [a]) && Has(order, [a]);
    assert [Exact(a)][1..] == [];
  }

  lemma TwoSegs(g: Seg, h: Seg)
    requires PlainSeg(g) && PlainSeg(h) && !g.Star?
    ensures SplitPath(PatternText([g, h])) == [SegText(g), SegText(h)]
  {
    assert SegOk(g) && SegOk(h);
    assert [g, h][1..] == [h] && [h][1..] == [];
    assert SegsOk([h]) && SegsOk([g, h]);
    PlainText([g, h]);
    assert Parts([g, h]) == [SegText(g), SegText(h)];
  }

  lemma StuckBelow(m: Engine, V: Values, order: seq<Entry>, a: string, b: string, c: string)
    requires Built(V, order) && PlainSeg(Word(b)) && b != c
    requires forall name :: Below([a], name) in V ==> name == b
    ensures Stuck(m, V, [a], c)
  {
    if Below([a], b) in V {
      WordType(V, order, [a], b);
    }
    StuckAt(m, V, [a], b, c);
  }

  lemma WordType(V: Values, order: seq<Entry>, p: seq<string>, b: string)
    requires Built(V, order) && PlainSeg(Word(b)) && Below(p, b) in V
    ensures V[Below(p, b)].typ == File || V[Below(p, b)].typ == Dir
  {
    var at := Below(p, b);
    PlainPart(Word(b));
    assert at[|at| - 1] == b && V[at].typ == TypeAt(order, at);
  }

  lemma StuckAt(m: Engine, V: Values, p: seq<string>, b: string, c: string)
    requires b != c && forall name :: Below(p, name) in V ==> name == b
    requires Below(p, b) in V ==> V[Below(p, b)].typ == File || V[Below(p, b)].typ == Dir
    ensures Stuck(m, V, p, c)
  {
    forall mv
      ensures !Takes(m, V, p, c, mv)
    {
      assert Below(p, NameOf(mv)) in V ==> NameOf(mv) == b;
    }
  }
}
