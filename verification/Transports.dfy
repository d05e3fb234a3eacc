/** The transports on the tree of a router: what their steps report, and that they come to the handler the
    router itself finds. */
module Transports {
  import opened Wrappers
  import opened Text
  import opened Tokens
  import opened Patterns
  import opened Segments
  import opened Globs
  import opened Tables
  import opened Routers
  import opened Components
  import opened Trees
  import opened Navigation
  import opened TwoIndexes
  import opened Stepping

  /** A step through the child of a `{name}` reports the component under that name, a step through '*' under
      "*", and any other step nothing; what was inherited stays, except under that name. */
  lemma StepReports(n: string, c: string, params: map<string, string>)
    ensures Caught(c, ByParam("{" + n + "}")) == map[n := c] && Inherited(params, c, ByParam("{" + n + "}")) == params[n := c]
    ensures Caught(c, TakeOne) == map["*" := c] && Inherited(params, c, TakeOne) == params["*" := c]
    ensures forall x :: Caught(c, Exact(x)) == Caught(c, ByGlob(x)) == map[]
    ensures forall x :: Inherited(params, c, Exact(x)) == Inherited(params, c, ByGlob(x)) == params
  {
    var t := "{" + n + "}";
    assert t[1..|t| - 1] == n;
  }

  /** What a move of the one-shot walk notes. */
  lemma MoveReports(n: string, cs: seq<string>, params: map<string, string>)
    requires cs != [] && Without(n, "/{}:*?")
    ensures Noted(params, cs, ByParam("{" + n + "}")) == params[n := cs[0]]
    ensures Noted(params, cs, TakeOne) == params["*" := cs[0]] && Noted(params, cs, TakeAll) == params["*" := JoinSlash(cs)]
    ensures forall x :: Noted(params, cs, Exact(x)) == Noted(params, cs, ByGlob(x)) == params
  {
    TrimBraces(n);
  }

  // ----- trees of plain routers

  ghost predicate NoStar(log: seq<Reg>)
    requires ValidLog(log)
  {
    forall i: nat :: Active(log, i) ==> "*" !in SplitPath(log[i].pattern)
  }

  /** The name at a place of a plain router's tree is that of a plain segment of one of its routes. */
  lemma PlaceSegment(log: seq<Reg>, V: Values, order: seq<Entry>, p: seq<string>, c: string)
    requires ValidLog(log) && AllPlain(log) && Built(V, order) && forall e :: e in order <==> Registered(log, e)
    requires Below(p, c) in V
    ensures PlainSeg(SegOfPart(c)) && (NoStar(log) ==> c != "*")
  {
    var e := RouteThrough(log, V, order, p, c);
    var parts := SplitPath(e.pattern);
    assert Below(p, c) <= parts && parts[|p|] == c && c in parts;
    assert SegsOf(e.pattern)[|p|] == SegOfPart(c);
    assert Registered(log, e);
  }

  lemma ParamSegment(c: string)
    requires PlainSeg(SegOfPart(c)) && Braced(c) && c != "*"
    ensures ParamName(c) == Trim(c, "{}")
  {
    if |c| >= 2 {
      var n := c[1..|c| - 1];
      assert SegOfPart(c) == Name(n) && c == "{" + n + "}";
      PlainPart(Name(n));
    }
  }

  /** The tree of a plain router without final '*' is one in which steps and moves are the same. */
  lemma PlainIsSimple(log: seq<Reg>, V: Values, order: seq<Entry>)
    requires ValidLog(log) && AllPlain(log) && NoStar(log)
    requires Built(V, order) && forall e :: e in order <==> Registered(log, e)
    ensures Simple(V)
  {
    forall p, c | Below(p, c) in V
      ensures V[Below(p, c)].typ != Wildcard && (V[Below(p, c)].typ == Param ==> ParamName(c) == Trim(c, "{}"))
    {
      PlaceSegment(log, V, order, p, c);
      PlainPlace(log, V, order, p, c);
      if V[Below(p, c)].typ == Param {
        ParamSegment(c);
      }
    }
  }

  /** And plain names are ordinary there, with one way to go at most. */
  lemma PlainIsOrdinary(m: Engine, V: Values, cs: seq<string>)
    requires PlainTree(V) && PlainComps(cs)
    ensures Ordinary(V, cs) && OneWay(m, V, cs)
  {
    forall p, c | c in cs && Below(p, c) in V
      ensures Literal(V, p, c)
    {
      PlainComp(c);
    }
  }

  lemma PlainIsOneWay(log: seq<Reg>, m: Engine, V: Values, order: seq<Entry>, names: seq<string>)
    requires ValidLog(log) && AllPlain(log) && TwoIndexes.OneName(log) && NoStar(log) && PlainComps(names)
    requires Built(V, order) && forall e :: e in order <==> Registered(log, e)
    ensures Simple(V) && Ordinary(V, names) && OneWay(m, V, names)
  {
    TreeIsPlain(log, V, order);
    PlainIsSimple(log, V, order);
    PlainIsOrdinary(m, V, names);
  }

  /** Asks a router, and its tree at once and step by step. */
  method AskThreeWays(r: Router, m: Engine, op: string, names: seq<string>)
    returns (handler: Option<Handler>, params: map<string, string>, node: TreeNode?, walked: map<string, string>,
             stepped: TreeNode?, reported: map<string, string>)
    requires r.Ok() && AllPlain(r.log) && TwoIndexes.OneName(r.log) && NoStar(r.log) && PlainComps(names)
    ensures stepped == node && reported == walked
    ensures stepped != null && op in stepped.handlers ==> handler == Some(stepped.handlers[op]) && params == reported
  {
    ghost var log := r.log;
    var root, pattern;
    ghost var at, V, order, trail, i;
    root, at, V, order := GetTree(r);
    PlainIsOneWay(log, m, V, order, names);
    stepped, reported, node, walked, trail := NavigateBothWays(m, root, names, at, V);
    handler, params, pattern, i := r.Find(m, op, PathOf(names));
    if stepped != null && op in stepped.handlers {
      IndexesAgree(log, m, op, names, V, order, trail, handler.Some?, i, handler, params, pattern);
    }
  }

  // ----- the tree of one route

  /** The places of the tree of a single route of two components, and what kind of node each is. */
  ghost predicate TwoPlaces(V: Values, word: string, part: string) {
    && (forall p :: p in V <==> p == [] || p == [word] || p == [word, part])
    && V[[word]].typ == Dir
    && (V[[word, part]].typ == if part == "*" then Wildcard else Param)
  }

  lemma Prefixes(q: seq<string>, p: seq<string>)
    requires |q| == 2
    ensures p <= q <==> p == [] || p == [q[0]] || p == q
  {
    if p <= q {
      assert p == q[..|p|];
    }
  }

  lemma OneRouteTree(V: Values, order: seq<Entry>, e: Entry, word: string, g: Seg)
    requires Built(V, order) && forall f :: f in order <==> f == e
    requires PlainSeg(Word(word)) && PlainSeg(g) && !g.Word? && SplitPath(e.pattern) == [word, SegText(g)]
    ensures TwoPlaces(V, word, SegText(g))
  {
    var q := [word, SegText(g)];
    forall p
      ensures p in V <==> p == [] || p == [word] || p == q
    {
      Prefixes(q, p);
      assert Has(order, p) <==> p == [] || Passes(e, p);
    }
    PlainPart(Word(word));
    PlainPart(g);
    assert e in order && Passes(e, [word]) && Deeper(order, [word]);
    assert [word][0] == word && q[1] == SegText(g);
  }

  /** The step from the root to the word, */
  lemma StepToWord(m: Engine, V: Values, word: string, part: string, mv: Move)
    requires TwoPlaces(V, word, part)
    ensures Steps(m, V, [], word, mv) <==> mv == Exact(word)
  {
    assert Below([], word) == [word];
  }

  /** and from there to the part, with any name, except that a parameter's own name is none of its matches. */
  lemma StepToPart(m: Engine, V: Values, word: string, part: string, c: string, mv: Move)
    requires TwoPlaces(V, word, part)
    ensures Steps(m, V, [word], c, mv) <==> (c != part || part == "*") && mv == if part == "*" then TakeOne else ByParam(part)
  {
    forall x
      ensures Below([word], x) in V <==> x == part
    {
      assert Below([word], x)[1] == x;
    }
    assert Below([word], part) == [word, part];
    assert ParamChild(V, [word], part) <==> part != "*";
  }

  /** The log of one registration. */
  lemma OneRoute(op: string, h: Handler, word: string, g: Seg) returns (pattern: string)
    requires PlainSeg(Word(word)) && PlainSeg(g) && !g.Word?
    ensures pattern == PatternText([Word(word), g]) && Valid(pattern) && SplitPath(pattern) == [word, SegText(g)]
    ensures var log := [Reg(op, pattern, Some(h))];
      ValidLog(log) && forall e :: Registered(log, e) <==> e == Entry(op, pattern, h)
  {
    var gs := [Word(word), g];
    pattern := PatternText(gs);
    TwoSegs(Word(word), g);
    assert SegOk(Word(word)) && SegOk(g) && gs[1..] == [g] && [g][1..] == [] && SegsOk([g]) && SegsOk(gs);
    TextReads(gs);
    SegProper(gs);
    assert SegKeys([g]) == SegKey(g) + [] && SegKeys(gs) == [] + SegKeys([g]);
    var log := [Reg(op, pattern, Some(h))];
    assert Active(log, 0);
    forall e
      ensures Registered(log, e) <==> e == Entry(op, pattern, h)
    {
      if e == Entry(op, pattern, h) {
        assert log[0] == Reg(e.op, e.pattern, Some(e.handler));
      }
    }
  }

  /** Registers a word followed by a `{name}` or a final '*', builds the tree, and goes down as both servers
      do: to the word, and from there with another name. The parameter's own name is not found. */
  method StepDown(m: Engine, op: string, h: Handler, word: string, g: Seg, c: string)
    returns (found: bool, child: TreeNode?, params: map<string, string>, inherited: map<string, string>)
    requires PlainSeg(Word(word)) && PlainSeg(g) && !g.Word?
    ensures found == (child != null) == (c != SegText(g) || g.Star?)
    ensures found ==> params == inherited == map[if g.Name? then g.name else "*" := c]
  {
    var r := new Router();
    ghost var pattern := OneRoute(op, h, word, g);
    r.Register(op, PatternText([Word(word), g]), Some(h));
    assert r.log == [Reg(op, pattern, Some(h))];
    ghost var at, V, order;
    var root;
    root, at, V, order := GetTree(r);
    OneRouteTree(V, order, Entry(op, pattern, h), word, g);
    found, child, params, inherited := StepTwice(m, root, word, g, c, at, V);
  }

  method StepTwice(m: Engine, root: TreeNode, word: string, g: Seg, c: string, ghost at: Places, ghost V: Values)
    returns (found: bool, child: TreeNode?, params: map<string, string>, inherited: map<string, string>)
    requires Shows(at, V) && Named(V) && [] in at && root == at[[]] && TwoPlaces(V, word, SegText(g))
    requires PlainSeg(g) && !g.Word?
    ensures found == (child != null) == (c != SegText(g) || g.Star?)
    ensures found ==> params == inherited == map[if g.Name? then g.name else "*" := c]
  {
    ghost var mv: Move;
    var node, ps;
    PlainPart(g);
    StepToWord(m, V, word, SegText(g), Exact(word));
    node, ps, found, mv := FindChildWith(m, root, word, map[], at, V, []);
    StepToWord(m, V, word, SegText(g), mv);
    assert Below([], word) == [word];
    StepToPart(m, V, word, SegText(g), c, PartMove(g));
    StepReports(if g.Name? then g.name else "", c, map[]);
    child, params, found, mv := FindChild(m, node, c, at, V, [word]);
    StepToPart(m, V, word, SegText(g), c, mv);
    child, inherited, found, mv := FindChildWith(m, node, c, ps, at, V, [word]);
    StepToPart(m, V, word, SegText(g), c, mv);
  }

  function PartMove(g: Seg): Move {
    if g.Star? then TakeOne else ByParam(SegText(g))
  }

  /** "/users/{id}", and below "users" the name "42". */
  method StepToUser(m: Engine, h: Handler) returns (child: TreeNode?, params: map<string, string>, inherited: map<string, string>)
    ensures child != null && params == map["id" := "42"] && inherited == map["id" := "42"]
  {
    UserNames();
    var found;
    found, child, params, inherited := StepDown(m, "read", h, "users", Name("id"), "42");
  }

  lemma UserNames()
    ensures PlainSeg(Word("users")) && PlainSeg(Name("id")) && "42" != SegText(Name("id"))
    ensures PatternText([Word("users"), Name("id")]) == "/users/{id}"
  {
    assert SegText(Name("id"))[0] == '{';
    assert [Word("users"), Name("id")][1..] == [Name("id")] && [Name("id")][1..] == [];
    assert PatternText([Name("id")]) == "/" + "{id}" + "";
  }

  // ----- a wildcard in the middle

  /** A '*' and a word below it. */
  lemma StarThenWord(word: string) returns (pattern: string)
    requires PlainSeg(Word(word))
    ensures pattern == "/" + ("*" + "/" + word) && SplitPath(pattern) == ["*", word]
  {
    var s := "*" + "/" + word;
    pattern := "/" + s;
    PlainPart(Word(word));
    assert "*"[0] == '*' && '/' !in "*" && forall c :: c in "/" ==> c == '/';
    assert s[0] == '*' && s[|s| - 1] == word[|word| - 1] && word[|word| - 1] in word;
    assert Trim(s, "/") == s;
    var parts := ["*", word];
    assert parts[1..] == [word] && Join([word], '/') == word && Join(parts, '/') == "*" + ['/'] + word == s;
    SplitJoin(parts, '/');
    SlashesDoNotCount(s);
  }

  /** The tree of that pattern alone. */
  ghost predicate MiddlePlaces(V: Values, word: string, op: string, h: Handler) {
    && (forall p :: p in V <==> p == [] || p == ["*"] || p == ["*", word])
    && V[["*"]].typ == Wildcard && V[["*"]].pattern == ""
    && V[["*", word]].typ == File && op in V[["*", word]].handlers && V[["*", word]].handlers[op] == h
  }

  lemma MiddleTree(V: Values, order: seq<Entry>, e: Entry, word: string)
    requires Built(V, order) && order == [e]
    requires PlainSeg(Word(word)) && SplitPath(e.pattern) == ["*", word]
    ensures MiddlePlaces(V, word, e.op, e.handler)
  {
    var q := ["*", word];
    forall p
      ensures p in V <==> p == [] || p == ["*"] || p == q
    {
      Prefixes(q, p);
      assert e in order;
      assert Has(order, p) <==> p == [] || Passes(e, p);
    }
    PlainPart(Word(word));
    assert EndsLast(order, q, Some(e.op), 0);
    LastHandler(order, q, e.op, 0);
    LastPattern(order, ["*"], 0);
    assert q[1] == word && !IsGlob(word) && word != "*" && !Braced(word);
    assert !Deeper(order, q);
  }

  lemma FirstMiddle(m: Engine, V: Values, word: string, op: string, h: Handler, a: string, mv: Move)
    requires MiddlePlaces(V, word, op, h) && a != "*"
    ensures Takes(m, V, [], a, mv) <==> mv == TakeOne
  {
    forall x
      ensures Below([], x) in V <==> x == "*"
    {
      assert Below([], x) == [x];
    }
    assert Below([], "*") == ["*"] && Below(["*"], word) == ["*", word];
    assert !Leaf(V, ["*"]);
  }

  lemma ThenWord(m: Engine, V: Values, word: string, op: string, h: Handler, mv: Move)
    requires MiddlePlaces(V, word, op, h)
    ensures Takes(m, V, ["*"], word, mv) <==> mv == Exact(word)
  {
    assert Below(["*"], word) == ["*", word];
  }

  /** What is left of a whole walk after its first move is a whole walk. */
  lemma WholeRest(m: Engine, V: Values, p: seq<string>, cs: seq<string>, trail: seq<Move>, params: map<string, string>)
    requires Whole(m, V, p, cs, trail) && trail != []
    ensures cs != [] && Takes(m, V, p, cs[0], trail[0])
    ensures var p', cs', rest := Below(p, NameOf(trail[0])), After(cs, trail[0]), trail[1..];
      && Whole(m, V, p', cs', rest) && End(p, trail) == End(p', rest) && Left(m, V, p, cs, trail) == Left(m, V, p', cs', rest)
      && Params(m, V, p, cs, trail, params) == Params(m, V, p', cs', rest, Noted(params, cs, trail[0]))
  {
  }

  /** The whole walk on such a path takes one component for the star. */
  lemma MiddleWalk(m: Engine, V: Values, word: string, op: string, h: Handler, a: string, trail: seq<Move>)
    requires MiddlePlaces(V, word, op, h) && a != "*" && Whole(m, V, [], [a, word], trail)
    ensures End([], trail) == ["*", word] && Left(m, V, [], [a, word], trail) == []
    ensures Params(m, V, [], [a, word], trail, map[]) == map["*" := a]
  {
    var none: map<string, string> := map[];
    FirstMiddle(m, V, word, op, h, a, TakeOne);
    assert trail != [];
    WholeRest(m, V, [], [a, word], trail, none);
    FirstMiddle(m, V, word, op, h, a, trail[0]);
    assert [a, word][1..] == [word] && Below([], "*") == ["*"];
    EndOfMiddle(m, V, word, op, h, trail[1..], none["*" := a]);
  }

  lemma EndOfMiddle(m: Engine, V: Values, word: string, op: string, h: Handler, trail: seq<Move>, params: map<string, string>)
    requires MiddlePlaces(V, word, op, h) && Whole(m, V, ["*"], [word], trail)
    ensures End(["*"], trail) == ["*", word] && Left(m, V, ["*"], [word], trail) == []
    ensures Params(m, V, ["*"], [word], trail, params) == params
  {
    ThenWord(m, V, word, op, h, Exact(word));
    assert trail != [];
    WholeRest(m, V, ["*"], [word], trail, params);
    ThenWord(m, V, word, op, h, trail[0]);
    assert [word][1..] == [] && Below(["*"], word) == ["*", word];
    assert trail[1..] == [];
  }

  /** Builds the tree of such a pattern, as a registry does from its handlers, and looks a path up. */
  method WalkThroughStar(m: Engine, op: string, h: Handler, word: string, a: string)
    returns (node: TreeNode?, params: map<string, string>)
    requires PlainSeg(Word(word)) && a != "*"
    ensures node != null && op in node.handlers && node.handlers[op] == h && params == map["*" := a]
  {
    ghost var pattern := StarThenWord(word);
    ghost var e := Entry(op, pattern, h);
    ghost var at, V, order, trail;
    var root;
    root, at, V, order := BuildTree(map[op := map["/" + ("*" + "/" + word) := h]]);
    OnlyEntry(order, e);
    BuiltNamed(V, order);
    MiddleTree(V, order, e, word);
    assert at[["*", word]].Holds(V[["*", word]]);
    node, params, trail := FindNode(m, root, [a, word], map[], at, V, []);
    MiddleWalk(m, V, word, op, h, a, trail);
  }

  lemma OnlyEntry(order: seq<Entry>, e: Entry)
    requires NoRepeats(order) && forall f :: f in order <==> f == e
    ensures order == [e]
  {
    assert e in order;
    forall i | 0 <= i < |order|
      ensures order[i] == e && i == 0
    {
      assert order[i] in order && order[0] in order;
    }
    assert |order| == 1 by {
      var last := |order| - 1;
      assert order[last] == e && last == 0;
    }
  }
}
