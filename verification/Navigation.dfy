/** Finding a node of the component tree: the walk of `findNodeRecursive`. */
module Navigation {
  import opened Wrappers
  import opened Tokens
  import opened Globs
  import opened Segments
  import opened Components
  import opened Trees

  /** How one component is consumed: by the child of that name, by a glob child, by a parameter child,
      by the wildcard child that takes all the rest, or by one that takes a single component. */
  datatype Move = Exact(name: string) | ByGlob(name: string) | ByParam(name: string) | TakeAll | TakeOne

  function NameOf(mv: Move): string {
    if mv.TakeAll? || mv.TakeOne? then "*" else mv.name
  }

  /** What `ComponentMatches` computes. */
  predicate CompMatches(m: Engine, pattern: string, component: string) {
    if HasWildcard(pattern) then m("^" + GlobRegex(pattern) + "$", component) else pattern == component
  }

  predicate GlobChild(m: Engine, V: Values, p: seq<string>, c: string, name: string) {
    Below(p, name) in V && V[Below(p, name)].typ == Glob && CompMatches(m, name, c)
  }

  predicate ParamChild(V: Values, p: seq<string>, name: string) {
    Below(p, name) in V && V[Below(p, name)].typ == Param
  }

  ghost predicate NoGlob(m: Engine, V: Values, p: seq<string>, c: string) {
    forall name :: !GlobChild(m, V, p, c, name)
  }

  ghost predicate NoParam(V: Values, p: seq<string>) {
    forall name :: !ParamChild(V, p, name)
  }

  /** A leaf wildcard: it has a pattern and nothing below it. */
  ghost predicate Leaf(V: Values, p: seq<string>)
    requires p in V
  {
    V[p].pattern != "" && forall name :: Below(p, name) !in V
  }

  /** The moves the walk may make at `p` with next component `c`: children by name come first, then
      globs, then parameters, then wildcards. */
  ghost predicate Takes(m: Engine, V: Values, p: seq<string>, c: string, mv: Move) {
    match mv
    case Exact(name) => name == c && Below(p, c) in V
    case ByGlob(name) => Below(p, c) !in V && GlobChild(m, V, p, c, name)
    case ByParam(name) => Below(p, c) !in V && NoGlob(m, V, p, c) && ParamChild(V, p, name)
    case _ =>
      && Below(p, c) !in V && NoGlob(m, V, p, c) && NoParam(V, p)
      && Below(p, "*") in V && V[Below(p, "*")].typ == Wildcard && (mv.TakeAll? <==> Leaf(V, Below(p, "*")))
  }

  /** A child that fits the component, by one of the four kinds of move. */
  ghost predicate Fits(m: Engine, V: Values, p: seq<string>, c: string, mv: Move) {
    match mv
    case Exact(name) => name == c && Below(p, c) in V
    case ByGlob(name) => GlobChild(m, V, p, c, name)
    case ByParam(name) => ParamChild(V, p, name)
    case _ => Below(p, "*") in V && V[Below(p, "*")].typ == Wildcard && (mv.TakeAll? <==> Leaf(V, Below(p, "*")))
  }

  function Preference(mv: Move): nat {
    match mv case Exact(_) => 0 case ByGlob(_) => 1 case ByParam(_) => 2 case _ => 3
  }

  /** The walk takes a fitting child of the most preferred kind: the one of that name, else a glob, else a
      parameter, else the wildcard. */
  lemma TakesExactlyWhen(m: Engine, V: Values, p: seq<string>, c: string, mv: Move)
    ensures Takes(m, V, p, c, mv) <==>
      Fits(m, V, p, c, mv) && forall mv' :: Fits(m, V, p, c, mv') ==> Preference(mv) <= Preference(mv')
  {
    if Below(p, c) in V {
      assert Fits(m, V, p, c, Exact(c));
    }
    forall name
      ensures GlobChild(m, V, p, c, name) ==> Fits(m, V, p, c, ByGlob(name))
      ensures ParamChild(V, p, name) ==> Fits(m, V, p, c, ByParam(name))
    {
    }
  }

  ghost predicate Stuck(m: Engine, V: Values, p: seq<string>, c: string) {
    forall mv :: !Takes(m, V, p, c, mv)
  }

  /** A walk from `p` along `cs`: every move is one the tree allows. */
  ghost predicate Walks(m: Engine, V: Values, p: seq<string>, cs: seq<string>, trail: seq<Move>)
    decreases |trail|
  {
    trail != [] ==>
      && cs != [] && Takes(m, V, p, cs[0], trail[0])
      && Walks(m, V, Below(p, NameOf(trail[0])), After(cs, trail[0]), trail[1..])
  }

  function After(cs: seq<string>, mv: Move): seq<string>
    requires cs != []
  {
    if mv.TakeAll? then [] else cs[1..]
  }

  /** Where a walk ends. */
  function End(p: seq<string>, trail: seq<Move>): seq<string>
    decreases |trail|
  {
    if trail == [] then p else End(Below(p, NameOf(trail[0])), trail[1..])
  }

  /** The components it leaves over. */
  ghost function Left(m: Engine, V: Values, p: seq<string>, cs: seq<string>, trail: seq<Move>): seq<string>
    requires Walks(m, V, p, cs, trail)
    decreases |trail|
  {
    if trail == [] then cs else Left(m, V, Below(p, NameOf(trail[0])), After(cs, trail[0]), trail[1..])
  }

  /** The captures of one move. */
  function Noted(params: map<string, string>, cs: seq<string>, mv: Move): map<string, string>
    requires cs != []
  {
    match mv
    case Exact(_) => params
    case ByGlob(_) => params
    case ByParam(name) => params[Trim(name, "{}") := cs[0]]
    case TakeAll => params["*" := JoinSlash(cs)]
    case TakeOne => params["*" := cs[0]]
  }

  ghost function Params(m: Engine, V: Values, p: seq<string>, cs: seq<string>, trail: seq<Move>, params: map<string, string>): map<string, string>
    requires Walks(m, V, p, cs, trail)
    decreases |trail|
  {
    if trail == [] then params
    else Params(m, V, Below(p, NameOf(trail[0])), After(cs, trail[0]), trail[1..], Noted(params, cs, trail[0]))
  }

  /** A walk that cannot go on. */
  ghost predicate Whole(m: Engine, V: Values, p: seq<string>, cs: seq<string>, trail: seq<Move>) {
    Walks(m, V, p, cs, trail)
      && var left := Left(m, V, p, cs, trail); left == [] || Stuck(m, V, End(p, trail), left[0])
  }

  // ----- the walk itself

  /** The first glob child that matches, in the map's order. */
  method PickGlob(m: Engine, n: TreeNode, c: string, ghost at: Places, ghost V: Values, ghost p: seq<string>)
    returns (found: bool, name: string)
    requires Shows(at, V) && p in at && n == at[p]
    ensures found ==> GlobChild(m, V, p, c, name) && name in n.children && n.children[name] == at[Below(p, name)]
    ensures !found ==> NoGlob(m, V, p, c)
  {
    var todo := n.children.Keys;
    while todo != {}
      invariant todo <= n.children.Keys
      invariant forall x :: x in n.children && x !in todo ==> !GlobChild(m, V, p, c, x)
      decreases todo
    {
      var x :| x in todo;
      assert Below(p, x) in at;
      if n.children[x].typ == Glob {
        var r := ComponentMatches(m, x, c);
        if r {
          return true, x;
        }
      }
      todo := todo - {x};
    }
    assert forall x :: Below(p, x) in at <==> x in n.children;
    return false, "";
  }

  /** The first child of a type, in the map's order. */
  method PickType(n: TreeNode, typ: NodeType, ghost at: Places, ghost V: Values, ghost p: seq<string>)
    returns (found: bool, name: string)
    requires Shows(at, V) && p in at && n == at[p]
    ensures found ==> Below(p, name) in V && V[Below(p, name)].typ == typ && name in n.children && n.children[name] == at[Below(p, name)]
    ensures !found ==> forall x :: Below(p, x) in V ==> V[Below(p, x)].typ != typ
  {
    var todo := n.children.Keys;
    while todo != {}
      invariant todo <= n.children.Keys
      invariant forall x :: x in n.children && x !in todo ==> Below(p, x) in V && V[Below(p, x)].typ != typ
      decreases todo
    {
      var x :| x in todo;
      assert Below(p, x) in at;
      if n.children[x].typ == typ {
        return true, x;
      }
      todo := todo - {x};
    }
    assert forall x :: Below(p, x) in at <==> x in n.children;
    return false, "";
  }

  /** `strings.Join(components, "/")`. */
  method JoinComponents(cs: seq<string>) returns (r: string)
    ensures r == JoinSlash(cs)
  {
    if cs == [] {
      return "";
    }
    r := cs[0];
    var i := 1;
    while i < |cs|
      invariant 1 <= i <= |cs| && r + PathText(cs[i..]) == JoinSlash(cs)
    {
      assert cs[i..][1..] == cs[i + 1..];
      assert r + ("/" + cs[i] + PathText(cs[i + 1..])) == (r + "/" + cs[i]) + PathText(cs[i + 1..]);
      r := r + "/" + cs[i];
      i := i + 1;
    }
    assert cs[i..] == [] && r + "" == r;
  }

  /** Only the component "*" makes a wildcard node, and only a braced one a parameter node. */
  ghost predicate Named(V: Values) {
    forall p, c {:trigger Below(p, c)} :: Below(p, c) in V ==>
      && (V[Below(p, c)].typ == Wildcard ==> c == "*")
      && (V[Below(p, c)].typ == Param ==> Braced(c))
  }

  lemma BuiltNamed(V: Values, order: seq<Entry>)
    requires Built(V, order)
    ensures Named(V)
  {
  }

  /** The move the loops of `findNodeRecursive` choose. */
  method Choose(m: Engine, n: TreeNode, c: string, ghost at: Places, ghost V: Values, ghost p: seq<string>) returns (mv: Option<Move>)
    requires Shows(at, V) && Named(V) && p in at && n == at[p]
    ensures mv.None? ==> Stuck(m, V, p, c)
    ensures mv.Some? ==> Takes(m, V, p, c, mv.value) && NameOf(mv.value) in n.children
    ensures mv.Some? ==> Below(p, NameOf(mv.value)) in at && n.children[NameOf(mv.value)] == at[Below(p, NameOf(mv.value))]
  {
    if c in n.children {
      assert Below(p, c) in at;
      return Some(Exact(c));
    }
    assert Below(p, c) !in at;
    var found, name := PickGlob(m, n, c, at, V, p);
    if found {
      return Some(ByGlob(name));
    }
    found, name := PickType(n, Param, at, V, p);
    if found {
      return Some(ByParam(name));
    }
    assert NoParam(V, p);
    found, name := PickType(n, Wildcard, at, V, p);
    if found {
      var child := n.children[name];
      assert forall x :: x in child.children <==> Below(Below(p, name), x) in at;
      if child.pattern != "" && |child.children| == 0 {
        return Some(TakeAll);
      } else {
        assert child.pattern == "" || exists x :: x in child.children.Keys;
        return Some(TakeOne);
      }
    }
    return None;
  }

  /** Walks down greedily: it never comes back from a child it has entered. */
  method FindNode(m: Engine, n: TreeNode, components: seq<string>, params: map<string, string>,
                  ghost at: Places, ghost V: Values, ghost p: seq<string>)
    returns (node: TreeNode?, out: map<string, string>, ghost trail: seq<Move>)
    requires Shows(at, V) && Named(V) && p in at && n == at[p]
    ensures Walks(m, V, p, components, trail) && End(p, trail) in at
    ensures node != null ==> node == at[End(p, trail)] && Left(m, V, p, components, trail) == []
    ensures node != null ==> out == Params(m, V, p, components, trail, params)
    ensures node == null ==> var left := Left(m, V, p, components, trail);
      left != [] && Stuck(m, V, End(p, trail), left[0]) && out == map[]
    decreases |components|
  {
    if |components| == 0 {
      return n, params, [];
    }
    var first, rest := components[0], components[1..];
    var mv := Choose(m, n, first, at, V, p);
    match mv {
      case None =>
        return null, map[], [];
      case Some(mv) =>
        ghost var below := Below(p, NameOf(mv));
        var child := n.children[NameOf(mv)];
        match mv {
          case Exact(_) =>
            node, out, trail := FindNode(m, child, rest, params, at, V, below);
          case ByGlob(_) =>
            node, out, trail := FindNode(m, child, rest, params, at, V, below);
          case ByParam(name) =>
            var paramName := Trim(name, "{}");
            node, out, trail := FindNode(m, child, rest, params[paramName := first], at, V, below);
          case TakeAll =>
            var all := JoinComponents(components);
            node, out, trail := FindNode(m, child, [], params["*" := all], at, V, below);
          case TakeOne =>
            node, out, trail := FindNode(m, child, rest, params["*" := first], at, V, below);
        }
        trail := [mv] + trail;
    }
  }
}
