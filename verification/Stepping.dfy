/** The transports go down the component tree one name at a time. On ordinary names that is the same
    walk as looking the whole path up at once. */
module Stepping {
  import opened Tokens
  import opened Globs
  import opened Components
  import opened Trees
  import opened Navigation

  /** A child that stands for itself, not for a pattern. */
  predicate Literal(V: Values, p: seq<string>, c: string) {
    Below(p, c) in V && (V[Below(p, c)].typ == Dir || V[Below(p, c)].typ == File)
  }

  /** The moves `findChild` may make: like the walk's, but a pattern node's own name is no match, and a
      wildcard takes a single component. */
  ghost predicate Steps(m: Engine, V: Values, p: seq<string>, c: string, mv: Move) {
    match mv
    case Exact(name) => name == c && Literal(V, p, c)
    case ByGlob(name) => !Literal(V, p, c) && GlobChild(m, V, p, c, name)
    case ByParam(name) => !Literal(V, p, c) && NoGlob(m, V, p, c) && ParamChild(V, p, name) && name != c
    case TakeOne =>
      && !Literal(V, p, c) && NoGlob(m, V, p, c) && (forall name :: ParamChild(V, p, name) ==> name == c)
      && Below(p, "*") in V && V[Below(p, "*")].typ == Wildcard
    case TakeAll => false
  }

  /** A child that fits one name, for the transports. */
  ghost predicate FitsName(m: Engine, V: Values, p: seq<string>, c: string, mv: Move) {
    match mv
    case Exact(name) => name == c && Literal(V, p, c)
    case ByGlob(name) => GlobChild(m, V, p, c, name)
    case ByParam(name) => ParamChild(V, p, name) && name != c
    case TakeOne => Below(p, "*") in V && V[Below(p, "*")].typ == Wildcard
    case TakeAll => false
  }

  /** They prefer the same kinds in the same order. */
  lemma StepsExactlyWhen(m: Engine, V: Values, p: seq<string>, c: string, mv: Move)
    ensures Steps(m, V, p, c, mv) <==>
      FitsName(m, V, p, c, mv) && forall mv' :: FitsName(m, V, p, c, mv') ==> Preference(mv) <= Preference(mv')
  {
    if Literal(V, p, c) {
      assert FitsName(m, V, p, c, Exact(c));
    }
    forall name
      ensures GlobChild(m, V, p, c, name) ==> FitsName(m, V, p, c, ByGlob(name))
      ensures ParamChild(V, p, name) && name != c ==> FitsName(m, V, p, c, ByParam(name))
    {
    }
  }

  /** The name between the braces, as the transports cut it out. */
  function ParamName(name: string): string {
    if |name| >= 2 then name[1..|name| - 1] else ""
  }

  /** The captures of one step. */
  function Caught(c: string, mv: Move): map<string, string> {
    match mv
    case ByParam(name) => map[ParamName(name) := c]
    case TakeOne => map["*" := c]
    case _ => map[]
  }

  /** The first parameter child whose own name is not `c`, in the map's order. */
  method PickParam(n: TreeNode, c: string, ghost at: Places, ghost V: Values, ghost p: seq<string>) returns (found: bool, name: string)
    requires Shows(at, V) && p in at && n == at[p]
    ensures found ==> ParamChild(V, p, name) && name != c && name in n.children && n.children[name] == at[Below(p, name)]
    ensures !found ==> forall x :: ParamChild(V, p, x) ==> x == c
  {
    var todo := n.children.Keys;
    while todo != {}
      invariant todo <= n.children.Keys
      invariant forall x :: x in n.children && x !in todo && ParamChild(V, p, x) ==> x == c
      decreases todo
    {
      var x :| x in todo;
      assert Below(p, x) in at;
      if n.children[x].typ == Param {
        if c != x {
          return true, x;
        }
      }
      todo := todo - {x};
    }
    assert forall x :: Below(p, x) in at <==> x in n.children;
    return false, "";
  }

  /** `findChild` of the 9p server. */
  method FindChild(m: Engine, parent: TreeNode, name: string, ghost at: Places, ghost V: Values, ghost p: seq<string>)
    returns (child: TreeNode?, params: map<string, string>, found: bool, ghost mv: Move)
    requires Shows(at, V) && Named(V) && p in at && parent == at[p]
    ensures found ==> Steps(m, V, p, name, mv) && params == Caught(name, mv)
    ensures found ==> Below(p, NameOf(mv)) in at && child == at[Below(p, NameOf(mv))]
    ensures !found ==> child == null && forall mv :: !Steps(m, V, p, name, mv)
  {
    mv := Exact(name);
    assert Below(p, name) in at <==> name in parent.children;
    if name in parent.children {
      child := parent.children[name];
      if child.typ == Param || child.typ == Wildcard || child.typ == Glob {
      } else {
        return child, map[], true, Exact(name);
      }
    }
    assert !Literal(V, p, name);
    var ok, x := PickGlob(m, parent, name, at, V, p);
    if ok {
      return parent.children[x], map[], true, ByGlob(x);
    }
    ok, x := PickParam(parent, name, at, V, p);
    if ok {
      assert Braced(x);
      var paramName := x[1..|x| - 1];
      return parent.children[x], map[paramName := name], true, ByParam(x);
    }
    ok, x := PickType(parent, Wildcard, at, V, p);
    if ok {
      return parent.children[x], map["*" := name], true, TakeOne;
    }
    return null, map[], false, Exact(name);
  }

  /** The parent's captures with those of the step. */
  function Inherited(params: map<string, string>, c: string, mv: Move): map<string, string> {
    match mv
    case ByParam(name) => params[ParamName(name) := c]
    case TakeOne => params["*" := c]
    case _ => params
  }

  /** What the FUSE server reports is what it inherited, overlaid with what the 9p server reports. */
  lemma InheritedIsOverlay(params: map<string, string>, c: string, mv: Move)
    ensures Inherited(params, c, mv) == params + Caught(c, mv)
  {
    match mv
    case ByParam(name) => assert params[ParamName(name) := c] == params + map[ParamName(name) := c];
    case TakeOne => assert params["*" := c] == params + map["*" := c];
    case _ => assert params == params + map[];
  }

  /** `findChild` of the FUSE server: the parent's captures are carried along. */
  method FindChildWith(m: Engine, parent: TreeNode, name: string, parentParams: map<string, string>,
                       ghost at: Places, ghost V: Values, ghost p: seq<string>)
    returns (child: TreeNode?, params: map<string, string>, found: bool, ghost mv: Move)
    requires Shows(at, V) && Named(V) && p in at && parent == at[p]
    ensures found ==> Steps(m, V, p, name, mv) && params == Inherited(parentParams, name, mv)
    ensures found ==> Below(p, NameOf(mv)) in at && child == at[Below(p, NameOf(mv))]
    ensures !found ==> child == null && forall mv :: !Steps(m, V, p, name, mv)
  {
    mv := Exact(name);
    assert Below(p, name) in at <==> name in parent.children;
    if name in parent.children {
      child := parent.children[name];
      if child.typ == Param || child.typ == Wildcard || child.typ == Glob {
      } else {
        return child, parentParams, true, Exact(name);
      }
    }
    assert !Literal(V, p, name);
    var ok, x := PickGlob(m, parent, name, at, V, p);
    if ok {
      return parent.children[x], parentParams, true, ByGlob(x);
    }
    ok, x := PickParam(parent, name, at, V, p);
    if ok {
      assert Braced(x);
      var paramName := x[1..|x| - 1];
      return parent.children[x], parentParams[paramName := name], true, ByParam(x);
    }
    ok, x := PickType(parent, Wildcard, at, V, p);
    if ok {
      return parent.children[x], parentParams["*" := name], true, TakeOne;
    }
    return null, map[], false, Exact(name);
  }

  // ----- step by step, or at once

  /** No name of the path is the name of a pattern node. */
  ghost predicate Ordinary(V: Values, cs: seq<string>) {
    forall p, c {:trigger Below(p, c)} :: c in cs && Below(p, c) in V ==> Literal(V, p, c)
  }

  /** No wildcard nodes, and parameter names without further braces. */
  ghost predicate Simple(V: Values) {
    forall p, c {:trigger Below(p, c)} :: Below(p, c) in V ==>
      && V[Below(p, c)].typ != Wildcard
      && (V[Below(p, c)].typ == Param ==> ParamName(c) == Trim(c, "{}"))
  }

  /** At most one parameter and one matching glob at each node. */
  ghost predicate OneWay(m: Engine, V: Values, cs: seq<string>) {
    && (forall p, x, y {:trigger ParamChild(V, p, x), ParamChild(V, p, y)} :: ParamChild(V, p, x) && ParamChild(V, p, y) ==> x == y)
    && (forall p, c, x, y {:trigger GlobChild(m, V, p, c, x), GlobChild(m, V, p, c, y)} ::
          c in cs && GlobChild(m, V, p, c, x) && GlobChild(m, V, p, c, y) ==> x == y)
  }

  /** On an ordinary name a step is a move of the walk, and the other way round. */
  lemma StepIsMove(m: Engine, V: Values, p: seq<string>, c: string, mv: Move)
    requires Simple(V) && (Below(p, c) in V ==> Literal(V, p, c))
    ensures Steps(m, V, p, c, mv) <==> Takes(m, V, p, c, mv)
    ensures Steps(m, V, p, c, mv) ==> forall params, cs :: cs != [] && cs[0] == c ==> Noted(params, cs, mv) == Inherited(params, c, mv)
  {
    if mv.ByParam? {
      assert Below(p, mv.name) in V ==> V[Below(p, mv.name)].typ == Param ==> ParamName(mv.name) == Trim(mv.name, "{}");
    }
    if mv.TakeOne? || mv.TakeAll? {
      assert Below(p, "*") in V ==> V[Below(p, "*")].typ != Wildcard;
    }
  }

  lemma StepsAreMoves(m: Engine, V: Values, p: seq<string>, c: string)
    requires Simple(V) && (Below(p, c) in V ==> Literal(V, p, c))
    ensures (forall mv :: !Steps(m, V, p, c, mv)) ==> Stuck(m, V, p, c)
  {
    forall mv ensures Steps(m, V, p, c, mv) <==> Takes(m, V, p, c, mv) {
      StepIsMove(m, V, p, c, mv);
    }
  }

  lemma OnlyMove(m: Engine, V: Values, p: seq<string>, c: string, mv: Move, mv': Move)
    requires Simple(V) && OneWay(m, V, [c]) && Takes(m, V, p, c, mv) && Takes(m, V, p, c, mv')
    ensures mv == mv'
  {
    assert Below(p, "*") in V ==> V[Below(p, "*")].typ != Wildcard;
  }

  /** One more step is one more move of the walk. */
  lemma OneStep(m: Engine, V: Values, names: seq<string>, trail: seq<Move>, i: nat, mv: Move, params: map<string, string>)
    requires Simple(V) && Ordinary(V, names) && i < |names|
    requires Walks(m, V, [], names, trail) && Left(m, V, [], names, trail) == names[i..]
    requires params == Params(m, V, [], names, trail, map[]) && Steps(m, V, End([], trail), names[i], mv)
    ensures Walks(m, V, [], names, trail + [mv]) && Left(m, V, [], names, trail + [mv]) == names[i + 1..]
    ensures End([], trail + [mv]) == Below(End([], trail), NameOf(mv))
    ensures Inherited(params, names[i], mv) == Params(m, V, [], names, trail + [mv], map[])
  {
    StepIsMove(m, V, End([], trail), names[i], mv);
    Farther(m, V, [], names, trail, mv, map[]);
    assert Noted(params, names[i..], mv) == Inherited(params, names[i], mv);
  }

  /** Goes down name by name, as the transports do, as far as it gets. */
  method Navigate(m: Engine, root: TreeNode, names: seq<string>, ghost at: Places, ghost V: Values)
    returns (node: TreeNode?, params: map<string, string>, ghost trail: seq<Move>)
    requires Shows(at, V) && Named(V) && [] in at && root == at[[]]
    requires Simple(V) && Ordinary(V, names)
    ensures Walks(m, V, [], names, trail)
    ensures node != null ==> End([], trail) in at && node == at[End([], trail)] && Left(m, V, [], names, trail) == []
    ensures node != null ==> params == Params(m, V, [], names, trail, map[])
    ensures node == null ==> var left := Left(m, V, [], names, trail);
      left != [] && Stuck(m, V, End([], trail), left[0]) && params == map[]
  {
    node, params, trail := root, map[], [];
    var i := 0;
    while i < |names|
      invariant 0 <= i <= |names| && node != null
      invariant Walks(m, V, [], names, trail) && Left(m, V, [], names, trail) == names[i..]
      invariant End([], trail) in at && node == at[End([], trail)]
      invariant params == Params(m, V, [], names, trail, map[])
    {
      ghost var here := End([], trail);
      StepsAreMoves(m, V, here, names[i]);
      var child, more, found, mv := FindChildWith(m, node, names[i], params, at, V, here);
      if !found {
        return null, map[], trail;
      }
      OneStep(m, V, names, trail, i, mv, params);
      node, params, trail := child, more, trail + [mv];
      i := i + 1;
    }
    assert names[i..] == [];
  }

  /** One more move at the end of a walk. */
  lemma {:induction false} Farther(m: Engine, V: Values, p: seq<string>, cs: seq<string>, trail: seq<Move>, mv: Move, params: map<string, string>)
    requires Walks(m, V, p, cs, trail)
    requires var left := Left(m, V, p, cs, trail); left != [] && Takes(m, V, End(p, trail), left[0], mv) && !mv.TakeAll?
    ensures var left := Left(m, V, p, cs, trail);
      && Walks(m, V, p, cs, trail + [mv]) && End(p, trail + [mv]) == Below(End(p, trail), NameOf(mv))
      && Left(m, V, p, cs, trail + [mv]) == left[1..]
      && Params(m, V, p, cs, trail + [mv], params) == Noted(Params(m, V, p, cs, trail, params), left, mv)
    decreases |trail|
  {
    if trail == [] {
      assert [] + [mv] == [mv] && [mv][1..] == [];
    } else {
      Farther(m, V, Below(p, NameOf(trail[0])), After(cs, trail[0]), trail[1..], mv, Noted(params, cs, trail[0]));
      assert (trail + [mv])[1..] == trail[1..] + [mv];
    }
  }

  /** There is only one such walk: going step by step and looking the path up at once come to the same
      node with the same captures, or fail at the same place. */
  lemma {:induction false} OneWalk(m: Engine, V: Values, p: seq<string>, cs: seq<string>, trail: seq<Move>, trail': seq<Move>)
    requires Simple(V) && OneWay(m, V, cs)
    requires Whole(m, V, p, cs, trail) && Whole(m, V, p, cs, trail')
    ensures trail == trail'
    decreases |cs|
  {
    if cs != [] {
      if trail == [] || trail' == [] {
        assert trail == trail';
      } else {
        OnlyMove(m, V, p, cs[0], trail[0], trail'[0]);
        OneWalk(m, V, Below(p, NameOf(trail[0])), cs[1..], trail[1..], trail'[1..]);
        assert trail == [trail[0]] + trail[1..] && trail' == [trail'[0]] + trail'[1..];
      }
    }
  }

  /** Goes name by name, and looks the whole path up at once: both come to the same node. */
  method NavigateBothWays(m: Engine, root: TreeNode, names: seq<string>, ghost at: Places, ghost V: Values)
    returns (stepped: TreeNode?, params: map<string, string>, found: TreeNode?, out: map<string, string>, ghost trail: seq<Move>)
    requires Shows(at, V) && Named(V) && [] in at && root == at[[]]
    requires Simple(V) && Ordinary(V, names) && OneWay(m, V, names)
    ensures stepped == found && params == out
    ensures Walks(m, V, [], names, trail)
    ensures found != null ==> End([], trail) in at && found == at[End([], trail)] && Left(m, V, [], names, trail) == []
    ensures found != null ==> out == Params(m, V, [], names, trail, map[])
  {
    ghost var trail';
    stepped, params, trail := Navigate(m, root, names, at, V);
    found, out, trail' := FindNode(m, root, names, map[], at, V, []);
    OneWalk(m, V, [], names, trail, trail');
  }
}
