/** Building the component tree, node by node. */
module Trees {
  import opened Tables
  import opened Components
  import opened Listing

  /** The nodes of a tree by the components that lead to them. */
  type Places = map<seq<string>, TreeNode>

  /** What one node holds, apart from its children. */
  datatype Value = Value(name: string, typ: NodeType, pattern: string, handlers: map<string, Handler>)

  type Values = map<seq<string>, Value>

  class TreeNode {
    var name: string
    var typ: NodeType
    var pattern: string
    var children: map<string, TreeNode>
    var handlers: map<string, Handler>
    ghost const place: seq<string>

    ghost predicate Holds(v: Value)
      reads this`name, this`typ, this`pattern, this`handlers
    {
      name == v.name && typ == v.typ && pattern == v.pattern && handlers == v.handlers
    }

    constructor (name: string, typ: NodeType, ghost place: seq<string>)
      ensures this.name == name && this.typ == typ && pattern == "" && children == map[] && handlers == map[]
      ensures this.place == place
    {
      this.place := place;
      this.name, this.typ, pattern, children, handlers := name, typ, "", map[], map[];
    }
  }

  /** The place one component below `p`. */
  function Below(p: seq<string>, c: string): seq<string> {
    p + [c]
  }

  /** Distinct places hold distinct nodes, and a node's children are the places one step below it. */
  ghost predicate Linked(at: Places)
    reads at.Values`children
  {
    && [] in at
    && (forall p :: p in at ==> at[p].place == p)
    && (forall p, c {:trigger Below(p, c)} :: p in at ==>
          && (c in at[p].children <==> Below(p, c) in at)
          && (c in at[p].children ==> at[p].children[c] == at[Below(p, c)]))
  }

  // ----- trees as values

  /** What the nodes hold. */
  ghost predicate Shows(at: Places, V: Values)
    reads at.Values
  {
    && Linked(at)
    && at.Keys == V.Keys
    && (forall p :: p in at ==> at[p].Holds(V[p]))
  }

  /** What the node at `p` holds after the routes `order`. */
  function ValueAt(order: seq<Entry>, p: seq<string>): Value {
    Value(NameAt(p), TypeAt(order, p), PatternAfter(order, p), HandlersAfter(order, p))
  }

  /** The tree that the routes `order` give, in this order. */
  ghost predicate Built(V: Values, order: seq<Entry>) {
    && (forall p :: p in V <==> Has(order, p))
    && (forall p :: p in V ==> V[p] == ValueAt(order, p))
  }

  /** Every place has its parent. */
  ghost predicate Closed(V: Values) {
    [] in V && forall p, c {:trigger Below(p, c)} :: Below(p, c) in V ==> p in V
  }

  /** The step of the loop that reaches the place `below`. */
  function Entered(V: Values, below: seq<string>, isLast: bool): Values
    requires below != []
  {
    if below !in V then
      V[below := Value(NameAt(below), TypeOf(NameAt(below), !isLast), "", map[])]
    else if !isLast && V[below].typ == File then V[below := V[below].(typ := Dir)]
    else V
  }

  /** The type of a node while route `e` is being added: settled on the first `i` components. */
  function TypeMid(order: seq<Entry>, e: Entry, i: nat, p: seq<string>): NodeType
    requires i <= |SplitPath(e.pattern)|
  {
    if p <= SplitPath(e.pattern)[..i] then TypeAt(order + [e], p) else TypeAt(order, p)
  }

  /** One place while a route is being added, `i` components along its way. */
  predicate PartlyAt(V: Values, order: seq<Entry>, e: Entry, i: nat, p: seq<string>)
    requires i <= |SplitPath(e.pattern)|
  {
    && (p in V <==> Has(order, p) || p <= SplitPath(e.pattern)[..i])
    && (p in V ==> V[p] == Value(NameAt(p), TypeMid(order, e, i, p), PatternAfter(order, p), HandlersAfter(order, p)))
  }

  /** Half-way through adding a route: the nodes on the first `i` components are there. */
  ghost predicate Partly(V: Values, order: seq<Entry>, e: Entry, i: nat)
    requires i <= |SplitPath(e.pattern)|
  {
    forall p :: PartlyAt(V, order, e, i, p)
  }

  lemma OneFurther(parts: seq<string>, i: nat, p: seq<string>)
    requires i < |parts|
    ensures p <= parts[..i + 1] <==> p <= parts[..i] || p == parts[..i + 1]
    ensures parts[..i + 1] == parts[..i] + [parts[i]]
    ensures !(parts[..i + 1] <= parts[..i])
  {
    if p <= parts[..i + 1] && p != parts[..i + 1] {
      assert |p| <= i;
      assert p == parts[..i + 1][..|p|] == parts[..i][..|p|];
    }
    if p <= parts[..i] {
      assert p == parts[..i][..|p|] == parts[..i + 1][..|p|];
    }
  }

  /** Only the type of the node just reached changes. */
  lemma TypeStep(order: seq<Entry>, e: Entry, i: nat, p: seq<string>)
    requires i < |SplitPath(e.pattern)|
    ensures var parts := SplitPath(e.pattern);
      TypeMid(order, e, i + 1, p) ==
        if p != parts[..i + 1] then TypeMid(order, e, i, p)
        else if i + 1 < |parts| && TypeAt(order, p) == File then Dir
        else TypeAt(order, p)
  {
    var parts := SplitPath(e.pattern);
    OneFurther(parts, i, p);
    if p == parts[..i + 1] {
      assert Passes(e, p) && (parts == p <==> i + 1 == |parts|);
      TypeMore(order, e, p);
    }
  }

  /** Nothing lies below or at a place that is not there yet. */
  lemma NewType(order: seq<Entry>, e: Entry, i: nat)
    requires i < |SplitPath(e.pattern)| && !Has(order, SplitPath(e.pattern)[..i + 1])
    ensures var parts := SplitPath(e.pattern); Deeper(order + [e], parts[..i + 1]) <==> i + 1 != |parts|
    ensures var p := SplitPath(e.pattern)[..i + 1]; PatternAfter(order, p) == "" && HandlersAfter(order, p) == map[]
    ensures var p := SplitPath(e.pattern)[..i + 1]; TypeMid(order, e, i + 1, p) == TypeAt(order + [e], p)
  {
    var p := SplitPath(e.pattern)[..i + 1];
    HasMore(order, e, p);
    PatternIs(order, p);
    assert forall f :: f in order && SplitPath(f.pattern) == p ==> Passes(f, p);
    NoHandlers(order, p);
  }

  lemma {:induction false} NoHandlers(order: seq<Entry>, p: seq<string>)
    requires forall f :: f in order ==> SplitPath(f.pattern) != p
    ensures HandlersAfter(order, p) == map[]
  {
    if order != [] {
      NoHandlers(order[..|order| - 1], p);
    }
  }

  /** The places that the step does not reach, */
  lemma PlaceElsewhere(V: Values, order: seq<Entry>, e: Entry, i: nat, p: seq<string>)
    requires i < |SplitPath(e.pattern)| && PartlyAt(V, order, e, i, p) && p != SplitPath(e.pattern)[..i + 1]
    ensures PartlyAt(Entered(V, SplitPath(e.pattern)[..i + 1], i + 1 == |SplitPath(e.pattern)|), order, e, i + 1, p)
  {
    OneFurther(SplitPath(e.pattern), i, p);
    TypeStep(order, e, i, p);
  }

  /** the place it reaches, when it is there, */
  lemma PlaceOld(V: Values, order: seq<Entry>, e: Entry, i: nat)
    requires i < |SplitPath(e.pattern)| && PartlyAt(V, order, e, i, SplitPath(e.pattern)[..i + 1])
    requires SplitPath(e.pattern)[..i + 1] in V
    ensures var p := SplitPath(e.pattern)[..i + 1];
      PartlyAt(Entered(V, p, i + 1 == |SplitPath(e.pattern)|), order, e, i + 1, p)
  {
    var p := SplitPath(e.pattern)[..i + 1];
    OneFurther(SplitPath(e.pattern), i, p);
    assert V[p].typ == TypeAt(order, p);
    TypeStep(order, e, i, p);
  }

  /** and when it is not. */
  lemma PlaceNew(V: Values, order: seq<Entry>, e: Entry, i: nat)
    requires i < |SplitPath(e.pattern)| && PartlyAt(V, order, e, i, SplitPath(e.pattern)[..i + 1])
    requires SplitPath(e.pattern)[..i + 1] !in V
    ensures var p := SplitPath(e.pattern)[..i + 1];
      PartlyAt(Entered(V, p, i + 1 == |SplitPath(e.pattern)|), order, e, i + 1, p)
  {
    NewType(order, e, i);
    assert TypeAt(order + [e], SplitPath(e.pattern)[..i + 1]) ==
      TypeOf(NameAt(SplitPath(e.pattern)[..i + 1]), i + 1 != |SplitPath(e.pattern)|);
  }

  lemma EnteredPartly(V: Values, order: seq<Entry>, e: Entry, i: nat)
    requires i < |SplitPath(e.pattern)| && Partly(V, order, e, i)
    ensures Partly(Entered(V, SplitPath(e.pattern)[..i + 1], i + 1 == |SplitPath(e.pattern)|), order, e, i + 1)
  {
    var below, j := SplitPath(e.pattern)[..i + 1], i + 1;
    var V' := Entered(V, below, j == |SplitPath(e.pattern)|);
    forall p
      ensures PartlyAt(V', order, e, j, p)
    {
      assert PartlyAt(V, order, e, i, p);
      if p != below {
        PlaceElsewhere(V, order, e, i, p);
      } else if p in V {
        PlaceOld(V, order, e, i);
      } else {
        PlaceNew(V, order, e, i);
      }
    }
  }

  // ----- the nodes themselves

  lemma AppendIs<T>(p: seq<T>, c: T, q: seq<T>, d: T)
    requires p + [c] == q + [d]
    ensures p == q && c == d
  {
    assert (p + [c])[..|p|] == p && (q + [d])[..|q|] == q;
    assert (p + [c])[|p|] == c && (q + [d])[|q|] == d;
  }

  /** The type decision of `addRouteToTree`. */
  method ChildType(part: string, isLast: bool) returns (childType: NodeType)
    ensures childType == TypeOf(part, !isLast)
  {
    var isParam := part != "" && part[0] == '{' && part[|part| - 1] == '}';
    var isWildcard := part == "*";
    var isGlob := ('*' in part || '?' in part) && !isWildcard;
    childType := if isLast then File else Dir;
    if isParam {
      childType := Param;
    }
    if isWildcard {
      childType := Wildcard;
    }
    if isGlob {
      childType := Glob;
    }
  }

  /** Hangs a new node below the node at `here`. */
  method AddChild(node: TreeNode, part: string, childType: NodeType, ghost at: Places, ghost here: seq<string>)
    returns (child: TreeNode)
    requires Linked(at) && here in at && node == at[here] && Below(here, part) !in at
    requires forall c :: Below(Below(here, part), c) !in at
    modifies node`children
    ensures fresh(child) && child.name == part && child.typ == childType && child.pattern == "" && child.handlers == map[]
    ensures Linked(at[Below(here, part) := child])
  {
    child := new TreeNode(part, childType, Below(here, part));
    node.children := node.children[part := child];
    ghost var at' := at[Below(here, part) := child];
    forall p, c | p in at'
      ensures c in at'[p].children <==> Below(p, c) in at'
      ensures c in at'[p].children ==> at'[p].children[c] == at'[Below(p, c)]
    {
      if Below(p, c) == Below(here, part) {
        AppendIs(p, c, here, part);
      }
    }
  }

  method EnterNew(node: TreeNode, part: string, childType: NodeType, ghost at: Places, ghost V: Values, ghost here: seq<string>)
    returns (child: TreeNode)
    requires Shows(at, V) && Closed(V) && here in at && node == at[here] && part !in node.children
    modifies node`children
    ensures Below(here, part) !in V && fresh(child)
    ensures Shows(at[Below(here, part) := child], V[Below(here, part) := Value(part, childType, "", map[])])
  {
    assert Below(here, part) !in V;
    child := AddChild(node, part, childType, at, here);
  }

  method Upgrade(child: TreeNode, ghost at: Places, ghost V: Values, ghost p: seq<string>)
    requires Shows(at, V) && p in at && child == at[p]
    modifies child`typ
    ensures Shows(at, V[p := V[p].(typ := Dir)])
  {
    child.typ := Dir;
  }

  /** Goes down one component, adding the child or turning a file into a directory. */
  method Enter(node: TreeNode, part: string, isLast: bool, ghost at: Places, ghost V: Values, ghost here: seq<string>)
    returns (child: TreeNode, ghost at': Places)
    requires Shows(at, V) && Closed(V) && here in at && node == at[here]
    modifies at.Values
    ensures Shows(at', Entered(V, Below(here, part), isLast)) && Below(here, part) in at' && child == at'[Below(here, part)]
    ensures at'[[]] == at[[]]
    ensures forall n :: n in at'.Values ==> n in at.Values || fresh(n)
  {
    var childType := ChildType(part, isLast);
    if part !in node.children {
      child := EnterNew(node, part, childType, at, V, here);
      at' := at[Below(here, part) := child];
    } else {
      child := node.children[part];
      assert child == at[Below(here, part)];
      if !isLast && child.typ == File {
        Upgrade(child, at, V, Below(here, part));
      }
      at' := at;
    }
  }

  /** Without the first component nothing has been passed yet but the root. */
  lemma PartlyBegins(V: Values, order: seq<Entry>, e: Entry)
    requires Built(V, order)
    ensures Partly(V, order, e, 0)
  {
    assert SplitPath(e.pattern)[..0] == [];
    forall p
      ensures PartlyAt(V, order, e, 0, p)
    {
    }
  }

  /** The end of `addRouteToTree`, as a value. */
  function WithRoute(V: Values, p: seq<string>, e: Entry): Values
    requires p in V
  {
    V[p := V[p].(pattern := e.pattern, handlers := V[p].handlers[e.op := e.handler])]
  }

  lemma PartlyEnds(V: Values, order: seq<Entry>, e: Entry)
    requires Partly(V, order, e, |SplitPath(e.pattern)|)
    ensures var p := SplitPath(e.pattern); p in V && Built(WithRoute(V, p, e), order + [e])
  {
    var parts := SplitPath(e.pattern);
    assert parts[..|parts|] == parts;
    assert PartlyAt(V, order, e, |parts|, parts);
    forall p
      ensures p in V <==> Has(order + [e], p)
      ensures p in V ==> WithRoute(V, parts, e)[p] == ValueAt(order + [e], p)
    {
      assert PartlyAt(V, order, e, |parts|, p);
      PartlyEndsAt(V, order, e, p);
    }
  }

  lemma PartlyEndsAt(V: Values, order: seq<Entry>, e: Entry, p: seq<string>)
    requires PartlyAt(V, order, e, |SplitPath(e.pattern)|, p) && SplitPath(e.pattern) in V
    ensures p in V <==> Has(order + [e], p)
    ensures p in V ==> WithRoute(V, SplitPath(e.pattern), e)[p] == ValueAt(order + [e], p)
  {
    var parts := SplitPath(e.pattern);
    assert parts[..|parts|] == parts;
    assert Passes(e, p) <==> p <= parts;
    HasMore(order, e, p);
    AfterMore(order, e, p);
    TypeEnds(order, e, p);
  }

  lemma TypeEnds(order: seq<Entry>, e: Entry, p: seq<string>)
    ensures TypeMid(order, e, |SplitPath(e.pattern)|, p) == TypeAt(order + [e], p)
  {
    var parts := SplitPath(e.pattern);
    assert parts[..|parts|] == parts;
    if p != [] {
      TypeMore(order, e, p);
    }
  }

  lemma ParentOf(order: seq<Entry>, path: seq<string>, p: seq<string>, c: string)
    requires Has(order, p + [c]) || p + [c] <= path
    ensures Has(order, p) || p <= path
  {
    PrefixOf(p, c, path);
    if Has(order, p + [c]) {
      var e :| e in order && Passes(e, p + [c]);
      PrefixOf(p, c, SplitPath(e.pattern));
      assert Passes(e, p);
    }
  }

  lemma PrefixOf<T>(p: seq<T>, c: T, path: seq<T>)
    ensures p + [c] <= path ==> p <= path
  {
    if p + [c] <= path {
      assert path[..|p|] == (p + [c])[..|p|] == p;
    }
  }

  /** Stores pattern and handler at the last node. */
  method SetRoute(node: TreeNode, operation: string, pathPattern: string, handler: Handler,
                  ghost at: Places, ghost V: Values, ghost p: seq<string>)
    requires Shows(at, V) && p in at && node == at[p]
    modifies node`pattern, node`handlers
    ensures Shows(at, WithRoute(V, p, Entry(operation, pathPattern, handler)))
  {
    node.pattern := pathPattern;
    node.handlers := node.handlers[operation := handler];
  }

  // ----- a whole route, as a value

  function PathTo(V: Values, parts: seq<string>, i: nat): Values
    requires i <= |parts|
  {
    if i == 0 then V else Entered(PathTo(V, parts, i - 1), parts[..i], i == |parts|)
  }

  lemma {:induction false} PathClosed(V: Values, parts: seq<string>, i: nat)
    requires i <= |parts| && Closed(V)
    ensures Closed(PathTo(V, parts, i)) && parts[..i] in PathTo(V, parts, i)
  {
    if i == 0 {
      assert parts[..0] == [];
    } else {
      PathClosed(V, parts, i - 1);
      var before := PathTo(V, parts, i - 1);
      forall p, c | Below(p, c) in PathTo(V, parts, i)
        ensures p in PathTo(V, parts, i)
      {
        if Below(p, c) == parts[..i] {
          assert parts[..i] == Below(parts[..i - 1], parts[i - 1]);
          AppendIs(p, c, parts[..i - 1], parts[i - 1]);
        }
      }
    }
  }

  lemma {:induction false} PathPartly(V: Values, order: seq<Entry>, e: Entry, i: nat)
    requires Built(V, order) && i <= |SplitPath(e.pattern)|
    ensures Partly(PathTo(V, SplitPath(e.pattern), i), order, e, i)
  {
    if i == 0 {
      PartlyBegins(V, order, e);
    } else {
      PathPartly(V, order, e, i - 1);
      EnteredPartly(PathTo(V, SplitPath(e.pattern), i - 1), order, e, i - 1);
    }
  }

  function Added(V: Values, e: Entry): (r: Values)
    requires Closed(V)
    ensures Closed(r)
  {
    var parts := SplitPath(e.pattern);
    PathClosed(V, parts, |parts|);
    assert parts[..|parts|] == parts;
    WithRoute(PathTo(V, parts, |parts|), parts, e)
  }

  lemma BuiltClosed(V: Values, order: seq<Entry>)
    requires Built(V, order)
    ensures Closed(V)
  {
    forall p, c | Below(p, c) in V
      ensures p in V
    {
      ParentOf(order, [], p, c);
    }
  }

  /** Adding a route to the tree of some routes gives the tree of those routes and the new one. */
  lemma AddedBuilt(V: Values, order: seq<Entry>, e: Entry)
    requires Built(V, order) && Closed(V)
    ensures Built(Added(V, e), order + [e]) && Closed(Added(V, e))
  {
    PathPartly(V, order, e, |SplitPath(e.pattern)|);
    PartlyEnds(PathTo(V, SplitPath(e.pattern), |SplitPath(e.pattern)|), order, e);
    BuiltClosed(Added(V, e), order + [e]);
  }

  /** One turn of the loop over the components. */
  method EnterNext(node: TreeNode, parts: seq<string>, i: nat, ghost at: Places, ghost V: Values)
    returns (child: TreeNode, ghost at': Places)
    requires i < |parts| && Closed(V) && Shows(at, PathTo(V, parts, i)) && parts[..i] in at && node == at[parts[..i]]
    modifies at.Values
    ensures Shows(at', PathTo(V, parts, i + 1)) && parts[..i + 1] in at' && child == at'[parts[..i + 1]]
    ensures at'[[]] == at[[]]
    ensures forall n :: n in at'.Values ==> n in at.Values || fresh(n)
  {
    PathClosed(V, parts, i);
    assert parts[..i + 1] == Below(parts[..i], parts[i]);
    child, at' := Enter(node, parts[i], i == |parts| - 1, at, PathTo(V, parts, i), parts[..i]);
  }

  method AddRouteToTree(root: TreeNode, operation: string, pathPattern: string, handler: Handler, ghost at: Places, ghost V: Values)
    returns (ghost at': Places)
    requires Shows(at, V) && Closed(V) && root == at[[]]
    modifies at.Values
    ensures Shows(at', Added(V, Entry(operation, pathPattern, handler))) && at'[[]] == root
    ensures forall n :: n in at'.Values ==> n in at.Values || fresh(n)
  {
    var parts := SplitPath(pathPattern);
    var node := root;
    at' := at;
    var i := 0;
    while i < |parts|
      invariant 0 <= i <= |parts|
      invariant Shows(at', PathTo(V, parts, i)) && parts[..i] in at' && node == at'[parts[..i]] && at'[[]] == root
      invariant forall n :: n in at'.Values ==> n in at.Values || fresh(n)
    {
      node, at' := EnterNext(node, parts, i, at', V);
      i := i + 1;
    }
    assert parts[..i] == parts;
    SetRoute(node, operation, pathPattern, handler, at', PathTo(V, parts, i), parts);
  }

  // ----- the whole tree

  function AddedAll(V: Values, es: seq<Entry>): (r: Values)
    requires Closed(V)
    ensures Closed(r)
  {
    if es == [] then V else Added(AddedAll(V, es[..|es| - 1]), es[|es| - 1])
  }

  lemma AddedLast(V: Values, es: seq<Entry>, e: Entry)
    requires Closed(V)
    ensures AddedAll(V, es + [e]) == Added(AddedAll(V, es), e)
  {
    assert (es + [e])[..|es|] == es;
  }

  const ROOT: Values := map[[] := Value("", Dir, "", map[])]

  lemma RootClosed()
    ensures Closed(ROOT) && Built(ROOT, [])
  {
    assert forall p, c :: Below(p, c) != [];
  }

  lemma {:induction false} AllBuilt(es: seq<Entry>)
    requires Closed(ROOT)
    ensures Built(AddedAll(ROOT, es), es)
  {
    if es == [] {
      RootClosed();
    } else {
      var n := |es| - 1;
      AllBuilt(es[..n]);
      assert es == es[..n] + [es[n]];
      AddedBuilt(AddedAll(ROOT, es[..n]), es[..n], es[n]);
    }
  }

  predicate NoRepeats(es: seq<Entry>) {
    forall i, j :: 0 <= i < j < |es| ==> es[i] != es[j]
  }

  lemma NoRepeatsMore(es: seq<Entry>, e: Entry)
    requires NoRepeats(es) && e !in es
    ensures NoRepeats(es + [e]) && forall x :: x in es + [e] <==> x in es || x == e
  {
  }

  /** Adds one operation's routes, in whatever order the map gives them. */
  method AddRoutes(root: TreeNode, op: string, opRoutes: map<string, Handler>, ghost at: Places, ghost V: Values, ghost order: seq<Entry>)
    returns (ghost at': Places, ghost order': seq<Entry>)
    requires Closed(V) && Shows(at, AddedAll(V, order)) && root == at[[]]
    requires NoRepeats(order) && forall e :: e in order ==> e.op != op
    modifies at.Values
    ensures Shows(at', AddedAll(V, order')) && at'[[]] == root
    ensures forall n :: n in at'.Values ==> n in at.Values || fresh(n)
    ensures NoRepeats(order')
    ensures forall e :: e in order' <==> e in order || (e.op == op && e.pattern in opRoutes && e.handler == opRoutes[e.pattern])
  {
    at', order' := at, order;
    var todo := opRoutes.Keys;
    while todo != {}
      invariant todo <= opRoutes.Keys
      invariant Shows(at', AddedAll(V, order')) && at'[[]] == root
      invariant forall n :: n in at'.Values ==> n in at.Values || fresh(n)
      invariant NoRepeats(order')
      invariant forall e :: e in order' <==>
        e in order || (e.op == op && e.pattern in opRoutes && e.pattern !in todo && e.handler == opRoutes[e.pattern])
      decreases todo
    {
      var p :| p in todo;
      ghost var e := Entry(op, p, opRoutes[p]);
      AddedLast(V, order', e);
      NoRepeatsMore(order', e);
      at' := AddRouteToTree(root, op, p, opRoutes[p], at', AddedAll(V, order'));
      order' := order' + [e];
      todo := todo - {p};
    }
  }

  /** The routes added are those of the operations that are not left over. */
  ghost predicate AddedBut(handlers: Handlers, order: seq<Entry>, ops: set<string>) {
    forall e :: e in order <==> InMap(handlers, e.op, e.pattern, e.handler) && e.op !in ops
  }

  lemma OperationDone(handlers: Handlers, before: seq<Entry>, order: seq<Entry>, ops: set<string>, op: string)
    requires AddedBut(handlers, before, ops) && op in ops && op in handlers
    requires forall e :: e in order <==>
      e in before || (e.op == op && e.pattern in handlers[op] && e.handler == handlers[op][e.pattern])
    ensures AddedBut(handlers, order, ops - {op})
  {
  }

  /** Builds the tree, in whatever order the maps give their entries. */
  method BuildTree(handlers: Handlers) returns (root: TreeNode, ghost at: Places, ghost V: Values, ghost order: seq<Entry>)
    ensures fresh(at.Values) && Shows(at, V) && Built(V, order) && [] in at && root == at[[]]
    ensures NoRepeats(order) && forall e :: e in order <==> InMap(handlers, e.op, e.pattern, e.handler)
  {
    RootClosed();
    root := new TreeNode("", Dir, []);
    at, order := map[[] := root], [];
    var ops := handlers.Keys;
    while ops != {}
      invariant ops <= handlers.Keys
      invariant Shows(at, AddedAll(ROOT, order)) && [] in at && root == at[[]] && fresh(at.Values)
      invariant NoRepeats(order) && AddedBut(handlers, order, ops)
      decreases ops
    {
      var op :| op in ops;
      ghost var before := order;
      at, order := AddRoutes(root, op, handlers[op], at, ROOT, order);
      OperationDone(handlers, before, order, ops, op);
      ops := ops - {op};
    }
    V := AddedAll(ROOT, order);
    AllBuilt(order);
  }

  // ----- what the tree depends on

  /** No two patterns of the map have the same components. */
  ghost predicate OnePatternEach(hs: Handlers) {
    forall op, p, h, op', p', h' ::
      InMap(hs, op, p, h) && InMap(hs, op', p', h') && SplitPath(p) == SplitPath(p') ==> p == p'
  }

  /** Trees of the same shape whose nodes hold the same. */
  ghost predicate SameTree(at: Places, at': Places)
    reads at.Values, at'.Values
  {
    && at.Keys == at'.Keys
    && forall p :: p in at ==>
         && at[p].name == at'[p].name && at[p].typ == at'[p].typ && at[p].pattern == at'[p].pattern
         && at[p].handlers == at'[p].handlers && at[p].children.Keys == at'[p].children.Keys
  }

  /** The routes of a tree, without regard to their order. */
  function Routes(order: seq<Entry>): set<Entry> {
    set e | e in order
  }

  lemma ValuesAgree(V: Values, order: seq<Entry>, V': Values, order': seq<Entry>)
    requires Built(V, order) && Built(V', order') && NoRepeats(order) && NoRepeats(order')
    requires Routes(order) == Routes(order') && Functional(Routes(order)) && OneEach(Routes(order))
    ensures V == V'
  {
    var S := Routes(order);
    assert forall e :: e in order' <==> e in Routes(order');
    forall p
      ensures p in V <==> p in V'
      ensures p in V ==> V[p] == V'[p]
    {
      OrderIndependent(S, order, order', p);
    }
  }

  /** Trees that show the same values are the same. */
  lemma SameShown(at: Places, at': Places, V: Values)
    requires Shows(at, V) && Shows(at', V)
    ensures SameTree(at, at')
  {
    forall p | p in at
      ensures at[p].children.Keys == at'[p].children.Keys
    {
      forall c ensures c in at[p].children <==> c in at'[p].children {
        assert Below(p, c) in at <==> Below(p, c) in at';
      }
    }
  }

  lemma MapRoutes(hs: Handlers, order: seq<Entry>)
    requires OnePatternEach(hs) && forall e :: e in order <==> InMap(hs, e.op, e.pattern, e.handler)
    ensures Functional(Routes(order)) && OneEach(Routes(order))
  {
    forall e, f | e in Routes(order) && f in Routes(order) && SplitPath(e.pattern) == SplitPath(f.pattern)
      ensures e.pattern == f.pattern
    {
      assert InMap(hs, e.op, e.pattern, e.handler) && InMap(hs, f.op, f.pattern, f.handler);
    }
  }

  /** Whatever the enumeration order of its maps, `BuildTree` gives the same tree, when no two patterns
      have the same components. */
  lemma TreesAgree(hs: Handlers, at: Places, V: Values, order: seq<Entry>, at': Places, V': Values, order': seq<Entry>)
    requires OnePatternEach(hs) && Shows(at, V) && Built(V, order) && Shows(at', V') && Built(V', order')
    requires NoRepeats(order) && forall e :: e in order <==> InMap(hs, e.op, e.pattern, e.handler)
    requires NoRepeats(order') && forall e :: e in order' <==> InMap(hs, e.op, e.pattern, e.handler)
    ensures SameTree(at, at')
  {
    MapRoutes(hs, order);
    assert Routes(order) == Routes(order');
    ValuesAgree(V, order, V', order');
    SameShown(at, at', V);
  }
}
