/** The component tree as a value: which nodes it has, and what each of them holds, given the routes
    that were added and their order. */
module Components {
  import opened Wrappers
  import opened Text
  import opened Tables
  import opened Globs

  /** One route, as `BuildTree` meets it. */
  datatype Entry = Entry(op: string, pattern: string, handler: Handler)

  datatype NodeType = Dir | File | Param | Wildcard | Glob

  // ----- components

  /** `strings.Trim`: without the bytes in `bad` at either end. */
  function TrimLeft(s: string, bad: string): string {
    if s != "" && s[0] in bad then TrimLeft(s[1..], bad) else s
  }

  function TrimRight(s: string, bad: string): string {
    if s != "" && s[|s| - 1] in bad then TrimRight(s[..|s| - 1], bad) else s
  }

  function Trim(s: string, bad: string): string {
    TrimRight(TrimLeft(s, bad), bad)
  }

  /** The components of a path: the parts between the slashes, without the slashes at its ends. */
  function SplitPath(path: string): seq<string> {
    var trimmed := Trim(path, "/");
    if trimmed == "" then [] else Split(trimmed, '/')
  }

  predicate IsGlob(part: string) {
    HasWildcard(part) && part != "*"
  }

  // ----- the nodes

  /** A route's components run through `at`. */
  predicate Passes(e: Entry, at: seq<string>) {
    at <= SplitPath(e.pattern)
  }

  predicate Has(order: seq<Entry>, at: seq<string>) {
    at == [] || exists e :: e in order && Passes(e, at)
  }

  predicate Deeper(order: seq<Entry>, at: seq<string>) {
    exists e :: e in order && Passes(e, at) && SplitPath(e.pattern) != at
  }

  /** A component's own shape decides first; a literal component is a file unless something lies below it. */
  function TypeOf(part: string, deeper: bool): NodeType {
    if IsGlob(part) then Glob
    else if part == "*" then Wildcard
    else if Braced(part) then Param
    else if deeper then Dir
    else File
  }

  function TypeAt(order: seq<Entry>, at: seq<string>): NodeType {
    if at == [] then Dir else TypeOf(at[|at| - 1], Deeper(order, at))
  }

  function NameAt(at: seq<string>): string {
    if at == [] then "" else at[|at| - 1]
  }

  /** The pattern of the last route that ends at `at`. */
  function PatternAfter(order: seq<Entry>, at: seq<string>): string {
    if order == [] then ""
    else
      var e := order[|order| - 1];
      if SplitPath(e.pattern) == at then e.pattern else PatternAfter(order[..|order| - 1], at)
  }

  function HandlersAfter(order: seq<Entry>, at: seq<string>): map<string, Handler> {
    if order == [] then map[]
    else
      var e := order[|order| - 1];
      var before := HandlersAfter(order[..|order| - 1], at);
      if SplitPath(e.pattern) == at then before[e.op := e.handler] else before
  }

  /** A text that a glob matches: nothing for '*', and one fixed byte for '?'. */
  function Instance(p: string): string {
    if p == "" then ""
    else (if p[0] == '*' then "" else if p[0] == '?' then "a" else [p[0]]) + Instance(p[1..])
  }

  lemma {:induction false} InstanceMatches(p: string)
    ensures GlobMatch(p, Instance(p)) && |Instance(p)| <= |p| && (HasWildcard(p) ==> Instance(p) != p)
  {
    if p != "" {
      var rest := Instance(p[1..]);
      InstanceMatches(p[1..]);
      assert forall c :: c in p ==> c == p[0] || c in p[1..];
      if p[0] != '*' {
        assert Instance(p)[1..] == rest && (Instance(p) == p ==> rest == p[1..]);
        assert p[0] == '?' ==> Instance(p)[0] == "a"[0];
        assert GlobMatch(p, Instance(p));
      } else {
        assert Instance(p) == rest;
      }
    }
  }

  /** The glob nodes are exactly those whose name, unless it is "*", matches another text than itself; a file
      or directory stands for its name alone. */
  lemma GlobNodesExactlyWhen(part: string, deeper: bool)
    ensures TypeOf(part, deeper) == Glob <==> part != "*" && exists s :: s != part && GlobMatch(part, s)
    ensures TypeOf(part, deeper) == File || TypeOf(part, deeper) == Dir ==> forall s :: GlobMatch(part, s) <==> s == part
  {
    if HasWildcard(part) {
      InstanceMatches(part);
      var s := Instance(part);
      assert exists x :: x != part && GlobMatch(part, x);
      assert part != "*" ==> TypeOf(part, deeper) == Glob;
      assert part == "*" ==> TypeOf(part, deeper) == Wildcard;
    } else {
      assert !IsGlob(part);
      forall s
        ensures GlobMatch(part, s) <==> s == part
      {
        PlainGlob(part, s);
      }
      assert "*"[0] == '*';
    }
  }

  /** Route `i` ends at `at`, and is the last to do so, for `op` if one is given. */
  predicate EndsLast(order: seq<Entry>, at: seq<string>, op: Option<string>, i: int) {
    && 0 <= i < |order| && EndsAt(order[i], at, op)
    && forall j :: i < j < |order| ==> !EndsAt(order[j], at, op)
  }

  predicate EndsAt(e: Entry, at: seq<string>, op: Option<string>) {
    SplitPath(e.pattern) == at && (op.Some? ==> e.op == op.value)
  }

  lemma LastBefore(order: seq<Entry>, at: seq<string>, op: Option<string>, i: int)
    requires order != []
    ensures var n := |order| - 1;
      EndsLast(order, at, op, i) && i < n ==> EndsLast(order[..n], at, op, i) && !EndsAt(order[n], at, op)
  {
  }

  /** A node shows the pattern of the last route that ends there, */
  lemma {:induction false} LastPattern(order: seq<Entry>, at: seq<string>, i: int)
    ensures EndsLast(order, at, None, i) ==> PatternAfter(order, at) == order[i].pattern
    ensures (forall e :: e in order ==> !EndsAt(e, at, None)) ==> PatternAfter(order, at) == ""
  {
    if order != [] {
      var n := |order| - 1;
      LastPattern(order[..n], at, i);
      LastBefore(order, at, None, i);
      assert order[n] in order && EndsAt(order[n], at, None) <==> SplitPath(order[n].pattern) == at;
      assert forall e :: e in order[..n] ==> e in order;
    }
  }

  predicate SameFor(hs: map<string, Handler>, hs': map<string, Handler>, op: string) {
    if op in hs then op in hs' && hs[op] == hs'[op] else op !in hs'
  }

  lemma HandlersStep(order: seq<Entry>, at: seq<string>, op: string)
    requires order != []
    ensures var n, hs := |order| - 1, HandlersAfter(order, at);
      if EndsAt(order[n], at, Some(op)) then op in hs && hs[op] == order[n].handler
      else SameFor(hs, HandlersAfter(order[..n], at), op)
  {
  }

  /** and for each operation the handler of the last such route; without one there is none. */
  lemma {:induction false} LastHandler(order: seq<Entry>, at: seq<string>, op: string, i: int)
    ensures EndsLast(order, at, Some(op), i) ==> op in HandlersAfter(order, at) && HandlersAfter(order, at)[op] == order[i].handler
  {
    if EndsLast(order, at, Some(op), i) {
      var n := |order| - 1;
      HandlersStep(order, at, op);
      if i < n {
        LastBefore(order, at, Some(op), i);
        LastHandler(order[..n], at, op, i);
      }
    }
  }

  lemma {:induction false} NoHandler(order: seq<Entry>, at: seq<string>, op: string)
    requires forall e :: e in order ==> !EndsAt(e, at, Some(op))
    ensures op !in HandlersAfter(order, at)
  {
    if order != [] {
      var n := |order| - 1;
      HandlersStep(order, at, op);
      assert order[n] in order;
      assert forall e :: e in order[..n] ==> e in order;
      NoHandler(order[..n], at, op);
    }
  }

  // ----- one more route

  lemma DeeperMore(order: seq<Entry>, e: Entry, at: seq<string>)
    ensures Deeper(order + [e], at) <==> Deeper(order, at) || (Passes(e, at) && SplitPath(e.pattern) != at)
  {
    assert forall x :: x in order + [e] <==> x in order || x == e;
  }

  lemma HasMore(order: seq<Entry>, e: Entry, at: seq<string>)
    ensures Has(order + [e], at) <==> Has(order, at) || Passes(e, at)
    ensures Deeper(order + [e], at) <==> Deeper(order, at) || (Passes(e, at) && SplitPath(e.pattern) != at)
  {
    assert forall x :: x in order + [e] <==> x in order || x == e;
    DeeperMore(order, e, at);
  }

  /** Something more below a node turns a file into a directory, and does nothing else. */
  lemma DeeperType(part: string, deeper: bool, more: bool)
    ensures TypeOf(part, deeper || more) == if more && TypeOf(part, deeper) == File then Dir else TypeOf(part, deeper)
  {
  }

  /** What the loop of `addRouteToTree` does to the type of one node it passes. */
  lemma TypeMore(order: seq<Entry>, e: Entry, at: seq<string>)
    requires at != []
    ensures TypeAt(order + [e], at) ==
      if Passes(e, at) && SplitPath(e.pattern) != at && TypeAt(order, at) == File then Dir else TypeAt(order, at)
  {
    DeeperMore(order, e, at);
    DeeperType(at[|at| - 1], Deeper(order, at), Passes(e, at) && SplitPath(e.pattern) != at);
  }

  lemma AfterMore(order: seq<Entry>, e: Entry, at: seq<string>)
    ensures PatternAfter(order + [e], at) == if SplitPath(e.pattern) == at then e.pattern else PatternAfter(order, at)
    ensures HandlersAfter(order + [e], at) ==
      if SplitPath(e.pattern) == at then HandlersAfter(order, at)[e.op := e.handler] else HandlersAfter(order, at)
  {
    assert (order + [e])[..|order|] == order;
  }

  // ----- the order of the routes

  /** No two patterns have the same components. */
  predicate OneEach(S: set<Entry>) {
    forall e, f :: e in S && f in S && SplitPath(e.pattern) == SplitPath(f.pattern) ==> e.pattern == f.pattern
  }

  /** One handler for each operation and pattern, as in a map. */
  predicate Functional(S: set<Entry>) {
    forall e, f :: e in S && f in S && e.op == f.op && e.pattern == f.pattern ==> e == f
  }

  ghost predicate Enumerates(order: seq<Entry>, S: set<Entry>) {
    && (forall e :: e in order <==> e in S)
    && (forall i, j :: 0 <= i < j < |order| ==> order[i] != order[j])
  }

  /** The pattern at a node is that of one of the routes ending there, if there are any. */
  lemma {:induction false} PatternIs(order: seq<Entry>, at: seq<string>)
    ensures (forall e :: e in order ==> SplitPath(e.pattern) != at) ==> PatternAfter(order, at) == ""
    ensures (exists e :: e in order && SplitPath(e.pattern) == at) ==>
      exists e :: e in order && SplitPath(e.pattern) == at && PatternAfter(order, at) == e.pattern
  {
    if order != [] {
      PatternIs(order[..|order| - 1], at);
      assert order[|order| - 1] in order;
    }
  }

  lemma {:induction false} HandlerKeys(order: seq<Entry>, at: seq<string>, op: string)
    ensures op in HandlersAfter(order, at) <==> exists e :: e in order && SplitPath(e.pattern) == at && e.op == op
    ensures op in HandlersAfter(order, at) ==>
      exists e :: e in order && SplitPath(e.pattern) == at && e.op == op && HandlersAfter(order, at)[op] == e.handler
  {
    if order != [] {
      HandlerKeys(order[..|order| - 1], at, op);
      assert order == order[..|order| - 1] + [order[|order| - 1]];
    }
  }

  /** Two orders give a node the same value. */
  predicate SameAt(order: seq<Entry>, order': seq<Entry>, at: seq<string>) {
    && (Has(order, at) <==> Has(order', at))
    && TypeAt(order, at) == TypeAt(order', at)
    && PatternAfter(order, at) == PatternAfter(order', at)
    && HandlersAfter(order, at) == HandlersAfter(order', at)
  }

  lemma SameShape(order: seq<Entry>, order': seq<Entry>, at: seq<string>)
    requires forall e :: e in order <==> e in order'
    ensures (Has(order, at) <==> Has(order', at)) && TypeAt(order, at) == TypeAt(order', at)
  {
  }

  lemma SamePattern(S: set<Entry>, order: seq<Entry>, order': seq<Entry>, at: seq<string>)
    requires OneEach(S) && (forall e :: e in order <==> e in S) && (forall e :: e in order' <==> e in S)
    ensures PatternAfter(order, at) == PatternAfter(order', at)
  {
    PatternIs(order, at);
    PatternIs(order', at);
  }

  lemma SameHandler(S: set<Entry>, order: seq<Entry>, order': seq<Entry>, at: seq<string>, op: string)
    requires Functional(S) && OneEach(S) && (forall e :: e in order <==> e in S) && (forall e :: e in order' <==> e in S)
    ensures op in HandlersAfter(order, at) <==> op in HandlersAfter(order', at)
    ensures op in HandlersAfter(order, at) ==> HandlersAfter(order, at)[op] == HandlersAfter(order', at)[op]
  {
    HandlerKeys(order, at, op);
    HandlerKeys(order', at, op);
  }

  /** When no two patterns have the same components, the tree does not depend on the order. */
  lemma OrderIndependent(S: set<Entry>, order: seq<Entry>, order': seq<Entry>, at: seq<string>)
    requires Functional(S) && OneEach(S) && Enumerates(order, S) && Enumerates(order', S)
    ensures SameAt(order, order', at)
  {
    SameShape(order, order', at);
    SamePattern(S, order, order', at);
    var hs, hs' := HandlersAfter(order, at), HandlersAfter(order', at);
    forall op
      ensures op in hs <==> op in hs'
      ensures op in hs ==> hs[op] == hs'[op]
    {
      SameHandler(S, order, order', at, op);
    }
    assert hs == hs';
  }

  lemma {:induction false} EnumerateEndingIn(S: set<Entry>, e: Entry) returns (order: seq<Entry>)
    requires e in S
    ensures Enumerates(order, S) && order[|order| - 1] == e
    decreases |S|
  {
    if S == {e} {
      order := [e];
    } else {
      assert S == (S - {e}) + {e};
      var f :| f in S - {e};
      var rest := EnumerateEndingIn(S - {e}, f);
      order := rest + [e];
    }
  }

  /** The tree is independent of the order exactly when no two patterns have the same components. */
  lemma OrderIndependentExactlyWhen(S: set<Entry>)
    requires Functional(S)
    ensures OneEach(S) <==>
      forall order, order', at :: Enumerates(order, S) && Enumerates(order', S) ==> SameAt(order, order', at)
  {
    if OneEach(S) {
      forall order, order', at | Enumerates(order, S) && Enumerates(order', S)
        ensures SameAt(order, order', at)
      {
        OrderIndependent(S, order, order', at);
      }
    } else {
      var e, f :| e in S && f in S && SplitPath(e.pattern) == SplitPath(f.pattern) && e.pattern != f.pattern;
      var order := EnumerateEndingIn(S, e);
      var order' := EnumerateEndingIn(S, f);
      assert !SameAt(order, order', SplitPath(e.pattern));
    }
  }

  /** Patterns that differ only in slashes at their ends have the same components. */
  lemma SlashesDoNotCount(path: string)
    ensures SplitPath("/" + path) == SplitPath(path) && SplitPath(path + "/") == SplitPath(path)
  {
    assert ("/" + path)[1..] == path && "/"[0] in "/";
    TrimSlash(path);
  }

  lemma {:induction false} TrimSlash(path: string)
    ensures Trim(path + "/", "/") == Trim(path, "/")
  {
    assert (path + "/")[|path|] in "/" by { assert "/"[0] in "/"; }
    if path != "" && path[0] in "/" {
      assert (path + "/")[1..] == path[1..] + "/";
      TrimSlash(path[1..]);
    } else if path != "" {
      assert (path + "/")[..|path|] == path;
    } else {
      assert "/"[1..] == "";
    }
  }

  // ----- empty components

  predicate DoubleSlash(s: string) {
    exists i {:trigger s[i]} :: 0 <= i < |s| - 1 && s[i] == '/' && s[i + 1] == '/'
  }

  predicate OuterSlash(s: string) {
    s != "" && (s[0] == '/' || s[|s| - 1] == '/')
  }

  /** Splitting at slashes gives an empty part exactly when the text is empty, has a slash at an end or
      two slashes in a row. */
  lemma {:induction false} EmptyPart(s: string)
    ensures "" in Split(s, '/') <==> s == "" || OuterSlash(s) || DoubleSlash(s)
  {
    var i := IndexOf(s, '/');
    if i < 0 {
      assert Split(s, '/') == [s];
      assert forall j :: 0 <= j < |s| ==> s[j] in s;
    } else {
      var first, rest := s[..i], s[i + 1..];
      EmptyPart(rest);
      assert Split(s, '/') == [first] + Split(rest, '/');
      FirstSlash(s, i);
    }
  }

  lemma FirstSlash(s: string, i: nat)
    requires i < |s| && s[i] == '/' && '/' !in s[..i]
    ensures var rest := s[i + 1..];
      (s == "" || OuterSlash(s) || DoubleSlash(s)) <==> i == 0 || rest == "" || OuterSlash(rest) || DoubleSlash(rest)
  {
    var rest := s[i + 1..];
    assert forall j :: 0 <= j < |rest| ==> rest[j] == s[i + 1 + j];
    assert forall j :: 0 <= j < i ==> s[j] == s[..i][j] && s[..i][j] in s[..i];
    if j :| 0 <= j < |s| - 1 && s[j] == '/' && s[j + 1] == '/' {
      assert j >= i;
      if j > i {
        assert rest[j - i - 1] == '/' && rest[j - i] == '/';
      } else {
        assert rest[0] == '/';
      }
    }
    if rest != "" && rest[0] == '/' {
      assert s[i] == '/' && s[i + 1] == '/';
    }
    if j :| 0 <= j < |rest| - 1 && rest[j] == '/' && rest[j + 1] == '/' {
      assert s[i + 1 + j] == '/' && s[i + 1 + j + 1] == '/';
    }
  }

  lemma {:induction false} TrimmedLeft(s: string)
    ensures TrimLeft(s, "/") == "" || TrimLeft(s, "/")[0] != '/'
  {
    assert "/"[0] in "/";
    if s != "" && s[0] in "/" {
      TrimmedLeft(s[1..]);
    }
  }

  lemma {:induction false} TrimmedRight(s: string)
    requires s == "" || s[0] != '/'
    ensures !OuterSlash(TrimRight(s, "/"))
  {
    assert "/"[0] in "/";
    if s != "" && s[|s| - 1] in "/" {
      TrimmedRight(s[..|s| - 1]);
    }
  }

  /** A path has an empty component exactly when two slashes follow each other between its ends: only
      the slashes at the ends are dropped. */
  lemma EmptyComponentExactlyWhen(path: string)
    ensures "" in SplitPath(path) <==> DoubleSlash(Trim(path, "/"))
  {
    TrimmedLeft(path);
    TrimmedRight(TrimLeft(path, "/"));
    EmptyPart(Trim(path, "/"));
  }

  /** For example, "/a//b" has three components. */
  lemma EmptyComponentStays(a: string, b: string)
    requires a != "" && '/' !in a && b != "" && '/' !in b
    ensures SplitPath("/" + (a + "//" + b)) == [a, "", b]
  {
    SlashesDoNotCount(a + "//" + b);
    NothingToTrim(a + "//" + b, a, b);
    SplitThree(a, b);
  }

  lemma SplitThree(a: string, b: string)
    requires '/' !in a && '/' !in b
    ensures Split(a + "//" + b, '/') == [a, "", b]
  {
    var parts := [a, "", b];
    JoinThree(a, b);
    assert forall i :: 0 <= i < |parts| ==> parts[i] == a || parts[i] == "" || parts[i] == b;
    SplitJoin(parts, '/');
  }

  lemma NothingToTrim(s: string, a: string, b: string)
    requires a != "" && '/' !in a && b != "" && '/' !in b && s == a + "//" + b
    ensures Trim(s, "/") == s
  {
    assert s[0] == a[0] && a[0] in a && s[|s| - 1] == b[|b| - 1] && b[|b| - 1] in b;
    assert forall c :: c in "/" ==> c == '/';
  }

  lemma JoinThree(a: string, b: string)
    ensures Join([a, "", b], '/') == a + "//" + b
  {
    assert [a, "", b][1..] == ["", b] && ["", b][1..] == [b];
    assert Join([b], '/') == b;
    assert Join(["", b], '/') == "" + ['/'] + b;
    assert Join([a, "", b], '/') == a + ['/'] + ("" + ['/'] + b);
  }
}
