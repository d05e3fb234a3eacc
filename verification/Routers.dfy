/** The router: registrations in the order they were made, and what a lookup then finds. */
module Routers {
  import opened Wrappers
  import opened Tokens
  import opened Patterns
  import opened Tables
  import opened Radix

  /** One call of `Register`. */
  datatype Reg = Reg(op: string, pattern: string, handler: Option<Handler>)

  ghost predicate ValidLog(log: seq<Reg>) {
    forall i :: 0 <= i < |log| ==> Valid(log[i].pattern)
  }

  function EndpointOf(r: Reg): Endpoint
    requires Valid(r.pattern)
  {
    Endpoint(r.handler, r.pattern, Keys(r.pattern))
  }

  /** Two registrations for the same operation and the same tokens: parameter names do not count. */
  predicate Same(r: Reg, s: Reg)
    requires Valid(r.pattern) && Valid(s.pattern)
  {
    r.op == s.op && Toks(r.pattern) == Toks(s.pattern)
  }

  /** Registration `i` has not been replaced by a later one, and has a handler. */
  ghost predicate Active(log: seq<Reg>, i: nat)
    requires ValidLog(log)
  {
    && i < |log| && log[i].handler.Some?
    && forall j :: i < j < |log| ==> !Same(log[i], log[j])
  }

  /** An active registration for `op` whose pattern matches the path. */
  ghost predicate Competes(log: seq<Reg>, m: Engine, lax: bool, op: string, path: string, i: nat)
    requires ValidLog(log)
  {
    Active(log, i) && log[i].op == op && Matches(m, lax, Toks(log[i].pattern), path)
  }

  /** The route table after a sequence of registrations: each overwrites one entry. */
  function Replay(log: seq<Reg>): Table
    requires ValidLog(log)
  {
    if log == [] then map[]
    else
      var n := |log| - 1;
      Put(Replay(log[..n]), Toks(log[n].pattern), log[n].op, EndpointOf(log[n]))
  }

  lemma ReplayStep(log: seq<Reg>, r: Reg)
    requires ValidLog(log) && Valid(r.pattern)
    ensures ValidLog(log + [r])
    ensures Replay(log + [r]) == Put(Replay(log), Toks(r.pattern), r.op, EndpointOf(r))
  {
    assert (log + [r])[..|log|] == log;
  }

  /** The last place of `x` in a sequence. */
  function LastIndex<T(==)>(s: seq<T>, x: T): (r: Option<nat>)
    ensures r.Some? ==> r.value < |s|
  {
    if s == [] then None
    else
      var n := |s| - 1;
      if s[n] == x then Some(n) else LastIndex(s[..n], x)
  }

  lemma {:induction false} LastIndexIs<T>(s: seq<T>, x: T)
    ensures LastIndex(s, x).None? ==> x !in s
    ensures LastIndex(s, x).Some? ==> var i := LastIndex(s, x).value; s[i] == x && forall j :: i < j < |s| ==> s[j] != x
  {
    if s != [] {
      var n := |s| - 1;
      LastIndexIs(s[..n], x);
      assert s == s[..n] + [s[n]];
    }
  }

  /** Which entry of the table each registration writes. */
  function Slots(log: seq<Reg>): (r: seq<(string, seq<Tok>)>)
    requires ValidLog(log)
    ensures |r| == |log|
    ensures forall i :: 0 <= i < |log| ==> r[i] == (log[i].op, Toks(log[i].pattern))
  {
    seq(|log|, i requires 0 <= i < |log| => (log[i].op, Toks(log[i].pattern)))
  }

  /** The last registration for an operation and a token sequence. */
  function Last(log: seq<Reg>, op: string, k: seq<Tok>): (r: Option<nat>)
    requires ValidLog(log)
    ensures r.Some? ==> r.value < |log|
  {
    LastIndex(Slots(log), (op, k))
  }

  predicate IsFor(r: Reg, op: string, k: seq<Tok>)
    requires Valid(r.pattern)
  {
    r.op == op && Toks(r.pattern) == k
  }

  lemma LastIs(log: seq<Reg>, op: string, k: seq<Tok>)
    requires ValidLog(log)
    ensures var from := match Last(log, op, k) case None => -1 case Some(i) => i;
      && (from >= 0 ==> IsFor(log[from], op, k))
      && forall j :: from < j < |log| ==> !IsFor(log[j], op, k)
  {
    var s := Slots(log);
    LastIndexIs(s, (op, k));
    forall j | (match Last(log, op, k) case None => -1 case Some(i) => i) < j < |log|
      ensures !IsFor(log[j], op, k)
    {
      assert s[j] != (op, k) && s[j] == (log[j].op, Toks(log[j].pattern));
    }
  }

  lemma SlotsPrefix(log: seq<Reg>)
    requires ValidLog(log) && log != []
    ensures var n := |log| - 1;
      && Slots(log)[..n] == Slots(log[..n]) && Slots(log)[n] == (log[n].op, Toks(log[n].pattern))
      && forall i :: 0 <= i < n ==> log[..n][i] == log[i]
  {
  }

  /** The table holds exactly the last registration for each operation and token sequence. */
  lemma {:induction false} ReplayHolds(log: seq<Reg>, op: string, k: seq<Tok>)
    requires ValidLog(log)
    ensures op in Get(Replay(log), k) <==> Last(log, op, k).Some?
    ensures Last(log, op, k).Some? ==> Get(Replay(log), k)[op] == EndpointOf(log[Last(log, op, k).value])
  {
    if log != [] {
      var n := |log| - 1;
      ReplayHolds(log[..n], op, k);
      SlotsPrefix(log);
    }
  }

  /** Live routes of the table are active registrations. */
  lemma LiveIsActive(log: seq<Reg>, op: string, k: seq<Tok>) returns (i: nat)
    requires ValidLog(log) && Live(Replay(log), op, k)
    ensures Active(log, i) && log[i].op == op && Toks(log[i].pattern) == k
    ensures Get(Replay(log), k)[op] == EndpointOf(log[i])
  {
    ReplayHolds(log, op, k);
    LastIs(log, op, k);
    i := Last(log, op, k).value;
  }

  lemma ActiveIsLive(log: seq<Reg>, i: nat)
    requires ValidLog(log) && Active(log, i)
    ensures Live(Replay(log), log[i].op, Toks(log[i].pattern))
    ensures Get(Replay(log), Toks(log[i].pattern))[log[i].op] == EndpointOf(log[i])
  {
    var op, k := log[i].op, Toks(log[i].pattern);
    ReplayHolds(log, op, k);
    LastIs(log, op, k);
    assert Last(log, op, k).Some?;
    assert IsFor(log[i], op, k);
    var j := Last(log, op, k).value;
    assert Same(log[i], log[j]) && !(j < i) && !(i < j);
  }

  /** A pattern has a token, so it competes through the root's table exactly as a candidate. */
  lemma CompetesIsCandidate(log: seq<Reg>, m: Engine, lax: bool, op: string, path: string, i: nat)
    requires ValidLog(log) && Competes(log, m, lax, op, path, i)
    ensures Candidate(Replay(log), m, lax, op, path, Toks(log[i].pattern))
  {
    ActiveIsLive(log, i);
    assert !Wild(log[i].pattern[0]);
  }

  /** Parameter names to captured texts; a later pair of the same name wins. */
  function ParamMap(keys: seq<string>, values: seq<string>): map<string, string>
    requires |keys| <= |values|
  {
    if keys == [] then map[]
    else
      var n := |keys| - 1;
      ParamMap(keys[..n], values)[keys[n] := values[n]]
  }

  /** With distinct names every capture is found under its name, and nothing else is there. */
  lemma {:induction false} ParamMapIs(keys: seq<string>, values: seq<string>)
    requires |keys| <= |values| && Distinct(keys)
    ensures forall x :: x in ParamMap(keys, values) <==> x in keys
    ensures forall i :: 0 <= i < |keys| ==> ParamMap(keys, values)[keys[i]] == values[i]
  {
    if keys != [] {
      var n := |keys| - 1;
      ParamMapIs(keys[..n], values);
      assert keys == keys[..n] + [keys[n]];
      assert forall i :: 0 <= i < n ==> keys[..n][i] == keys[i];
    }
  }

  lemma {:induction false} ParamMapCons(k: string, v: string, keys: seq<string>, values: seq<string>)
    requires |keys| <= |values|
    ensures ParamMap([k] + keys, [v] + values) == map[k := v] + ParamMap(keys, values)
  {
    var ks, n := [k] + keys, |keys|;
    if n == 0 {
      assert ks[..0] == [];
    } else {
      ParamMapCons(k, v, keys[..n - 1], values);
      assert ks[..n] == [k] + keys[..n - 1];
      assert ks[n] == keys[n - 1] && ([v] + values)[n] == values[n - 1];
    }
  }

  /** What a lookup promises. With registration `i` it has found: an active registration for `op` that
      matches at least laxly, searched no later than any active strict match, together with exactly
      that pattern's own captures. Without one there is no active strict match at all. */
  ghost predicate Answer(log: seq<Reg>, m: Engine, op: string, path: string, found: bool, i: nat,
                         handler: Option<Handler>, params: map<string, string>, pattern: string)
    requires ValidLog(log)
  {
    if !found then
      && handler == None && params == map[] && pattern == ""
      && forall j: nat :: !Competes(log, m, false, op, path, j)
    else
      && Competes(log, m, true, op, path, i)
      && handler == log[i].handler && pattern == log[i].pattern
      && params == ParamMap(Keys(pattern), Captures(m, pattern, path))
      && forall j: nat :: Competes(log, m, false, op, path, j) ==> NoLater(Toks(pattern), Toks(log[j].pattern))
  }

  function Captures(m: Engine, pattern: string, path: string): (r: seq<string>)
    requires Parses(pattern) && Matches(m, true, Toks(pattern), path)
    ensures |r| == |Keys(pattern)|
  {
    CaptureCount(m, true, Toks(pattern), path);
    KeyCount(pattern);
    Match(m, true, Toks(pattern), path).value
  }

  lemma AnswerNone(log: seq<Reg>, m: Engine, lax: bool, op: string, path: string)
    requires ValidLog(log) && NoCandidate(Replay(log), m, lax, op, path)
    ensures forall j: nat :: !Competes(log, m, lax, op, path, j)
  {
    forall j: nat
      ensures !Competes(log, m, lax, op, path, j)
    {
      if Competes(log, m, lax, op, path, j) {
        CompetesIsCandidate(log, m, lax, op, path, j);
      }
    }
  }

  lemma AnswerSome(log: seq<Reg>, m: Engine, lax: bool, op: string, path: string, k: seq<Tok>) returns (i: nat)
    requires ValidLog(log) && Candidate(Replay(log), m, true, op, path, k) && First(Replay(log), m, lax, op, path, k)
    ensures Competes(log, m, true, op, path, i) && Toks(log[i].pattern) == k
    ensures op in Get(Replay(log), k) && Get(Replay(log), k)[op] == EndpointOf(log[i])
    ensures forall j: nat :: Competes(log, m, lax, op, path, j) ==> NoLater(k, Toks(log[j].pattern))
  {
    i := LiveIsActive(log, op, k);
    forall j: nat | Competes(log, m, lax, op, path, j)
      ensures NoLater(k, Toks(log[j].pattern))
    {
      CompetesIsCandidate(log, m, lax, op, path, j);
    }
  }

  /** No two registered patterns offer different regexps at the same point. */
  ghost predicate LoneLog(log: seq<Reg>)
    requires ValidLog(log)
  {
    forall i, j :: 0 <= i < |log| && 0 <= j < |log| ==> RexAgree(Toks(log[i].pattern), Toks(log[j].pattern))
  }

  lemma LoneReplay(log: seq<Reg>)
    requires ValidLog(log) && LoneLog(log)
    ensures LoneRegexps(Replay(log))
  {
    var T := Replay(log);
    forall a, b | Get(T, a) != map[] && Get(T, b) != map[]
      ensures RexAgree(a, b)
    {
      var i := RouteOf(log, a);
      var j := RouteOf(log, b);
    }
  }

  lemma RouteOf(log: seq<Reg>, k: seq<Tok>) returns (i: nat)
    requires ValidLog(log) && Get(Replay(log), k) != map[]
    ensures i < |log| && Toks(log[i].pattern) == k
  {
    var op :| op in Get(Replay(log), k);
    ReplayHolds(log, op, k);
    LastIs(log, op, k);
    i := Last(log, op, k).value;
  }

  // ----- what an answer tells

  /** A lookup is safe from the regexp retry when no active registration matches the path only laxly. */
  ghost predicate RegexpSafe(log: seq<Reg>, m: Engine, op: string, path: string)
    requires ValidLog(log)
  {
    forall i: nat :: Competes(log, m, true, op, path, i) ==> Competes(log, m, false, op, path, i)
  }

  /** Soundness and completeness: on a safe path a lookup finds a route exactly when an active
      registration matches, and what it finds is such a registration. */
  lemma FindsExactlyMatches(log: seq<Reg>, m: Engine, op: string, path: string, found: bool, i: nat,
                            handler: Option<Handler>, params: map<string, string>, pattern: string)
    requires ValidLog(log) && RegexpSafe(log, m, op, path)
    requires Answer(log, m, op, path, found, i, handler, params, pattern)
    ensures found <==> exists j: nat :: Competes(log, m, false, op, path, j)
    ensures found ==> Competes(log, m, false, op, path, i)
    ensures handler.Some? <==> found
  {
  }

  /** Precedence: two answers to the same lookup name the same registration, or two patterns that part
      at two parameters whose order the router leaves open. */
  lemma AnswersAgree(log: seq<Reg>, m: Engine, op: string, path: string,
                     i: nat, h: Option<Handler>, ps: map<string, string>, p: string,
                     j: nat, h': Option<Handler>, ps': map<string, string>, p': string)
    requires ValidLog(log) && RegexpSafe(log, m, op, path)
    requires Answer(log, m, op, path, true, i, h, ps, p) && Answer(log, m, op, path, true, j, h', ps', p')
    ensures (i == j && h == h' && ps == ps' && p == p') || Unordered(Toks(p), Toks(p'))
  {
    FirstIsUnique(m, false, Toks(p), Toks(p'), path);
    if Toks(p) == Toks(p') {
      assert Same(log[i], log[j]) && Same(log[j], log[i]);
    }
  }

  /** The parameters reported are the pattern's own: one entry for each of its names, holding the text
      captured there. */
  lemma ParamsAreCaptures(log: seq<Reg>, m: Engine, op: string, path: string, i: nat,
                          handler: Option<Handler>, params: map<string, string>, pattern: string)
    requires ValidLog(log) && Answer(log, m, op, path, true, i, handler, params, pattern)
    ensures forall x :: x in params <==> x in Keys(pattern)
    ensures forall n :: 0 <= n < |Keys(pattern)| ==> params[Keys(pattern)[n]] == Captures(m, pattern, path)[n]
  {
    ParamMapIs(Keys(pattern), Captures(m, pattern, path));
  }

  class Router {
    var tree: Node
    ghost var nodes: set<Node>
    ghost var log: seq<Reg>

    /** The tree is in order and holds exactly the registrations made so far. */
    ghost predicate Ok()
      reads this, nodes
    {
      && tree in nodes && Node.TreeOk(nodes) && tree.IsRoot()
      && ValidLog(log) && tree.info.table == Replay(log)
    }

    constructor ()
      ensures Ok() && log == [] && fresh(nodes)
    {
      tree := new Node(NT_STATIC, '\0', '\0', "");
      new;
      nodes := {tree};
      log := [];
    }

    method Register(op: string, pattern: string, handler: Option<Handler>)
      requires Ok() && Valid(pattern)
      modifies this`nodes, this`log, nodes
      ensures Ok() && tree == old(tree) && log == old(log) + [Reg(op, pattern, handler)]
      ensures forall x :: x in nodes ==> x in old(nodes) || fresh(x)
    {
      ReplayStep(log, Reg(op, pattern, handler));
      var hn;
      hn, nodes := tree.InsertRoute(op, pattern, handler, nodes);
      log := log + [Reg(op, pattern, handler)];
    }

    /** Finds a handler, the captured parameters and the pattern. */
    method Find(m: Engine, op: string, path: string)
      returns (handler: Option<Handler>, params: map<string, string>, pattern: string, ghost i: nat)
      requires Ok()
      ensures Answer(log, m, op, path, handler.Some?, i, handler, params, pattern)
      ensures LoneLog(log) ==> (handler.None? <==> forall j: nat :: !Competes(log, m, true, op, path, j))
      ensures LoneLog(log) && handler.Some? ==>
        forall j: nat :: Competes(log, m, true, op, path, j) ==> NoLater(Toks(pattern), Toks(log[j].pattern))
    {
      i, params, pattern, handler := 0, map[], "", None;
      ghost var L := log;
      ghost var lax := LoneLog(L);
      if lax {
        LoneReplay(L);
      }
      var ctx := new Context();
      var node;
      ghost var k;
      node, k := tree.FindRoute(ctx, m, op, path, nodes);
      if node == null {
        AnswerNone(L, m, false, op, path);
        AnswerNone(L, m, lax, op, path);
        return;
      }
      i := AnswerSome(L, m, false, op, path, k);
      ghost var i' := AnswerSome(L, m, lax, op, path, k);
      if op in node.endpoints {
        handler, pattern := node.endpoints[op].handler, node.endpoints[op].pattern;
      }
      assert ctx.urlKeys == Keys(L[i].pattern);
      assert ctx.urlValues == Captures(m, L[i].pattern, path);
      params := BuildParams(ctx.urlKeys, ctx.urlValues);
    }

    /** Finds the handler of a request and the parameters to call it with; `None` is "no handler
        registered". */
    method Serve(m: Engine, op: string, path: string, reqParams: map<string, string>)
      returns (call: Option<(Handler, map<string, string>)>, ghost i: nat, ghost params: map<string, string>, ghost pattern: string)
      requires Ok()
      ensures Answer(log, m, op, path, call.Some?, i, if call.Some? then Some(call.value.0) else None, params, pattern)
      ensures call.Some? ==> call.value.1 == params + reqParams
    {
      var handler, ps, p;
      handler, ps, p, i := Find(m, op, path);
      params, pattern := ps, p;
      match handler {
        case None => return None, i, params, pattern;
        case Some(h) =>
          var allParams := MergeParams(ps, reqParams);
          return Some((h, allParams)), i, params, pattern;
      }
    }
  }

  /** What `Serve` hands to the handler: the captures, overlaid with the request's own parameters. */
  method MergeParams(params: map<string, string>, reqParams: map<string, string>) returns (allParams: map<string, string>)
    ensures allParams == params + reqParams
  {
    allParams := CopyInto(map[], params);
    allParams := CopyInto(allParams, reqParams);
    assert map[] + params == params;
  }

  method CopyInto(dst: map<string, string>, src: map<string, string>) returns (r: map<string, string>)
    ensures r == dst + src
  {
    r := dst;
    var todo := src.Keys;
    while todo != {}
      invariant todo <= src.Keys
      invariant r == dst + map k | k in src && k !in todo :: src[k]
      decreases todo
    {
      var k :| k in todo;
      r := r[k := src[k]];
      todo := todo - {k};
    }
    assert src == map k | k in src && k !in todo :: src[k];
  }

  /** Pairs each parameter name with its captured text, as far as there are texts. */
  method BuildParams(keys: seq<string>, values: seq<string>) returns (params: map<string, string>)
    requires |keys| <= |values|
    ensures params == ParamMap(keys, values)
  {
    params := map[];
    var i := 0;
    while i < |keys|
      invariant 0 <= i <= |keys| && params == ParamMap(keys[..i], values)
    {
      if i < |values| {
        assert keys[..i + 1][..i] == keys[..i];
        params := params[keys[i] := values[i]];
      }
      i := i + 1;
    }
    assert keys[..i] == keys;
  }
}
