/** The script registry: glob patterns on top of the router, and the names under which their captures
    are handed to scripts. */
module Registries {
  import opened Wrappers
  import opened Text
  import opened Tokens
  import opened Patterns
  import opened Tables
  import opened Routers
  import opened Globs
  import opened Segments
  import opened GlobMeaning

  // ----- reading a generated name

  predicate Digits(s: string) {
    s != "" && forall i :: 0 <= i < |s| ==> '0' <= s[i] <= '9'
  }

  /** `strconv.Atoi` for 64-bit integers; `None` is an error. */
  function Atoi(s: string): Option<int> {
    var negative := s != "" && s[0] == '-';
    var body := if s != "" && (s[0] == '-' || s[0] == '+') then s[1..] else s;
    if !Digits(body) then None
    else
      var v: int := if negative then 0 - Value(body) else Value(body);
      if -0x8000_0000_0000_0000 <= v < 0x8000_0000_0000_0000 then Some(v) else None
  }

  function Itoa(n: int): string {
    if n < 0 then "-" + Decimal(-n) else Decimal(n)
  }

  const GLOB := "_glob"
  const WILDCARD := "_wildcard"

  /** The number in a generated wildcard name; 0 when there is none. */
  function WildcardIndex(key: string): int
    requires WILDCARD <= key
  {
    match Atoi(key[9..]) case Some(n) => n case None => 0
  }

  /** The names under which a router parameter is handed on: none for a generated glob name, "*" and
      "*1" for the first middle wildcard, "*k" for the k-th, its own name for any other. */
  function Targets(key: string): seq<string> {
    if GLOB <= key then []
    else if WILDCARD <= key then
      var idx := WildcardIndex(key);
      if idx == 0 then ["*", "*1"] else ["*" + Itoa(idx + 1)]
    else [key]
  }

  function SetAll(m: map<string, string>, names: seq<string>, value: string): map<string, string>
    decreases names
  {
    if names == [] then m else SetAll(m[names[0] := value], names[1..], value)
  }

  /** The names each parameter is handed on under. */
  type Naming = string -> seq<string>

  /** The renamed parameters when the keys are visited in the given order. */
  function RenameIn(f: Naming, order: seq<string>, params: map<string, string>): map<string, string>
    requires forall k :: k in order ==> k in params
  {
    if order == [] then map[]
    else
      var n := |order| - 1;
      SetAll(RenameIn(f, order[..n], params), f(order[n]), params[order[n]])
  }

  /** An enumeration of the keys of a map. */
  ghost predicate Enumerates(order: seq<string>, params: map<string, string>) {
    Distinct(order) && forall k :: k in order <==> k in params
  }

  /** No two parameters with different values are handed on under the same name. */
  ghost predicate NoClash(f: Naming, params: map<string, string>) {
    forall k, k', x :: k in params && k' in params && x in f(k) && x in f(k') ==> params[k] == params[k']
  }

  lemma {:induction false} SetAllIs(m: map<string, string>, names: seq<string>, value: string)
    ensures forall x :: x in SetAll(m, names, value) <==> x in m || x in names
    ensures forall x :: x in names ==> SetAll(m, names, value)[x] == value
    ensures forall x :: x in m && x !in names ==> SetAll(m, names, value)[x] == m[x]
    decreases names
  {
    if names != [] {
      SetAllIs(m[names[0] := value], names[1..], value);
      assert names == [names[0]] + names[1..];
    }
  }

  /** `x` names the value of parameter `k`. */
  predicate NamesIt(f: Naming, order: seq<string>, k: string, x: string) {
    k in order && x in f(k)
  }

  /** Each name that is set stands for one parameter visited so far, and holds its value. */
  ghost predicate Holds(f: Naming, r: map<string, string>, order: seq<string>, params: map<string, string>)
    requires forall k :: k in order ==> k in params
  {
    && (forall x :: x in r ==> exists k :: NamesIt(f, order, k, x))
    && (forall k, x :: NamesIt(f, order, k, x) ==> x in r && r[x] == params[k])
  }

  lemma OneMore(f: Naming, r: map<string, string>, front: seq<string>, last: string, params: map<string, string>)
    requires NoClash(f, params) && last in params && (forall k :: k in front ==> k in params) && Holds(f, r, front, params)
    ensures forall k :: k in front + [last] ==> k in params
    ensures Holds(f, SetAll(r, f(last), params[last]), front + [last], params)
  {
    var order := front + [last];
    var r' := SetAll(r, f(last), params[last]);
    SetAllIs(r, f(last), params[last]);
    forall x | x in r'
      ensures exists k :: NamesIt(f, order, k, x)
    {
      if x in f(last) {
        assert NamesIt(f, order, last, x);
      } else {
        var k :| NamesIt(f, front, k, x);
        assert NamesIt(f, order, k, x);
      }
    }
    forall k, x | NamesIt(f, order, k, x)
      ensures x in r' && r'[x] == params[k]
    {
      if k != last {
        assert NamesIt(f, front, k, x);
      }
    }
  }

  /** In `r`, `x` holds the value of parameter `k`. */
  predicate StandsFor(f: Naming, order: seq<string>, params: map<string, string>, r: map<string, string>, k: string, x: string) {
    NamesIt(f, order, k, x) && k in params && x in r && r[x] == params[k]
  }

  /** With or without a clash, each name that is set holds the value of a parameter it stands for. */
  lemma {:induction false} RenamedFrom(f: Naming, order: seq<string>, params: map<string, string>)
    requires forall k :: k in order ==> k in params
    ensures forall k, x :: NamesIt(f, order, k, x) ==> x in RenameIn(f, order, params)
    ensures forall x :: x in RenameIn(f, order, params) ==> exists k :: StandsFor(f, order, params, RenameIn(f, order, params), k, x)
  {
    if order != [] {
      var n := |order| - 1;
      var front, last := order[..n], order[n];
      assert order == front + [last];
      RenamedFrom(f, front, params);
      var r0, r := RenameIn(f, front, params), RenameIn(f, order, params);
      assert r == SetAll(r0, f(last), params[last]);
      SetAllIs(r0, f(last), params[last]);
      forall x | x in r
        ensures exists k :: StandsFor(f, order, params, r, k, x)
      {
        if x in f(last) {
          assert StandsFor(f, order, params, r, last, x);
        } else {
          assert x in r0;
          var k :| StandsFor(f, front, params, r0, k, x);
          assert StandsFor(f, order, params, r, k, x);
        }
      }
      forall k, x | NamesIt(f, order, k, x)
        ensures x in r
      {
        assert k != last ==> NamesIt(f, front, k, x);
      }
    }
  }

  /** Without a clash each name holds the value of the one parameter it stands for. */
  lemma {:induction false} RenamedIs(f: Naming, order: seq<string>, params: map<string, string>)
    requires NoClash(f, params) && forall k :: k in order ==> k in params
    ensures Holds(f, RenameIn(f, order, params), order, params)
  {
    if order != [] {
      var n := |order| - 1;
      assert order == order[..n] + [order[n]];
      RenamedIs(f, order[..n], params);
      OneMore(f, RenameIn(f, order[..n], params), order[..n], order[n], params);
    }
  }

  /** Without a clash the order of the map iteration does not matter. */
  lemma RenamingDeterministic(f: Naming, a: seq<string>, b: seq<string>, params: map<string, string>)
    requires NoClash(f, params) && Enumerates(a, params) && Enumerates(b, params)
    ensures RenameIn(f, a, params) == RenameIn(f, b, params)
  {
    RenamedIs(f, a, params);
    RenamedIs(f, b, params);
    HoldsOnce(f, RenameIn(f, a, params), a, RenameIn(f, b, params), b, params);
  }

  lemma HoldsOnce(f: Naming, r: map<string, string>, a: seq<string>, r': map<string, string>, b: seq<string>, params: map<string, string>)
    requires (forall k :: k in a <==> k in params) && forall k :: k in b <==> k in params
    requires Holds(f, r, a, params) && Holds(f, r', b, params)
    ensures r == r'
  {
    SameHolds(f, r, a, r', b, params);
    SameHolds(f, r', b, r, a, params);
  }

  lemma SameHolds(f: Naming, r: map<string, string>, a: seq<string>, r': map<string, string>, b: seq<string>, params: map<string, string>)
    requires (forall k :: k in a <==> k in params) && forall k :: k in b <==> k in params
    requires Holds(f, r, a, params) && Holds(f, r', b, params)
    ensures forall x :: x in r ==> x in r' && r'[x] == r[x]
  {
    forall x | x in r
      ensures x in r' && r'[x] == r[x]
    {
      var k :| NamesIt(f, a, k, x);
      assert NamesIt(f, b, k, x);
    }
  }

  lemma Swapped(rest: seq<string>, k: string, k': string)
    requires Distinct(rest + [k, k'])
    ensures Distinct(rest + [k', k])
  {
    var n, a, b := |rest|, rest + [k, k'], rest + [k', k];
    assert a[n] == k && a[n + 1] == k' && b[n] == k' && b[n + 1] == k;
    forall i, j | 0 <= i < j < |b|
      ensures b[i] != b[j]
    {
      assert i < n ==> b[i] == a[i];
      assert j < n ==> b[j] == a[j];
    }
  }

  /** With a clash over different values it does: two orders give different results. */
  lemma ClashMatters(f: Naming, params: map<string, string>, k: string, k': string, x: string, rest: seq<string>)
    requires k in params && k' in params && k != k' && params[k] != params[k']
    requires x in f(k) && x in f(k')
    requires Enumerates(rest + [k, k'], params)
    ensures Enumerates(rest + [k', k], params)
    ensures RenameIn(f, rest + [k, k'], params) != RenameIn(f, rest + [k', k], params)
  {
    var a, b := rest + [k, k'], rest + [k', k];
    Swapped(rest, k, k');
    assert forall y :: y in b <==> y in rest || y == k || y == k';
    assert forall y :: y in a <==> y in rest || y == k || y == k';
    assert a[..|a| - 1] == rest + [k] && b[..|b| - 1] == rest + [k'];
    SetAllIs(RenameIn(f, rest + [k], params), f(k'), params[k']);
    SetAllIs(RenameIn(f, rest + [k'], params), f(k), params[k]);
  }

  /** Hands on one parameter. */
  method RenameOne(mapped: map<string, string>, key: string, value: string) returns (mappedParams: map<string, string>)
    ensures mappedParams == SetAll(mapped, Targets(key), value)
  {
    mappedParams := mapped;
    if GLOB <= key {
      return;
    }
    if WILDCARD <= key {
      var idx := 0;
      if |key| > 9 {
        var n := Atoi(key[9..]);
        if n.Some? {
          idx := n.value;
        }
      } else {
        assert key[9..] == "";
      }
      assert idx == WildcardIndex(key);
      if idx == 0 {
        assert ["*", "*1"][1..] == ["*1"] && ["*1"][1..] == [];
        mappedParams := mappedParams["*" := value];
        mappedParams := mappedParams["*1" := value];
      } else {
        mappedParams := mappedParams["*" + Itoa(idx + 1) := value];
      }
      return;
    }
    mappedParams := mappedParams[key := value];
  }

  /** Renames the parameters of one lookup, visiting the map in no particular order. */
  method RenameParams(params: map<string, string>) returns (mappedParams: map<string, string>, ghost order: seq<string>)
    ensures Enumerates(order, params) && mappedParams == RenameIn(Targets, order, params)
  {
    mappedParams := map[];
    order := [];
    var keys := params.Keys;
    while keys != {}
      invariant keys <= params.Keys
      invariant Distinct(order) && forall k :: k in order <==> k in params && k !in keys
      invariant mappedParams == RenameIn(Targets, order, params)
      decreases keys
    {
      var key :| key in keys;
      mappedParams := RenameOne(mappedParams, key, params[key]);
      keys := keys - {key};
      assert (order + [key])[..|order|] == order;
      order := order + [key];
    }
  }

  // ----- translated patterns

  /** A parameter name of a translated pattern whose own names do not begin with '*'. */
  ghost predicate Tidy(key: string) {
    || GLOB <= key
    || (exists i: nat :: i < 0x8000_0000_0000_0000 && key == WildcardName(i))
    || key == "*"
    || !(WILDCARD <= key || "*" <= key)
  }

  lemma AtoiDecimal(i: nat)
    requires i < 0x8000_0000_0000_0000
    ensures Atoi(Decimal(i)) == Some(i)
  {
    DecimalValue(i);
    assert Decimal(i)[0] != '-' && Decimal(i)[0] != '+';
  }

  /** The k-th middle wildcard, counted from 0, is handed on as "*" and its number counted from 1. */
  lemma WildcardTargets(i: nat)
    requires i < 0x8000_0000_0000_0000
    ensures Targets(WildcardName(i)) == if i == 0 then ["*", "*" + Decimal(1)] else ["*" + Decimal(i + 1)]
  {
    AtoiDecimal(i);
    assert WildcardName(i)[9..] == Decimal(i);
    assert WildcardName(i)[1] == 'w';
    assert WILDCARD <= WildcardName(i) && GLOB[1] == 'g' && !(GLOB <= WildcardName(i));
    assert WildcardIndex(WildcardName(i)) == i;
    assert Decimal(1) == "1" && "*" + Decimal(1) == "*1";
  }

  /** Every name a tidy parameter is handed on under tells which parameter it is, except "*". */
  lemma TargetTells(k: string, k': string, x: string)
    requires Tidy(k) && Tidy(k') && x in Targets(k) && x in Targets(k') && x != "*"
    ensures k == k'
  {
    if !(WILDCARD <= k) && !(WILDCARD <= k') {
      assert x == k == k';
    } else {
      if WILDCARD <= k {
        WildcardSource(k, x);
      }
      if WILDCARD <= k' {
        WildcardSource(k', x);
      }
      if WILDCARD <= k && WILDCARD <= k' {
        var i: nat :| i < 0x8000_0000_0000_0000 && k == WildcardName(i) && x == "*" + Decimal(i + 1);
        var j: nat :| j < 0x8000_0000_0000_0000 && k' == WildcardName(j) && x == "*" + Decimal(j + 1);
        assert x[1..] == Decimal(i + 1) && x[1..] == Decimal(j + 1);
        DecimalInjective(i + 1, j + 1);
      }
    }
  }

  lemma WildcardSource(k: string, x: string)
    requires Tidy(k) && WILDCARD <= k && x in Targets(k) && x != "*"
    ensures exists i: nat :: i < 0x8000_0000_0000_0000 && k == WildcardName(i) && x == "*" + Decimal(i + 1)
  {
    assert k[1] == 'w';
    var i: nat :| i < 0x8000_0000_0000_0000 && k == WildcardName(i);
    WildcardTargets(i);
  }

  lemma StarSource(k: string)
    requires Tidy(k) && "*" in Targets(k)
    ensures k == "*" || k == WildcardName(0)
  {
    if WILDCARD <= k {
      assert k[1] == 'w';
      var i: nat :| i < 0x8000_0000_0000_0000 && k == WildcardName(i);
      WildcardTargets(i);
      assert |"*" + Decimal(i + 1)| > 1;
    }
  }

  /** A middle wildcard and a final '*' with different captures: both are handed on as "*". */
  predicate StarClash(params: map<string, string>) {
    "*" in params && WildcardName(0) in params && params["*"] != params[WildcardName(0)]
  }

  lemma StarTargets()
    ensures "*" in Targets(WildcardName(0)) && "*" in Targets("*") && WildcardName(0) != "*"
  {
    WildcardTargets(0);
    assert WildcardName(0)[0] == '_';
  }

  /** For translated patterns renaming is free of clashes exactly when a middle wildcard and a final
      '*' do not both have captures, and different ones. */
  lemma NoClashExactlyWhen(params: map<string, string>)
    requires forall k :: k in params ==> Tidy(k)
    ensures NoClash(Targets, params) <==> !StarClash(params)
  {
    StarTargets();
    if !StarClash(params) {
      forall k, k', x | k in params && k' in params && x in Targets(k) && x in Targets(k')
        ensures params[k] == params[k']
      {
        if x == "*" {
          StarSource(k);
          StarSource(k');
        } else {
          TargetTells(k, k', x);
        }
      }
    }
  }

  lemma {:induction false} EnumerateKeys(keys: set<string>) returns (order: seq<string>)
    ensures Distinct(order) && forall k :: k in order <==> k in keys
    decreases |keys|
  {
    if keys == {} {
      order := [];
    } else {
      var k :| k in keys;
      var rest := EnumerateKeys(keys - {k});
      order := rest + [k];
    }
  }

  /** With such a clash two orders give different results. */
  lemma StarClashMatters(params: map<string, string>) returns (a: seq<string>, b: seq<string>)
    requires StarClash(params)
    ensures Enumerates(a, params) && Enumerates(b, params) && RenameIn(Targets, a, params) != RenameIn(Targets, b, params)
  {
    StarTargets();
    var k, k' := "*", WildcardName(0);
    var rest := EnumerateKeys(params.Keys - {k, k'});
    LastTwo(rest, k, k', params);
    ClashMatters(Targets, params, k, k', "*", rest);
    a, b := rest + [k, k'], rest + [k', k];
  }

  /** What a script sees is independent of the iteration order of the parameter map exactly when there
      is no such clash. */
  lemma DeterministicExactlyWhen(params: map<string, string>)
    requires forall k :: k in params ==> Tidy(k)
    ensures !StarClash(params) <==>
      forall a, b :: Enumerates(a, params) && Enumerates(b, params) ==> RenameIn(Targets, a, params) == RenameIn(Targets, b, params)
  {
    if StarClash(params) {
      var a, b := StarClashMatters(params);
    } else {
      NoClashExactlyWhen(params);
      forall a, b | Enumerates(a, params) && Enumerates(b, params)
        ensures RenameIn(Targets, a, params) == RenameIn(Targets, b, params)
      {
        RenamingDeterministic(Targets, a, b, params);
      }
    }
  }

  lemma LastTwo(rest: seq<string>, k: string, k': string, params: map<string, string>)
    requires k in params && k' in params && k != k'
    requires Distinct(rest) && forall x :: x in rest <==> x in params.Keys - {k, k'}
    ensures Enumerates(rest + [k, k'], params)
  {
    var order := rest + [k, k'];
    forall x ensures x in order <==> x in params {
      assert x in order <==> x in rest || x == k || x == k';
    }
    assert k !in rest && k' !in rest;
    forall i, j | 0 <= i < j < |order|
      ensures order[i] != order[j]
    {
      assert i < |rest| ==> order[i] == rest[i] && rest[i] in rest;
      assert j < |rest| ==> order[j] == rest[j];
    }
  }

  /** The parameters of a translated pattern are tidy when its own names do not begin with '*' or look
      generated, a final '*' apart. */
  lemma ConvertedTidy(parts: seq<string>, key: string)
    requires CleanParts(parts) && |parts| < 0x8000_0000_0000_0000
    requires forall n :: n in UserKeys(parts) ==> n == "*" || !(Generated(n) || "*" <= n)
    requires key in SegKeys(PartSegs(parts, 0, 0))
    ensures Tidy(key)
  {
    KeyNumbers(parts, 0, 0, key);
    if key !in UserKeys(parts) {
      if i: nat :| 0 <= i < 0 + |parts| && key == GlobName(i) {
        assert GLOB <= key;
      }
    }
  }

  /** For the parameters of a translated pattern, when they do not clash, every order of visiting them
      gives the same result. */
  lemma RenamingOfPattern(parts: seq<string>, params: map<string, string>, a: seq<string>, b: seq<string>)
    requires CleanParts(parts) && |parts| < 0x8000_0000_0000_0000
    requires forall n :: n in UserKeys(parts) ==> n == "*" || !(Generated(n) || "*" <= n)
    requires forall key :: key in params ==> key in SegKeys(PartSegs(parts, 0, 0))
    requires !StarClash(params)
    requires Enumerates(a, params) && Enumerates(b, params)
    ensures RenameIn(Targets, a, params) == RenameIn(Targets, b, params)
  {
    forall k | k in params
      ensures Tidy(k)
    {
      ConvertedTidy(parts, k);
    }
    NoClashExactlyWhen(params);
    RenamingDeterministic(Targets, a, b, params);
  }

  // ----- the registry

  /** The handlers by operation and pattern, with one more. */
  function WithHandler(hs: map<string, map<string, Handler>>, operation: string, pathPattern: string, handler: Handler): map<string, map<string, Handler>> {
    hs[operation := (if operation in hs then hs[operation] else map[])[pathPattern := handler]]
  }

  /** That handler under that operation and pattern, and all others as before. */
  lemma WithHandlerIs(hs: map<string, map<string, Handler>>, operation: string, pathPattern: string, handler: Handler, op: string, p: string)
    ensures var r := WithHandler(hs, operation, pathPattern, handler);
      && operation in r && pathPattern in r[operation] && r[operation][pathPattern] == handler
      && (op != operation || p != pathPattern ==>
            ((op in r && p in r[op]) <==> (op in hs && p in hs[op])) && (op in hs && p in hs[op] ==> r[op][p] == hs[op][p]))
  {
  }

  class Registry {
    var router: Router
    var handlers: map<string, map<string, Handler>>
    var convertedPatterns: map<string, string>
    var paramMappings: map<string, map<string, string>>

    ghost predicate Ok()
      reads this, router, router.nodes
    {
      router.Ok()
    }

    constructor ()
      ensures Ok() && router.log == [] && handlers == map[] && convertedPatterns == map[] && paramMappings == map[]
      ensures fresh(router) && fresh(router.nodes)
    {
      router := new Router();
      handlers, convertedPatterns, paramMappings := map[], map[], map[];
    }

    method NoteHandler(operation: string, pathPattern: string, handler: Handler)
      modifies this`handlers
      ensures handlers == WithHandler(old(handlers), operation, pathPattern, handler)
    {
      if operation !in handlers {
        handlers := handlers[operation := map[]];
      }
      handlers := handlers[operation := handlers[operation][pathPattern := handler]];
    }

    /** The maps of the registry. */
    method Note(operation: string, pathPattern: string, convertedPattern: string, paramMap: map<string, string>, handler: Handler)
      modifies this`handlers, this`convertedPatterns, this`paramMappings
      ensures handlers == WithHandler(old(handlers), operation, pathPattern, handler)
      ensures convertedPatterns == old(convertedPatterns)[convertedPattern := pathPattern]
      ensures paramMappings == if paramMap != map[] then old(paramMappings)[pathPattern := paramMap] else old(paramMappings)
    {
      NoteHandler(operation, pathPattern, handler);
      convertedPatterns := convertedPatterns[convertedPattern := pathPattern];
      if |paramMap| > 0 {
        paramMappings := paramMappings[pathPattern := paramMap];
      }
    }

    /** Registers a handler for a glob pattern under its translation. */
    method Register(operation: string, pathPattern: string, handler: Handler)
      requires Ok() && Valid(Converted(pathPattern))
      modifies this`handlers, this`convertedPatterns, this`paramMappings, router`nodes, router`log, router.nodes
      ensures Ok() && router == old(router)
      ensures router.log == old(router.log) + [Reg(operation, Converted(pathPattern), Some(handler))]
      ensures handlers == WithHandler(old(handlers), operation, pathPattern, handler)
      ensures convertedPatterns == old(convertedPatterns)[Converted(pathPattern) := pathPattern]
      ensures var names := PartNames(Split(pathPattern, '/'), 0, 0);
        paramMappings == if names != map[] then old(paramMappings)[pathPattern := names] else old(paramMappings)
      ensures forall x :: x in router.nodes ==> x in old(router.nodes) || fresh(x)
    {
      var convertedPattern, paramMap := ConvertGlobPattern(pathPattern);
      Note(operation, pathPattern, convertedPattern, paramMap, handler);
      router.Register(operation, convertedPattern, Some(handler));
    }

    /** Finds a handler and the renamed parameters. */
    method FindHandler(m: Engine, operation: string, requestPath: string)
      returns (handler: Option<Handler>, mappedParams: map<string, string>,
               ghost i: nat, ghost params: map<string, string>, ghost pattern: string, ghost order: seq<string>)
      requires Ok()
      ensures Answer(router.log, m, operation, requestPath, handler.Some?, i, handler, params, pattern)
      ensures handler.None? ==> mappedParams == map[]
      ensures handler.Some? ==> Enumerates(order, params) && mappedParams == RenameIn(Targets, order, params)
    {
      var found, pat;
      handler, found, pat, i := router.Find(m, operation, requestPath);
      params, pattern, order := found, pat, [];
      mappedParams := map[];
      if handler.Some? {
        mappedParams, order := RenameParams(found);
      }
    }
  }
}
