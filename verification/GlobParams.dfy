/** What a script sees of a lookup through glob patterns, read off the pattern and the path. */
module GlobParams {
  import opened Wrappers
  import opened Text
  import opened Tokens
  import opened Patterns
  import opened Tables
  import opened Segments
  import opened Globs
  import opened GlobMeaning
  import opened Routers
  import opened GlobLookups
  import opened Registries

  // ----- the value of a parameter, segment by segment

  /** What the segments capture under a name. */
  function ValueOf(gs: seq<Seg>, cs: seq<string>, key: string): Option<string> {
    if gs == [] || cs == [] then None
    else if SegKey(gs[0]) == [key] then Some(if gs[0].Star? then JoinSlash(cs) else cs[0])
    else ValueOf(gs[1..], cs[1..], key)
  }

  predicate MapsTo(params: map<string, string>, key: string, value: Option<string>) {
    if key in params then value == Some(params[key]) else value == None
  }

  lemma HeadParam(key: string, k: string, v: string, keys: seq<string>, caps: seq<string>, value: Option<string>)
    requires |keys| == |caps| && Distinct(keys) && k !in keys && MapsTo(ParamMap(keys, caps), key, value)
    ensures MapsTo(ParamMap([k] + keys, [v] + caps), key, if key == k then Some(v) else value)
  {
    ParamMapCons(k, v, keys, caps);
    ParamMapIs(keys, caps);
  }

  lemma DistinctTail(k: seq<string>, keys: seq<string>)
    requires Distinct(k + keys)
    ensures Distinct(keys) && (k != [] ==> k[0] !in keys)
  {
    var all := k + keys;
    assert forall i :: 0 <= i < |keys| ==> keys[i] == all[i + |k|];
    assert k != [] ==> all[0] == k[0];
  }

  lemma {:induction false} ParamIs(m: Engine, gs: seq<Seg>, cs: seq<string>, key: string)
    requires SegsOk(gs) && SegsMatch(m, gs, cs) && Distinct(SegKeys(gs))
    ensures |SegKeys(gs)| == |SegCaps(gs, cs)|
    ensures MapsTo(ParamMap(SegKeys(gs), SegCaps(gs, cs)), key, ValueOf(gs, cs, key))
  {
    CapsCount(m, gs, cs);
    if gs != [] {
      var g, keys, caps := gs[0], SegKeys(gs[1..]), SegCaps(gs[1..], cs[1..]);
      DistinctTail(SegKey(g), keys);
      if g.Star? {
        assert gs[1..] == [] && SegCaps(gs, cs) == [JoinSlash(cs)] + [] && SegKeys(gs) == ["*"] + [];
        HeadParam(key, "*", JoinSlash(cs), [], [], None);
      } else {
        ParamIs(m, gs[1..], cs[1..], key);
        if g.Word? {
          assert SegKeys(gs) == keys && SegCaps(gs, cs) == caps;
        } else {
          HeadParam(key, g.name, cs[0], keys, caps, ValueOf(gs[1..], cs[1..], key));
        }
      }
    }
  }

  // ----- the same, read off the parts of a glob pattern

  /** The components that stand at middle stars, in order. */
  function Stars(parts: seq<string>, cs: seq<string>): seq<string> {
    if parts == [] || cs == [] then []
    else (if MiddleStar(parts) then [cs[0]] else []) + Stars(parts[1..], cs[1..])
  }

  /** What stands at a parameter of the pattern's own; a final '*' is one that takes all the rest. */
  function OwnValue(parts: seq<string>, cs: seq<string>, n: string): Option<string> {
    if parts == [] || cs == [] then None
    else if parts == ["*"] then if n == "*" then Some(JoinSlash(cs)) else None
    else if OwnKey(parts[0]) == [n] then Some(cs[0])
    else OwnValue(parts[1..], cs[1..], n)
  }

  /** Two different texts for the one name "*". */
  predicate Clash(parts: seq<string>, cs: seq<string>) {
    Stars(parts, cs) != [] && OwnValue(parts, cs, "*").Some? && OwnValue(parts, cs, "*") != Some(Stars(parts, cs)[0])
  }

  predicate HasMiddle(parts: seq<string>) {
    parts != [] && (MiddleStar(parts) || HasMiddle(parts[1..]))
  }

  lemma NamesDiffer(i: nat, j: nat)
    ensures WildcardName(i) == WildcardName(j) ==> i == j
    ensures WildcardName(i) != GlobName(j) && WildcardName(i) != "*" && GlobName(i) != "*"
    ensures Generated(WildcardName(i)) && Generated(GlobName(i)) && !Generated("*")
  {
    assert WildcardName(i)[1] == 'w' && GlobName(j)[1] == 'g' && WildcardName(i)[0] == GlobName(i)[0] == '_';
    assert WildcardName(i)[9..] == Decimal(i) && WildcardName(j)[9..] == Decimal(j);
    if Decimal(i) == Decimal(j) {
      DecimalInjective(i, j);
    }
  }

  /** What one part adds. */
  lemma ValueStep(parts: seq<string>, w: nat, g: nat, cs: seq<string>, key: string)
    requires parts != [] && parts != ["*"] && cs != []
    ensures var w', g' := NextW(parts, w), NextG(parts, g);
      ValueOf(PartSegs(parts, w, g), cs, key) ==
        if SegKey(PartSeg(parts, w, g)) == [key] then Some(cs[0]) else ValueOf(PartSegs(parts[1..], w', g'), cs[1..], key)
  {
    var gs := PartSegs(parts, w, g);
    assert gs[0] == PartSeg(parts, w, g) && gs[1..] == PartSegs(parts[1..], NextW(parts, w), NextG(parts, g));
    assert |parts| == 1 && parts[0] == "*" ==> parts == ["*"];
  }

  lemma ValueRest(w: nat, g: nat, cs: seq<string>, key: string)
    requires cs != []
    ensures ValueOf(PartSegs(["*"], w, g), cs, key) == if key == "*" then Some(JoinSlash(cs)) else None
  {
    var gs := PartSegs(["*"], w, g);
    assert gs[0] == Star && gs[1..] == [];
  }

  lemma {:induction false} OwnValueIs(parts: seq<string>, w: nat, g: nat, cs: seq<string>, n: string)
    requires !Generated(n)
    ensures ValueOf(PartSegs(parts, w, g), cs, n) == OwnValue(parts, cs, n)
  {
    if parts != [] && cs != [] {
      if parts == ["*"] {
        ValueRest(w, g, cs, n);
      } else {
        OwnValueIs(parts[1..], NextW(parts, w), NextG(parts, g), cs[1..], n);
        ValueStep(parts, w, g, cs, n);
        HeadKeyIs(parts, w, g);
        NamesDiffer(w, 0);
        NamesDiffer(g, 0);
      }
    }
  }

  /** Only a middle star has a numbered name. */
  lemma StarHead(parts: seq<string>, w: nat, g: nat, k: nat)
    requires parts != [] && parts != ["*"] && forall n :: n in UserKeys(parts) ==> !Generated(n)
    ensures SegKey(PartSeg(parts, w, g)) == [WildcardName(w + k)] <==> MiddleStar(parts) && k == 0
    ensures forall n :: n in UserKeys(parts[1..]) ==> !Generated(n)
  {
    HeadKeyIs(parts, w, g);
    NamesDiffer(w + k, w);
    NamesDiffer(w + k, g);
    var own := OwnKey(parts[0]);
    assert own != [] ==> own[0] in UserKeys(parts);
    assert forall n :: n in UserKeys(parts[1..]) ==> n in UserKeys(parts);
  }

  function At(xs: seq<string>, k: nat): Option<string> {
    if k < |xs| then Some(xs[k]) else None
  }

  lemma AtCons(c: string, xs: seq<string>, k: nat)
    ensures At([c] + xs, k) == if k == 0 then Some(c) else At(xs, k - 1)
    ensures [] + xs == xs
  {
  }

  lemma StarsStep(parts: seq<string>, cs: seq<string>, k: nat)
    requires parts != [] && cs != []
    ensures At(Stars(parts, cs), k) ==
      var rest := Stars(parts[1..], cs[1..]);
      if !MiddleStar(parts) then At(rest, k) else if k == 0 then Some(cs[0]) else At(rest, k - 1)
  {
    AtCons(cs[0], Stars(parts[1..], cs[1..]), k);
  }

  lemma {:induction false} StarsAre(parts: seq<string>, w: nat, g: nat, cs: seq<string>, k: nat)
    requires forall n :: n in UserKeys(parts) ==> !Generated(n)
    ensures ValueOf(PartSegs(parts, w, g), cs, WildcardName(w + k)) == At(Stars(parts, cs), k)
  {
    if parts != [] && cs != [] {
      var key := WildcardName(w + k);
      if parts == ["*"] {
        NamesDiffer(w + k, w);
        ValueRest(w, g, cs, key);
      } else {
        ValueStep(parts, w, g, cs, key);
        StarHead(parts, w, g, k);
        StarsStep(parts, cs, k);
        if !MiddleStar(parts) {
          StarsAre(parts[1..], w, NextG(parts, g), cs[1..], k);
        } else if k > 0 {
          assert w + k == (w + 1) + (k - 1);
          StarsAre(parts[1..], w + 1, g, cs[1..], k - 1);
        }
      }
    }
  }

  lemma {:induction false} StarCount(parts: seq<string>, cs: seq<string>)
    ensures |Stars(parts, cs)| <= |parts|
    ensures !HasMiddle(parts) ==> Stars(parts, cs) == []
  {
    if parts != [] && cs != [] {
      StarCount(parts[1..], cs[1..]);
    }
  }

  lemma {:induction false} OwnAre(parts: seq<string>, cs: seq<string>, n: string)
    ensures OwnValue(parts, cs, n).Some? ==> n in UserKeys(parts)
    ensures n in UserKeys(parts) && |cs| >= |parts| ==> OwnValue(parts, cs, n).Some?
  {
    if parts != [] && parts != ["*"] && cs != [] {
      OwnAre(parts[1..], cs[1..], n);
    }
  }

  /** Only a pattern that combines a middle star with a '*' of its own can clash. */
  lemma ClashNeedsBoth(parts: seq<string>, cs: seq<string>)
    requires Clash(parts, cs)
    ensures HasMiddle(parts) && "*" in UserKeys(parts)
  {
    StarCount(parts, cs);
    OwnAre(parts, cs, "*");
  }

  // ----- the generated names

  /** The parts that are globs, in order. */
  function GlobParts(parts: seq<string>): seq<string> {
    if parts == [] then [] else (if GlobPart(parts[0]) then [parts[0]] else []) + GlobParts(parts[1..])
  }

  function Middles(parts: seq<string>): seq<string> {
    if parts == [] then [] else (if MiddleStar(parts) then ["*"] else []) + Middles(parts[1..])
  }

  lemma OneMoreName(names: map<string, string>, name: string, part: string, key: string, value: Option<string>)
    requires name !in names && MapsTo(names, key, value)
    ensures MapsTo(map[name := part] + names, key, if key == name then Some(part) else value)
  {
  }

  lemma StarNames(names: map<string, string>, w: nat, g: nat, k: nat, stars: seq<string>, globs: seq<string>)
    requires WildcardName(w) !in names && MapsTo(names, GlobName(g + k), At(globs, k))
    requires k > 0 ==> MapsTo(names, WildcardName(w + k), At(stars, k - 1))
    ensures MapsTo(map[WildcardName(w) := "*"] + names, WildcardName(w + k), At(["*"] + stars, k))
    ensures MapsTo(map[WildcardName(w) := "*"] + names, GlobName(g + k), At(globs, k))
  {
    NamesDiffer(w, w + k);
    NamesDiffer(w, g + k);
    AtCons("*", stars, k);
    OneMoreName(names, WildcardName(w), "*", GlobName(g + k), At(globs, k));
    if k > 0 {
      OneMoreName(names, WildcardName(w), "*", WildcardName(w + k), At(stars, k - 1));
    }
  }

  lemma GlobNames(names: map<string, string>, part: string, w: nat, g: nat, k: nat, stars: seq<string>, globs: seq<string>)
    requires GlobName(g) !in names && MapsTo(names, WildcardName(w + k), At(stars, k))
    requires k > 0 ==> MapsTo(names, GlobName(g + k), At(globs, k - 1))
    ensures MapsTo(map[GlobName(g) := part] + names, WildcardName(w + k), At(stars, k))
    ensures MapsTo(map[GlobName(g) := part] + names, GlobName(g + k), At([part] + globs, k))
  {
    NamesDiffer(w + k, g);
    GlobsDiffer(g, g + k);
    AtCons(part, globs, k);
    OneMoreName(names, GlobName(g), part, WildcardName(w + k), At(stars, k));
    if k > 0 {
      OneMoreName(names, GlobName(g), part, GlobName(g + k), At(globs, k - 1));
    }
  }

  lemma NamesStep(parts: seq<string>, w: nat, g: nat)
    requires parts != []
    ensures var rest, names := parts[1..], PartNames(parts[1..], NextW(parts, w), NextG(parts, g));
      if MiddleStar(parts) then
        PartNames(parts, w, g) == map[WildcardName(w) := "*"] + names && Middles(parts) == ["*"] + Middles(rest) && GlobParts(parts) == GlobParts(rest)
      else if GlobPart(parts[0]) then
        PartNames(parts, w, g) == map[GlobName(g) := parts[0]] + names && Middles(parts) == Middles(rest) && GlobParts(parts) == [parts[0]] + GlobParts(rest)
      else PartNames(parts, w, g) == names && Middles(parts) == Middles(rest) && GlobParts(parts) == GlobParts(rest)
  {
  }

  /** The middle star, or the glob, of this number has its name in the map. */
  predicate StarNamed(parts: seq<string>, w: nat, g: nat, k: nat) {
    MapsTo(PartNames(parts, w, g), WildcardName(w + k), At(Middles(parts), k))
  }

  predicate GlobNamed(parts: seq<string>, w: nat, g: nat, k: nat) {
    MapsTo(PartNames(parts, w, g), GlobName(g + k), At(GlobParts(parts), k))
  }

  lemma StarCase(parts: seq<string>, w: nat, g: nat, k: nat)
    requires MiddleStar(parts) && GlobNamed(parts[1..], w + 1, g, k) && (k > 0 ==> StarNamed(parts[1..], w + 1, g, k - 1))
    ensures StarNamed(parts, w, g, k) && GlobNamed(parts, w, g, k)
  {
    var rest := parts[1..];
    var names := PartNames(rest, w + 1, g);
    NamesLater(rest, w, g);
    NamesStep(parts, w, g);
    assert k > 0 ==> (w + 1) + (k - 1) == w + k;
    StarNames(names, w, g, k, Middles(rest), GlobParts(rest));
  }

  lemma GlobCase(parts: seq<string>, w: nat, g: nat, k: nat)
    requires parts != [] && !MiddleStar(parts) && GlobPart(parts[0])
    requires StarNamed(parts[1..], w, g + 1, k) && (k > 0 ==> GlobNamed(parts[1..], w, g + 1, k - 1))
    ensures StarNamed(parts, w, g, k) && GlobNamed(parts, w, g, k)
  {
    var rest := parts[1..];
    var names := PartNames(rest, w, g + 1);
    NamesLater(rest, w, g);
    NamesStep(parts, w, g);
    assert k > 0 ==> (g + 1) + (k - 1) == g + k;
    GlobNames(names, parts[0], w, g, k, Middles(rest), GlobParts(rest));
  }

  lemma OtherCase(parts: seq<string>, w: nat, g: nat, k: nat)
    requires parts != [] ==> !MiddleStar(parts) && !GlobPart(parts[0])
    requires parts != [] ==> StarNamed(parts[1..], w, g, k) && GlobNamed(parts[1..], w, g, k)
    ensures StarNamed(parts, w, g, k) && GlobNamed(parts, w, g, k)
  {
    if parts != [] {
      NamesStep(parts, w, g);
    }
  }

  /** The map of generated names: the k-th middle star's name stands for "*", the k-th glob's for that
      glob, */
  lemma {:induction false} PartNamesAre(parts: seq<string>, w: nat, g: nat, k: nat)
    ensures StarNamed(parts, w, g, k) && GlobNamed(parts, w, g, k)
  {
    if parts == [] {
      OtherCase(parts, w, g, k);
    } else if MiddleStar(parts) {
      PartNamesAre(parts[1..], w + 1, g, k);
      if k > 0 {
        PartNamesAre(parts[1..], w + 1, g, k - 1);
      }
      StarCase(parts, w, g, k);
    } else if GlobPart(parts[0]) {
      PartNamesAre(parts[1..], w, g + 1, k);
      if k > 0 {
        PartNamesAre(parts[1..], w, g + 1, k - 1);
      }
      GlobCase(parts, w, g, k);
    } else {
      PartNamesAre(parts[1..], w, g, k);
      OtherCase(parts, w, g, k);
    }
  }

  lemma NamesLater(parts: seq<string>, w: nat, g: nat)
    ensures WildcardName(w) !in PartNames(parts, w + 1, g) && GlobName(g) !in PartNames(parts, w, g + 1)
  {
    NotBefore(w, g);
    if WildcardName(w) in PartNames(parts, w + 1, g) {
      OnlyPartNames(parts, w + 1, g, WildcardName(w));
    }
    if GlobName(g) in PartNames(parts, w, g + 1) {
      OnlyPartNames(parts, w, g + 1, GlobName(g));
    }
  }

  lemma GlobsDiffer(i: nat, j: nat)
    ensures GlobName(i) == GlobName(j) ==> i == j
  {
    assert GlobName(i)[5..] == Decimal(i) && GlobName(j)[5..] == Decimal(j);
    if Decimal(i) == Decimal(j) {
      DecimalInjective(i, j);
    }
  }

  /** and there are no other names. */
  lemma {:induction false} OnlyPartNames(parts: seq<string>, w: nat, g: nat, key: string)
    requires key in PartNames(parts, w, g)
    ensures NumberedFrom(key, w, g)
  {
    if NewName(parts, w, g) != Some(key) {
      OnlyPartNames(parts[1..], NextW(parts, w), NextG(parts, g), key);
      MoreNumbered(key, w, g, NextW(parts, w), NextG(parts, g));
    }
  }

  // ----- the parameters of a lookup

  /** The parameters with which the translated pattern matches these components. */
  ghost predicate ParamsOf(m: Engine, parts: seq<string>, cs: seq<string>, params: map<string, string>) {
    var gs := PartSegs(parts, 0, 0);
    && SegsOk(gs) && SegsMatch(m, gs, cs) && Distinct(SegKeys(gs)) && |SegKeys(gs)| == |SegCaps(gs, cs)|
    && params == ParamMap(SegKeys(gs), SegCaps(gs, cs))
  }

  /** A pattern the scripts may use: its own names do not look generated and do not begin with '*', apart
      from a '*' itself. */
  ghost predicate OwnNames(parts: seq<string>) {
    CleanParts(parts) && |parts| < 0x8000_0000_0000_0000
    && forall n :: n in UserKeys(parts) ==> n == "*" || !(Generated(n) || "*" <= n)
  }

  /** What a lookup that finds the pattern has captured. */
  lemma AnswerParams(log: seq<Reg>, globs: seq<seq<string>>, m: Engine, op: string, cs: seq<string>,
                     i: nat, handler: Option<Handler>, params: map<string, string>, pattern: string)
    requires ValidLog(log) && FromGlobs(log, globs) && CompsOk(cs)
    requires Answer(log, m, op, PathText(cs), true, i, handler, params, pattern)
    ensures i < |globs| && ParamsOf(m, globs[i], cs, params)
  {
    var parts := globs[i];
    var gs := PartSegs(parts, 0, 0);
    ConvertedReads(parts);
    SegsOfParts(parts, 0, 0);
    MatchSegments(m, true, gs, cs);
    CapsCount(m, gs, cs);
  }

  lemma OwnParam(m: Engine, parts: seq<string>, cs: seq<string>, params: map<string, string>, n: string)
    requires ParamsOf(m, parts, cs, params) && !Generated(n)
    ensures MapsTo(params, n, OwnValue(parts, cs, n))
  {
    ParamIs(m, PartSegs(parts, 0, 0), cs, n);
    OwnValueIs(parts, 0, 0, cs, n);
  }

  lemma WildcardParam(m: Engine, parts: seq<string>, cs: seq<string>, params: map<string, string>, k: nat)
    requires ParamsOf(m, parts, cs, params) && forall n :: n in UserKeys(parts) ==> !Generated(n)
    ensures MapsTo(params, WildcardName(k), At(Stars(parts, cs), k))
  {
    ParamIs(m, PartSegs(parts, 0, 0), cs, WildcardName(k));
    StarsAre(parts, 0, 0, cs, k);
  }

  lemma NotGenerated(parts: seq<string>)
    requires OwnNames(parts)
    ensures forall n :: n in UserKeys(parts) ==> !Generated(n)
  {
    NamesDiffer(0, 0);
  }

  /** A clash is read off the pattern and the path. */
  lemma ClashExactlyWhen(m: Engine, parts: seq<string>, cs: seq<string>, params: map<string, string>)
    requires OwnNames(parts) && ParamsOf(m, parts, cs, params)
    ensures StarClash(params) <==> Clash(parts, cs)
  {
    NotGenerated(parts);
    NamesDiffer(0, 0);
    OwnParam(m, parts, cs, params, "*");
    WildcardParam(m, parts, cs, params, 0);
  }

  lemma ParamsTidy(m: Engine, parts: seq<string>, cs: seq<string>, params: map<string, string>)
    requires OwnNames(parts) && ParamsOf(m, parts, cs, params)
    ensures forall k :: k in params ==> k in SegKeys(PartSegs(parts, 0, 0)) && Tidy(k)
  {
    var gs := PartSegs(parts, 0, 0);
    ParamMapIs(SegKeys(gs), SegCaps(gs, cs));
    forall k | k in params
      ensures Tidy(k)
    {
      ConvertedTidy(parts, k);
    }
  }

  /** Every order of visiting the parameters gives the same result. */
  ghost predicate OneResult(params: map<string, string>) {
    forall a, b :: Enumerates(a, params) && Enumerates(b, params) ==> RenameIn(Targets, a, params) == RenameIn(Targets, b, params)
  }

  /** For a pattern and a path: what a script sees is independent of the order in which the parameter map
      is visited exactly when the text at the first middle star is that of the pattern's own '*', or one of
      the two is missing. */
  lemma DeterministicOnPath(m: Engine, parts: seq<string>, cs: seq<string>, params: map<string, string>)
    requires OwnNames(parts) && ParamsOf(m, parts, cs, params)
    ensures !Clash(parts, cs) <==> OneResult(params)
  {
    ParamsTidy(m, parts, cs, params);
    ClashExactlyWhen(m, parts, cs, params);
    DeterministicExactlyWhen(params);
  }

  /** In particular it is for every pattern that does not combine middle stars with a '*' of its own. */
  lemma DeterministicPattern(m: Engine, parts: seq<string>, cs: seq<string>, params: map<string, string>, a: seq<string>, b: seq<string>)
    requires OwnNames(parts) && ParamsOf(m, parts, cs, params) && !(HasMiddle(parts) && "*" in UserKeys(parts))
    requires Enumerates(a, params) && Enumerates(b, params)
    ensures RenameIn(Targets, a, params) == RenameIn(Targets, b, params)
  {
    ParamsTidy(m, parts, cs, params);
    ClashExactlyWhen(m, parts, cs, params);
    if Clash(parts, cs) {
      ClashNeedsBoth(parts, cs);
    }
    RenamingOfPattern(parts, params, a, b);
  }

  // ----- what a script sees

  /** The name of the k-th middle star, counted from 0. */
  function Numbered(k: nat): string {
    "*" + Decimal(k + 1)
  }

  predicate SeesOwn(parts: seq<string>, cs: seq<string>, r: map<string, string>, n: string) {
    n in r && OwnValue(parts, cs, n) == Some(r[n])
  }

  predicate SeesStar(parts: seq<string>, cs: seq<string>, r: map<string, string>, k: nat)
    requires k < |Stars(parts, cs)|
  {
    Numbered(k) in r && r[Numbered(k)] == Stars(parts, cs)[k]
  }

  predicate Named(parts: seq<string>, cs: seq<string>, x: string) {
    x == "*" || x in UserKeys(parts) || exists k: nat :: k < |Stars(parts, cs)| && x == Numbered(k)
  }

  /** Every name of the pattern's own with its component, every middle star under its number, one "*" if
      there is any star, and nothing else. */
  ghost predicate Sees(parts: seq<string>, cs: seq<string>, r: map<string, string>) {
    && (forall n :: n in UserKeys(parts) && n != "*" ==> SeesOwn(parts, cs, r, n))
    && (forall k: nat :: k < |Stars(parts, cs)| ==> SeesStar(parts, cs, r, k))
    && ("*" in r <==> Stars(parts, cs) != [] || OwnValue(parts, cs, "*").Some?)
    && ("*" in r ==> (Stars(parts, cs) != [] && r["*"] == Stars(parts, cs)[0]) || OwnValue(parts, cs, "*") == Some(r["*"]))
    && (forall x :: x in r ==> Named(parts, cs, x))
  }

  /** Without a clash that is one map. */
  lemma SeesOnce(parts: seq<string>, cs: seq<string>, r: map<string, string>, r': map<string, string>)
    requires !Clash(parts, cs) && Sees(parts, cs, r) && Sees(parts, cs, r')
    ensures r == r'
  {
    SeesSame(parts, cs, r, r');
    SeesSame(parts, cs, r', r);
  }

  lemma SeesSame(parts: seq<string>, cs: seq<string>, r: map<string, string>, r': map<string, string>)
    requires !Clash(parts, cs) && Sees(parts, cs, r) && Sees(parts, cs, r')
    ensures forall x :: x in r ==> x in r' && r'[x] == r[x]
  {
    forall x | x in r
      ensures x in r' && r'[x] == r[x]
    {
      assert Named(parts, cs, x);
      if x != "*" {
        if x in UserKeys(parts) {
          assert SeesOwn(parts, cs, r, x) && SeesOwn(parts, cs, r', x);
        } else {
          var k: nat :| k < |Stars(parts, cs)| && x == Numbered(k);
          assert SeesStar(parts, cs, r, k) && SeesStar(parts, cs, r', k);
        }
      }
    }
  }

  lemma Counts(m: Engine, gs: seq<Seg>, cs: seq<string>)
    requires SegsOk(gs) && SegsMatch(m, gs, cs)
    ensures |cs| >= |gs|
  {
    if gs != [] && !gs[0].Star? {
      Counts(m, gs[1..], cs[1..]);
    }
  }

  /** A visible name of one parameter only. */
  lemma OneSource(params: map<string, string>, order: seq<string>, key: string, x: string)
    requires (forall k :: k in params ==> Tidy(k)) && Enumerates(order, params)
    requires key in params && x in Targets(key) && x != "*"
    ensures var r := RenameIn(Targets, order, params); x in r && r[x] == params[key]
  {
    var r := RenameIn(Targets, order, params);
    RenamedFrom(Targets, order, params);
    assert NamesIt(Targets, order, key, x);
    var k :| StandsFor(Targets, order, params, r, k, x);
    TargetTells(k, key, x);
  }

  lemma PlainTarget(n: string)
    requires !(Generated(n) || "*" <= n)
    ensures Targets(n) == [n]
  {
  }

  lemma SeesOwnNames(m: Engine, parts: seq<string>, cs: seq<string>, params: map<string, string>, order: seq<string>, n: string)
    requires OwnNames(parts) && ParamsOf(m, parts, cs, params) && Enumerates(order, params)
    requires n in UserKeys(parts) && n != "*"
    ensures SeesOwn(parts, cs, RenameIn(Targets, order, params), n)
  {
    ParamsTidy(m, parts, cs, params);
    NotGenerated(parts);
    Counts(m, PartSegs(parts, 0, 0), cs);
    OwnAre(parts, cs, n);
    OwnParam(m, parts, cs, params, n);
    PlainTarget(n);
    OneSource(params, order, n, n);
  }

  lemma SeesStars(m: Engine, parts: seq<string>, cs: seq<string>, params: map<string, string>, order: seq<string>, k: nat)
    requires OwnNames(parts) && ParamsOf(m, parts, cs, params) && Enumerates(order, params)
    requires k < |Stars(parts, cs)|
    ensures SeesStar(parts, cs, RenameIn(Targets, order, params), k)
  {
    ParamsTidy(m, parts, cs, params);
    NotGenerated(parts);
    StarCount(parts, cs);
    WildcardParam(m, parts, cs, params, k);
    WildcardTargets(k);
    OneSource(params, order, WildcardName(k), Numbered(k));
  }

  /** Under "*" a script sees the final '*' or the first middle star, if there is one of them. */
  lemma StarSeen(params: map<string, string>, order: seq<string>)
    requires (forall k :: k in params ==> Tidy(k)) && Enumerates(order, params)
    ensures var r := RenameIn(Targets, order, params);
      && ("*" in r <==> "*" in params || WildcardName(0) in params)
      && ("*" in r ==> ("*" in params && r["*"] == params["*"]) || (WildcardName(0) in params && r["*"] == params[WildcardName(0)]))
  {
    var r := RenameIn(Targets, order, params);
    StarTargets();
    RenamedFrom(Targets, order, params);
    assert "*" in params ==> NamesIt(Targets, order, "*", "*");
    assert WildcardName(0) in params ==> NamesIt(Targets, order, WildcardName(0), "*");
    if "*" in r {
      var k :| StandsFor(Targets, order, params, r, k, "*");
      StarSource(k);
    }
  }

  lemma SeesOneStar(m: Engine, parts: seq<string>, cs: seq<string>, params: map<string, string>, order: seq<string>)
    requires OwnNames(parts) && ParamsOf(m, parts, cs, params) && Enumerates(order, params)
    ensures var r := RenameIn(Targets, order, params);
      && ("*" in r <==> Stars(parts, cs) != [] || OwnValue(parts, cs, "*").Some?)
      && ("*" in r ==> (Stars(parts, cs) != [] && r["*"] == Stars(parts, cs)[0]) || OwnValue(parts, cs, "*") == Some(r["*"]))
  {
    ParamsTidy(m, parts, cs, params);
    NotGenerated(parts);
    NamesDiffer(0, 0);
    OwnParam(m, parts, cs, params, "*");
    WildcardParam(m, parts, cs, params, 0);
    StarSeen(params, order);
  }

  /** Where a visible name comes from. */
  lemma SeesNamed(m: Engine, parts: seq<string>, cs: seq<string>, params: map<string, string>, order: seq<string>, x: string)
    requires OwnNames(parts) && ParamsOf(m, parts, cs, params) && Enumerates(order, params)
    requires x in RenameIn(Targets, order, params)
    ensures Named(parts, cs, x)
  {
    ParamsTidy(m, parts, cs, params);
    NotGenerated(parts);
    RenamedFrom(Targets, order, params);
    var key :| StandsFor(Targets, order, params, RenameIn(Targets, order, params), key, x);
    KeyNumbers(parts, 0, 0, key);
    assert forall i: nat :: GLOB <= GlobName(i);
    if key in UserKeys(parts) {
      if key != "*" {
        PlainTarget(key);
      } else {
        StarIsOwn();
      }
    } else if i: nat :| i < |parts| && key == WildcardName(i) {
      WildcardParam(m, parts, cs, params, i);
      WildcardTargets(i);
      assert x == "*" || x == Numbered(i);
    }
  }

  lemma StarIsOwn()
    ensures Targets("*") == ["*"]
  {
    assert "*"[0] != '_';
  }

  /** What `FindHandler` hands on, in any order. */
  lemma SeesIs(m: Engine, parts: seq<string>, cs: seq<string>, params: map<string, string>, order: seq<string>)
    requires OwnNames(parts) && ParamsOf(m, parts, cs, params) && Enumerates(order, params)
    ensures Sees(parts, cs, RenameIn(Targets, order, params))
  {
    var r := RenameIn(Targets, order, params);
    forall n | n in UserKeys(parts) && n != "*"
      ensures SeesOwn(parts, cs, r, n)
    {
      SeesOwnNames(m, parts, cs, params, order, n);
    }
    forall k: nat | k < |Stars(parts, cs)|
      ensures SeesStar(parts, cs, r, k)
    {
      SeesStars(m, parts, cs, params, order, k);
    }
    SeesOneStar(m, parts, cs, params, order);
    forall x | x in r
      ensures Named(parts, cs, x)
    {
      SeesNamed(m, parts, cs, params, order, x);
    }
  }

  // ----- the registry

  /** Looks a path up in a registry of glob patterns. */
  method FindGlob(r: Registry, ghost globs: seq<seq<string>>, m: Engine, op: string, cs: seq<string>)
    returns (handler: Option<Handler>, mapped: map<string, string>, ghost i: nat, ghost params: map<string, string>)
    requires r.Ok() && FromGlobs(r.router.log, globs) && CompsOk(cs)
    requires forall n :: 0 <= n < |globs| ==> OwnNames(globs[n])
    ensures handler.Some? ==> i < |globs| && Active(r.router.log, i) && handler == r.router.log[i].handler
    ensures handler.Some? ==> Sees(globs[i], cs, mapped)
    ensures handler.Some? ==> ParamsOf(m, globs[i], cs, params) && (OneResult(params) <==> !Clash(globs[i], cs))
    ensures handler.Some? && !Clash(globs[i], cs) ==> forall seen :: Sees(globs[i], cs, seen) ==> seen == mapped
    ensures handler.None? ==> mapped == map[]
    ensures Faithful(m) && (forall n :: 0 <= n < |globs| ==> Readable(globs[n], cs)) ==>
      (handler.Some? <==> exists j: nat :: Active(r.router.log, j) && r.router.log[j].op == op && PartsMatch(globs[j], cs))
  {
    ghost var log := r.router.log;
    ghost var pattern, order;
    handler, mapped, i, params, pattern, order := r.FindHandler(m, op, PathText(cs));
    if handler.Some? {
      AnswerParams(log, globs, m, op, cs, i, handler, params, pattern);
      SeesIs(m, globs[i], cs, params, order);
      DeterministicOnPath(m, globs[i], cs, params);
      if !Clash(globs[i], cs) {
        forall seen | Sees(globs[i], cs, seen)
          ensures seen == mapped
        {
          SeesOnce(globs[i], cs, seen, mapped);
        }
      }
    }
    if Faithful(m) && forall n :: 0 <= n < |globs| ==> Readable(globs[n], cs) {
      GlobLookup(log, globs, m, op, cs, handler.Some?, i, handler, params, pattern);
    }
  }

  // ----- a pattern and a path that clash

  function Around(x: string): seq<string> {
    ["*", x, "*"]
  }

  predicate PlainName(x: string) {
    x != "" && Without(x, "/{}") && !HasWildcard(x)
  }

  lemma AroundKeys(x: string)
    requires PlainName(x)
    ensures OwnNames(Around(x)) && UserKeys(Around(x)) == ["*"] && Valid(Converted(Pattern(Around(x))))
  {
    var parts := Around(x);
    assert parts[1..] == [x, "*"] && [x, "*"][1..] == ["*"];
    assert "/{}"[0] == '/' && "/{}"[1] == '{' && "/{}"[2] == '}';
    assert !Braced(x) && '/' !in x;
    assert CleanPart("*") && CleanPart(x);
    assert OwnKey(x) == [] && OwnKey("*") == [];
    assert UserKeys(["*"]) == ["*"] && UserKeys([x, "*"]) == [] + ["*"];
    NamesDiffer(0, 0);
    ConvertedIsValid(parts);
  }

  lemma AroundStars(x: string, a: string, b: string)
    requires PlainName(x)
    ensures Stars(Around(x), [a, x, b]) == [a] && OwnValue(Around(x), [a, x, b], "*") == Some(b)
  {
    var parts, cs := Around(x), [a, x, b];
    assert parts[1..] == [x, "*"] && [x, "*"][1..] == ["*"] && ["*"][1..] == [];
    assert cs[1..] == [x, b] && [x, b][1..] == [b] && [b][1..] == [];
    assert !MiddleStar(["*"]) && !MiddleStar([x, "*"]) && MiddleStar(parts) by {
      assert x != "*" by { assert "*"[0] == '*'; }
    }
    assert JoinSlash([b]) == b + "" == b;
    assert !Braced(x) by {
      assert "/{}"[1] == '{';
    }
    assert OwnKey(x) == [] && OwnKey("*") == [] && |parts| == 3;
    assert Stars(["*"], [b]) == [] by {
      assert ["*"] != [] && [b] != [];
    }
    var p, c := [x, "*"], [x, b];
    assert p[0] == x && !MiddleStar(p) && p[1..] == ["*"] && c[1..] == [b];
    assert Stars(p, c) == [] + Stars(p[1..], c[1..]);
    assert Stars(parts, cs) == [a] + [];
    assert OwnValue(["*"], [b], "*") == Some(b);
    assert OwnValue([x, "*"], [x, b], "*") == Some(b);
  }

  lemma AroundMatches(x: string, a: string, b: string)
    requires PlainName(x) && Ascii(a) && OneLine(a)
    ensures PartsMatch(Around(x), [a, x, b]) && Readable(Around(x), [a, x, b])
  {
    var parts, cs := Around(x), [a, x, b];
    var p, c := [x, "*"], [x, b];
    assert parts[1..] == p && p[1..] == ["*"] && cs[1..] == c && c[1..] == [b];
    PlainGlob(x, x);
    assert !GlobPart(x) && x != "*" by {
      assert "*"[0] == '*';
    }
    assert PartsMatch(["*"], [b]) && Readable(["*"], [b]);
    assert PartsMatch(p, c) && Readable(p, c);
    assert |parts| == 3 && Ascii("*") && ReadablePart(parts[0], cs[0]);
    assert PartsMatch(parts, cs);
    assert Readable(parts, cs);
  }

  /** What a lookup among such a pattern alone comes to. */
  lemma Collide(m: Engine, h: Handler, x: string, a: string, b: string, log: seq<Reg>,
                found: bool, i: nat, handler: Option<Handler>, params: map<string, string>, pattern: string)
    requires Faithful(m) && PlainName(x) && CompsOk([a, x, b]) && Ascii(a) && OneLine(a) && a != b
    requires Valid(Converted(Pattern(Around(x)))) && log == [Reg("read", Converted(Pattern(Around(x))), Some(h))]
    requires Answer(log, m, "read", PathText([a, x, b]), found, i, handler, params, pattern)
    ensures handler == Some(h) && found && OwnNames(Around(x)) && ParamsOf(m, Around(x), [a, x, b], params) && StarClash(params)
  {
    var parts, cs := Around(x), [a, x, b];
    AroundKeys(x);
    AroundStars(x, a, b);
    AroundMatches(x, a, b);
    assert Active(log, 0) && FromGlobs(log, [parts]);
    GlobLookup(log, [parts], m, "read", cs, found, i, handler, params, pattern);
    AnswerParams(log, [parts], m, "read", cs, i, handler, params, pattern);
    ClashExactlyWhen(m, parts, cs, params);
  }

  /** Registers a pattern of a middle star, a word and a final '*', and looks up a path such as "/a/x/b": the
      component at the middle star and the rest of the path are both handed on as "*", and the visiting
      order decides which. */
  method StarsCollide(m: Engine, h: Handler, x: string, a: string, b: string)
    returns (handler: Option<Handler>, mapped: map<string, string>, ghost params: map<string, string>)
    requires Faithful(m) && PlainName(x) && CompsOk([a, x, b]) && Ascii(a) && OneLine(a) && a != b
    ensures handler == Some(h) && StarClash(params)
    ensures !OneResult(params)
    ensures "*" in mapped && (mapped["*"] == a || mapped["*"] == b)
  {
    AroundKeys(x);
    var r := new Registry();
    r.Register("read", Pattern(Around(x)), h);
    ghost var log, i, pattern, order := r.router.log, 0, "", [];
    assert log == [Reg("read", Converted(Pattern(Around(x))), Some(h))];
    handler, mapped, i, params, pattern, order := r.FindHandler(m, "read", PathText([a, x, b]));
    Collide(m, h, x, a, b, log, handler.Some?, i, handler, params, pattern);
    StarOf(m, x, a, b, params, order);
    ghost var o, o' := StarClashMatters(params);
  }

  lemma StarOf(m: Engine, x: string, a: string, b: string, params: map<string, string>, order: seq<string>)
    requires PlainName(x) && OwnNames(Around(x)) && ParamsOf(m, Around(x), [a, x, b], params) && Enumerates(order, params)
    ensures var r := RenameIn(Targets, order, params); "*" in r && (r["*"] == a || r["*"] == b)
  {
    AroundStars(x, a, b);
    SeesOneStar(m, Around(x), [a, x, b], params, order);
  }

  /** The texts of the smallest such case. */
  lemma SmallestClash()
    ensures Pattern(Around("x")) == "/*/x/*" && PathText(["a", "x", "b"]) == "/a/x/b"
    ensures PlainName("x") && CompsOk(["a", "x", "b"]) && Ascii("a") && OneLine("a")
  {
    var cs := ["a", "x", "b"];
    assert cs[1..] == ["x", "b"] && ["x", "b"][1..] == ["b"] && ["b"][1..] == [];
    var parts := Around("x");
    assert parts[1..] == ["x", "*"] && ["x", "*"][1..] == ["*"];
    assert Join(["*"], '/') == "*" && Join(["x", "*"], '/') == "x/*";
    assert "/{}"[0] == '/' && "/{}"[1] == '{' && "/{}"[2] == '}';
  }
}
