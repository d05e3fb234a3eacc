/** After the siblings of a regexp parameter have failed, the search tries the last one once more with
    an empty text and without asking its regexp. This module says what that does to lookups. */
module RegexpRetry {
  import opened Wrappers
  import opened Text
  import opened Tokens
  import opened Patterns
  import opened Segments
  import opened Tables
  import opened Routers

  // ----- one pattern

  /** On its way along the path the pattern comes to a regexp parameter whose own delimiter stands there:
      the loop over the siblings skips it, and the attempt after the loop takes it with an empty text. */
  predicate AtOwnTail(m: Engine, k: seq<Tok>, path: string) {
    k != [] &&
    match Span(m, true, k[0], path)
    case None => false
    case Some(n) => (k[0].Rex? && path != "" && path[0] == k[0].tail) || AtOwnTail(m, k[1..], path[n..])
  }

  /** One of the captures of a regexp parameter is empty. */
  predicate EmptyRegexp(k: seq<Tok>, caps: seq<string>)
    requires |caps| == Wilds(k)
  {
    k != [] &&
    if k[0].Lit? then EmptyRegexp(k[1..], caps)
    else (k[0].Rex? && caps[0] == "") || EmptyRegexp(k[1..], caps[1..])
  }

  /** A pattern that is taken to match really matches exactly when it nowhere stands at the delimiter of
      one of its own regexps; */
  lemma {:induction false} StrictExactlyWhen(m: Engine, k: seq<Tok>, path: string)
    requires Matches(m, true, k, path)
    ensures Matches(m, false, k, path) <==> !AtOwnTail(m, k, path)
  {
    if k != [] {
      var n := Span(m, true, k[0], path).value;
      StrictExactlyWhen(m, k[1..], path[n..]);
      if k[0].Rex? {
        assert path != "" && (n == 0 <==> IndexOf(path, k[0].tail) == 0);
        OwnTail(path, k[0].tail);
      }
    }
  }

  lemma OwnTail(path: string, tail: char)
    requires path != ""
    ensures IndexOf(path, tail) == 0 <==> path[0] == tail
  {
  }

  /** and exactly when none of its regexps has captured the empty text. */
  lemma {:induction false} StrictByCaptures(m: Engine, k: seq<Tok>, path: string)
    requires Matches(m, true, k, path)
    ensures |Match(m, true, k, path).value| == Wilds(k)
    ensures Matches(m, false, k, path) <==> !EmptyRegexp(k, Match(m, true, k, path).value)
  {
    CaptureCount(m, true, k, path);
    if k != [] {
      var n := Span(m, true, k[0], path).value;
      var rest := Match(m, true, k[1..], path[n..]).value;
      StrictByCaptures(m, k[1..], path[n..]);
      assert Match(m, true, k, path).value == Capture(k[0], path[..n]) + rest;
      if k[0].Lit? {
        assert [] + rest == rest;
      } else {
        assert ([path[..n]] + rest)[1..] == rest;
      }
      if k[0].Rex? {
        OwnTail(path, k[0].tail);
      }
    }
  }

  // ----- lookups

  /** A path is safe from the retry exactly when no active registration that competes for it stands at
      the delimiter of one of its own regexps. */
  lemma RegexpSafeExactlyWhen(log: seq<Reg>, m: Engine, op: string, path: string)
    requires ValidLog(log)
    ensures RegexpSafe(log, m, op, path) <==>
      forall i: nat :: Competes(log, m, true, op, path, i) ==> !AtOwnTail(m, Toks(log[i].pattern), path)
  {
    forall i: nat | Competes(log, m, true, op, path, i)
      ensures Competes(log, m, false, op, path, i) <==> !AtOwnTail(m, Toks(log[i].pattern), path)
    {
      StrictExactlyWhen(m, Toks(log[i].pattern), path);
    }
  }

  /** The lookup finds something exactly when an active registration matches, and then one that does. */
  ghost predicate Right(log: seq<Reg>, m: Engine, op: string, path: string, found: bool, i: nat)
    requires ValidLog(log)
  {
    && (found <==> exists j: nat :: Competes(log, m, false, op, path, j))
    && (found ==> Competes(log, m, false, op, path, i))
  }

  /** A lookup is right exactly when the pattern it reports does not stand at its own delimiter. */
  lemma LookupIsRightExactlyWhen(log: seq<Reg>, m: Engine, op: string, path: string, found: bool, i: nat,
                                 handler: Option<Handler>, params: map<string, string>, pattern: string)
    requires ValidLog(log) && Answer(log, m, op, path, found, i, handler, params, pattern)
    requires found ==> Parses(pattern)
    ensures Right(log, m, op, path, found, i) <==> (found ==> !AtOwnTail(m, Toks(pattern), path))
  {
    if found {
      StrictExactlyWhen(m, Toks(pattern), path);
    }
  }

  // ----- before the lookup

  /** A registration that matches at least laxly, and that no other such registration is searched before. */
  ghost predicate FirstLax(log: seq<Reg>, m: Engine, op: string, path: string, i: nat)
    requires ValidLog(log)
  {
    && Competes(log, m, true, op, path, i)
    && forall j: nat :: Competes(log, m, true, op, path, j) ==> NoLater(Toks(log[i].pattern), Toks(log[j].pattern))
  }

  /** The search order leaves no choice at the front. */
  ghost predicate OneFirst(log: seq<Reg>, m: Engine, op: string, path: string)
    requires ValidLog(log)
  {
    forall i: nat, j: nat :: FirstLax(log, m, op, path, i) && FirstLax(log, m, op, path, j) ==>
      !Unordered(Toks(log[i].pattern), Toks(log[j].pattern))
  }

  lemma FirstLaxIsOne(log: seq<Reg>, m: Engine, op: string, path: string, i: nat, j: nat)
    requires ValidLog(log) && OneFirst(log, m, op, path)
    requires FirstLax(log, m, op, path, i) && FirstLax(log, m, op, path, j)
    ensures i == j
  {
    FirstIsUnique(m, true, Toks(log[i].pattern), Toks(log[j].pattern), path);
    assert Same(log[i], log[j]) && Same(log[j], log[i]);
  }

  /** What the router promises of a lookup where no two regexps compete. */
  ghost predicate FirstFound(log: seq<Reg>, m: Engine, op: string, path: string, found: bool, i: nat)
    requires ValidLog(log)
  {
    && (!found <==> forall j: nat :: !Competes(log, m, true, op, path, j))
    && (found ==> FirstLax(log, m, op, path, i))
  }

  /** Where no two regexps compete: the lookup is right when none of the registrations that can come first
      stands at its own delimiter, and wrong when there are such registrations and all of them do. */
  lemma RightByFirst(log: seq<Reg>, m: Engine, op: string, path: string, found: bool, i: nat)
    requires ValidLog(log) && FirstFound(log, m, op, path, found, i)
    ensures (forall j: nat :: FirstLax(log, m, op, path, j) ==> !AtOwnTail(m, Toks(log[j].pattern), path))
      ==> Right(log, m, op, path, found, i)
    ensures Right(log, m, op, path, found, i) && found
      ==> exists j: nat :: FirstLax(log, m, op, path, j) && !AtOwnTail(m, Toks(log[j].pattern), path)
  {
    if found {
      StrictExactlyWhen(m, Toks(log[i].pattern), path);
    } else {
      CompetesLax(log, m, op, path);
    }
  }

  lemma CompetesLax(log: seq<Reg>, m: Engine, op: string, path: string)
    requires ValidLog(log)
    ensures forall j: nat :: Competes(log, m, false, op, path, j) ==> Competes(log, m, true, op, path, j)
  {
    forall j: nat | Competes(log, m, false, op, path, j)
      ensures Competes(log, m, true, op, path, j)
    {
      StrictIsLax(m, Toks(log[j].pattern), path);
    }
  }

  /** And where moreover the search order leaves no choice at the front, exactly when the registration that
      comes first does not stand at its own delimiter. */
  lemma RightExactlyWhen(log: seq<Reg>, m: Engine, op: string, path: string, found: bool, i: nat)
    requires ValidLog(log) && FirstFound(log, m, op, path, found, i) && OneFirst(log, m, op, path)
    ensures Right(log, m, op, path, found, i) <==>
      forall j: nat :: FirstLax(log, m, op, path, j) ==> !AtOwnTail(m, Toks(log[j].pattern), path)
  {
    RightByFirst(log, m, op, path, found, i);
    forall j: nat | found && FirstLax(log, m, op, path, j)
      ensures j == i
    {
      FirstLaxIsOne(log, m, op, path, i, j);
    }
  }

  /** Looks a path up in a router where no two regexps compete. */
  method FindRight(r: Router, m: Engine, op: string, path: string)
    returns (handler: Option<Handler>, params: map<string, string>, pattern: string, ghost i: nat)
    requires r.Ok() && LoneLog(r.log)
    ensures Answer(r.log, m, op, path, handler.Some?, i, handler, params, pattern)
    ensures OneFirst(r.log, m, op, path) ==>
      (Right(r.log, m, op, path, handler.Some?, i) <==>
        forall j: nat :: FirstLax(r.log, m, op, path, j) ==> !AtOwnTail(m, Toks(r.log[j].pattern), path))
  {
    ghost var log := r.log;
    handler, params, pattern, i := r.Find(m, op, path);
    if OneFirst(log, m, op, path) {
      RightExactlyWhen(log, m, op, path, handler.Some?, i);
    }
  }

  /** Each registration that matches only laxly has one that matches and is searched before it. */
  ghost predicate Overtaken(log: seq<Reg>, m: Engine, op: string, path: string)
    requires ValidLog(log)
  {
    forall i: nat :: Competes(log, m, true, op, path, i) && AtOwnTail(m, Toks(log[i].pattern), path) ==>
      exists j: nat :: Competes(log, m, false, op, path, j) && !NoLater(Toks(log[i].pattern), Toks(log[j].pattern))
  }

  /** With any regexps: every answer that the search order allows is right exactly when each registration
      that stands at its own delimiter is overtaken by one that matches. */
  lemma AnswersRightExactlyWhen(log: seq<Reg>, m: Engine, op: string, path: string)
    requires ValidLog(log)
    ensures Overtaken(log, m, op, path) <==>
      forall found, i: nat, handler, params, pattern :: Answer(log, m, op, path, found, i, handler, params, pattern) ==>
        Right(log, m, op, path, found, i)
  {
    if Overtaken(log, m, op, path) {
      forall found, i: nat, handler, params, pattern | Answer(log, m, op, path, found, i, handler, params, pattern)
        ensures Right(log, m, op, path, found, i)
      {
        OvertakenIsRight(log, m, op, path, found, i, handler, params, pattern);
      }
    } else {
      var i: nat :| Competes(log, m, true, op, path, i) && AtOwnTail(m, Toks(log[i].pattern), path)
        && forall j: nat :: Competes(log, m, false, op, path, j) ==> NoLater(Toks(log[i].pattern), Toks(log[j].pattern));
      var p := log[i].pattern;
      assert Answer(log, m, op, path, true, i, log[i].handler, ParamMap(Keys(p), Captures(m, p, path)), p);
      StrictExactlyWhen(m, Toks(p), path);
    }
  }

  lemma OvertakenIsRight(log: seq<Reg>, m: Engine, op: string, path: string, found: bool, i: nat,
                         handler: Option<Handler>, params: map<string, string>, pattern: string)
    requires ValidLog(log) && Overtaken(log, m, op, path)
    requires Answer(log, m, op, path, found, i, handler, params, pattern)
    ensures Right(log, m, op, path, found, i)
  {
    if found {
      StrictExactlyWhen(m, Toks(log[i].pattern), path);
    }
  }

  // ----- regexps that are whole segments

  predicate NoEmptySegment(path: string) {
    forall i :: 0 <= i < |path| - 1 ==> !(path[i] == '/' && path[i + 1] == '/')
  }

  /** Every regexp parameter of the pattern is a whole path segment. */
  predicate WholeSegments(k: seq<Tok>, afterSlash: bool) {
    k != [] ==>
      && (k[0].Rex? ==> afterSlash && k[0].tail == '/')
      && WholeSegments(k[1..], k[0] == Lit('/'))
  }

  /** On a path without empty segments a lax match of such a pattern is a strict match. */
  lemma {:induction false} LaxIsStrict(m: Engine, k: seq<Tok>, path: string, afterSlash: bool)
    requires WholeSegments(k, afterSlash) && Matches(m, true, k, path)
    requires NoEmptySegment(path) && (afterSlash && path != "" ==> path[0] != '/')
    ensures Matches(m, false, k, path)
  {
    if k != [] {
      var n := Span(m, true, k[0], path).value;
      assert Span(m, false, k[0], path) == Some(n);
      var rest := path[n..];
      assert forall i {:trigger rest[i]} :: 0 <= i < |rest| - 1 ==> rest[i] == path[i + n] && rest[i + 1] == path[i + n + 1];
      if k[0] == Lit('/') && rest != "" {
        assert path[0] == '/' && rest[0] == path[1];
      }
      LaxIsStrict(m, k[1..], rest, k[0] == Lit('/'));
    }
  }

  ghost predicate AllWhole(log: seq<Reg>)
    requires ValidLog(log)
  {
    forall i :: 0 <= i < |log| ==> WholeSegments(Toks(log[i].pattern), false)
  }

  /** Such paths are safe from the retry. */
  lemma SafePath(log: seq<Reg>, m: Engine, op: string, path: string)
    requires ValidLog(log) && NoEmptySegment(path)
    requires AllWhole(log)
    ensures RegexpSafe(log, m, op, path)
  {
    forall i: nat | Competes(log, m, true, op, path, i)
      ensures Competes(log, m, false, op, path, i)
    {
      LaxIsStrict(m, Toks(log[i].pattern), path, false);
    }
  }

  predicate NoRegexp(k: seq<Tok>) {
    forall i :: 0 <= i < |k| ==> !k[i].Rex?
  }

  /** For patterns without regexps there is nothing to be safe from: the empty-text retry never adds
      a match for a `{name}` parameter, on any path. */
  lemma {:induction false} RetryAddsNothing(m: Engine, k: seq<Tok>, path: string)
    requires NoRegexp(k)
    ensures Match(m, true, k, path) == Match(m, false, k, path)
  {
    if k != [] {
      assert Span(m, true, k[0], path) == Span(m, false, k[0], path);
      var n := Span(m, true, k[0], path);
      if n.Some? {
        RetryAddsNothing(m, k[1..], path[n.value..]);
      }
    }
  }

  lemma SafeWithoutRegexps(log: seq<Reg>, m: Engine, op: string, path: string)
    requires ValidLog(log)
    requires forall i :: 0 <= i < |log| ==> NoRegexp(Toks(log[i].pattern))
    ensures RegexpSafe(log, m, op, path)
  {
    forall i: nat | Competes(log, m, true, op, path, i)
      ensures Competes(log, m, false, op, path, i)
    {
      RetryAddsNothing(m, Toks(log[i].pattern), path);
    }
  }

  /** Literal text in front of tokens that do not rely on what comes before them, or a '/'. */
  lemma {:induction false} WholeLits(t: string, k: seq<Tok>, afterSlash: bool)
    requires WholeSegments(k, t != "" && t[|t| - 1] == '/') && (t == "" ==> WholeSegments(k, afterSlash))
    requires t == ['/'] || t == "" || k == [] || k[0].Lit?
    ensures WholeSegments(Lits(t) + k, afterSlash)
  {
    if t == "" {
      assert Lits(t) + k == k;
    } else {
      assert (Lits(t) + k)[1..] == Lits(t[1..]) + k;
      if |t| > 1 {
        assert t[1..][|t| - 2] == t[|t| - 1];
        WholeLits(t[1..], k, t[0] == '/');
      } else {
        assert Lits(t[1..]) + k == k;
      }
    }
  }

  /** One segment in front of tokens that begin with '/', if there are any. */
  lemma WholeSegment(g: Seg, k: seq<Tok>)
    requires SegOk(g) && WholeSegments(k, false) && (k == [] || k[0].Lit?)
    ensures WholeSegments([Lit('/')] + (SegTok(g) + k), false)
  {
    var tail := SegTok(g) + k;
    assert ([Lit('/')] + tail)[1..] == tail;
    match g {
      case Word(t) =>
        WholeBehind(k, t != "" && t[|t| - 1] == '/');
        WholeBehind(k, true);
        WholeLits(t, k, true);
      case _ =>
        assert tail[1..] == k && tail[0] == SegTok(g)[0];
    }
  }

  /** A regexp segment is a whole path segment. */
  lemma {:induction false} SegsWhole(gs: seq<Seg>)
    requires SegsOk(gs)
    ensures WholeSegments(SegToks(gs), false)
  {
    if gs != [] {
      SegsWhole(gs[1..]);
      SlashFirst(gs[1..]);
      SegToksIs(gs);
      WholeSegment(gs[0], SegToks(gs[1..]));
    }
  }

  lemma WholeBehind(k: seq<Tok>, afterSlash: bool)
    requires WholeSegments(k, false) && (k == [] || k[0].Lit?)
    ensures WholeSegments(k, afterSlash)
  {
  }

  // ----- paths that are not safe

  /** A pattern with a regexp parameter where a path has nothing. */
  function Inserted(front: string, re: string, back: string): string {
    front + (SegText(Regexp("x", re)) + back)
  }

  function InsertedToks(front: string, re: string, back: string): seq<Tok>
    requires back != ""
  {
    Lits(front) + ([Rex(Anchored(re), back[0])] + Lits(back))
  }

  lemma InsertedReads(front: string, re: string, back: string)
    requires Plain(front) && front != "" && front[0] == '/' && Plain(back) && back != "" && Balanced(re)
    ensures Valid(Inserted(front, re, back)) && Toks(Inserted(front, re, back)) == InsertedToks(front, re, back)
  {
    var g, s := Regexp("x", re), Inserted(front, re, back);
    var t := SegText(g) + back;
    var k := [Rex(Anchored(re), back[0])] + Lits(back);
    PlainToks(back);
    ParamHead(g, back);
    assert Toks(t) == [HeadTok(t)] + Toks(back) && Keys(t) == ["x"] + Keys(back);
    assert s[..|front|] == front && s[|front|..] == t;
    SplitPlain(s, |front|);
    ProperPlain(back);
    assert k[1..] == Lits(back) && k[1] == Lit(back[0]);
    ProperText(front, k);
  }

  /** It matches the path without the parameter laxly only, whatever the regexp accepts. */
  lemma InsertedMatches(m: Engine, lax: bool, front: string, re: string, back: string)
    requires back != ""
    ensures Matches(m, lax, InsertedToks(front, re, back), front + back) <==> lax
  {
    var k, path := [Rex(Anchored(re), back[0])] + Lits(back), front + back;
    assert front <= path && path[|front|..] == back;
    MatchLits(m, lax, front, k, path);
    OwnTail(back, back[0]);
    assert Span(m, lax, k[0], back) == if lax then Some(0) else None;
    assert k[1..] == Lits(back) + [] && back[0..] == back;
    MatchLits(m, lax, back, [], back);
    assert back[|back|..] == "";
  }

  lemma {:induction false} SelfAgree(k: seq<Tok>)
    ensures RexAgree(k, k)
  {
    if k != [] {
      SelfAgree(k[1..]);
    }
  }

  /** The log of a single registration. */
  lemma SingleLog(op: string, h: Handler, pattern: string) returns (log: seq<Reg>)
    requires Valid(pattern)
    ensures log == [Reg(op, pattern, Some(h))] && ValidLog(log) && LoneLog(log) && Active(log, 0)
  {
    log := [Reg(op, pattern, Some(h))];
    SelfAgree(Toks(pattern));
    forall a, b | 0 <= a < |log| && 0 <= b < |log|
      ensures RexAgree(Toks(log[a].pattern), Toks(log[b].pattern))
    {
      assert log[a] == log[b] == log[0];
    }
  }

  /** A single route with such a pattern competes for the path although it does not match it. */
  lemma RetryMatches(op: string, h: Handler, front: string, re: string, back: string, m: Engine) returns (log: seq<Reg>)
    requires Plain(front) && front != "" && front[0] == '/' && Plain(back) && back != "" && Balanced(re)
    ensures log == [Reg(op, Inserted(front, re, back), Some(h))] && ValidLog(log) && LoneLog(log)
    ensures Competes(log, m, true, op, front + back, 0)
    ensures forall j: nat :: !Competes(log, m, false, op, front + back, j)
  {
    InsertedReads(front, re, back);
    log := SingleLog(op, h, Inserted(front, re, back));
    InsertedMatches(m, true, front, re, back);
    InsertedMatches(m, false, front, re, back);
  }

  /** And a lookup returns it. */
  method FindsThroughRetry(op: string, h: Handler, front: string, re: string, back: string, m: Engine)
    returns (handler: Option<Handler>, ghost log: seq<Reg>)
    requires Plain(front) && front != "" && front[0] == '/' && Plain(back) && back != "" && Balanced(re)
    ensures log == [Reg(op, Inserted(front, re, back), Some(h))] && ValidLog(log)
    ensures handler == Some(h) && forall j: nat :: !Competes(log, m, false, op, front + back, j)
  {
    InsertedReads(front, re, back);
    var r := new Router();
    r.Register(op, Inserted(front, re, back), Some(h));
    log := r.log;
    ghost var log' := RetryMatches(op, h, front, re, back, m);
    assert log == log';
    ghost var i;
    var params, pattern;
    handler, params, pattern, i := r.Find(m, op, front + back);
  }

  /** For example, "/a{x:[0-9]+}b" is found for the path "/ab", which has no empty segment, */
  lemma RetryMatchesWithin(op: string, h: Handler, m: Engine) returns (log: seq<Reg>)
    ensures log == [Reg(op, "/a{x:[0-9]+}b", Some(h))] && ValidLog(log) && NoEmptySegment("/ab")
    ensures Competes(log, m, true, op, "/ab", 0)
    ensures forall i: nat :: !Competes(log, m, false, op, "/ab", i)
  {
    WithinText();
    ExampleRegexps();
    log := RetryMatches(op, h, "/a", "[0-9]+", "b", m);
  }

  lemma ExampleRegexps()
    ensures Balanced("[0-9]+") && Balanced("a")
  {
    assert '{' !in "[0-9]+" && '}' !in "[0-9]+";
    Unbraced("[0-9]+");
    Unbraced("a");
  }

  lemma WithinText()
    ensures Inserted("/a", "[0-9]+", "b") == "/a{x:[0-9]+}b" && "/a" + "b" == "/ab"
  {
  }

  /** and "/{x:a}/x" for the path "//x". */
  lemma RetryMatchesEmpty(op: string, h: Handler) returns (log: seq<Reg>, m: Engine)
    ensures ValidLog(log) && LoneLog(log)
    ensures Competes(log, m, true, op, "//x", 0)
    ensures forall i: nat :: !Competes(log, m, false, op, "//x", i)
  {
    m := (re, text) => false;
    assert "/" + "/x" == "//x";
    ExampleRegexps();
    log := RetryMatches(op, h, "/", "a", "/x", m);
  }

  method RetryReturnsUnmatched(op: string, h: Handler, m: Engine)
    returns (within: Option<Handler>, empty: Option<Handler>)
    ensures within == Some(h) && empty == Some(h)
  {
    ghost var log;
    ExampleRegexps();
    within, log := FindsThroughRetry(op, h, "/a", "[0-9]+", "b", m);
    empty, log := FindsThroughRetry(op, h, "/", "a", "/x", m);
  }

  // ----- a retry that does not come to bear

  lemma {:induction false} SameFront(e: seq<Tok>, a: seq<Tok>, b: seq<Tok>)
    ensures NoLater(e + a, e + b) <==> NoLater(a, b)
    ensures RexAgree(e + a, e + b) <==> RexAgree(a, b)
  {
    if e == [] {
      assert e + a == a && e + b == b;
    } else {
      assert (e + a)[1..] == e[1..] + a && (e + b)[1..] == e[1..] + b;
      SameFront(e[1..], a, b);
    }
  }

  /** The plain path as a pattern of its own. */
  lemma PlainRoute(m: Engine, lax: bool, front: string, re: string, back: string)
    requires Plain(front) && front != "" && front[0] == '/' && Plain(back) && back != ""
    ensures Valid(front + back) && Matches(m, lax, Toks(front + back), front + back)
    ensures var k, k' := InsertedToks(front, re, back), Toks(front + back);
      !NoLater(k, k') && RexAgree(k, k') && RexAgree(k', k)
  {
    var p := front + back;
    PlainToks(p);
    ProperPlain(p);
    assert Lits(p) + [] == Lits(p) && p[|p|..] == "";
    MatchLits(m, lax, p, [], p);
    var a, b := [Rex(Anchored(re), back[0])] + Lits(back), Lits(back);
    assert Lits(p) == Lits(front) + b;
    SameFront(Lits(front), a, b);
    SameFront(Lits(front), b, a);
  }

  /** A path can be unsafe and yet looked up rightly: where the plain path is registered too, as with
      "/a{x:[0-9]+}b" and "/ab", the literal route is searched first. */
  lemma LiteralOvertakes(op: string, h: Handler, h': Handler, front: string, re: string, back: string, m: Engine)
      returns (log: seq<Reg>)
    requires Plain(front) && front != "" && front[0] == '/' && Plain(back) && back != "" && Balanced(re)
    ensures log == [Reg(op, Inserted(front, re, back), Some(h)), Reg(op, front + back, Some(h'))]
    ensures ValidLog(log) && LoneLog(log)
    ensures !RegexpSafe(log, m, op, front + back) && Overtaken(log, m, op, front + back)
  {
    var path := front + back;
    InsertedReads(front, re, back);
    InsertedMatches(m, true, front, re, back);
    InsertedMatches(m, false, front, re, back);
    PlainRoute(m, false, front, re, back);
    log := [Reg(op, Inserted(front, re, back), Some(h)), Reg(op, path, Some(h'))];
    SelfAgree(Toks(log[0].pattern));
    SelfAgree(Toks(log[1].pattern));
    assert !Same(log[0], log[1]);
    assert Competes(log, m, true, op, path, 0) && !Competes(log, m, false, op, path, 0);
    assert Competes(log, m, false, op, path, 1);
    StrictIsLax(m, Toks(path), path);
    StrictExactlyWhen(m, Toks(path), path);
  }

  /** Without a condition on the routes only the path "/" is safe, among the paths that patterns can
      spell. */
  lemma SafeForAllExactlyWhen(op: string, path: string)
    requires Plain(path) && path != "" && path[0] == '/'
    ensures path == "/" <==> forall log: seq<Reg>, m: Engine :: ValidLog(log) ==> RegexpSafe(log, m, op, path)
  {
    if path == "/" {
      forall log: seq<Reg>, m: Engine | ValidLog(log)
        ensures RegexpSafe(log, m, op, path)
      {
        forall i: nat | Competes(log, m, true, op, path, i)
          ensures !AtOwnTail(m, Toks(log[i].pattern), path)
        {
          SlashOnly(m, log[i].pattern);
        }
        RegexpSafeExactlyWhen(log, m, op, path);
      }
    } else {
      var m: Engine := (re, text) => false;
      ExampleRegexps();
      var log := RetryMatches(op, Handler(0), path[..1], "a", path[1..], m);
      assert path[..1] + path[1..] == path;
      assert !RegexpSafe(log, m, op, path);
    }
  }

  lemma SlashOnly(m: Engine, pattern: string)
    requires Valid(pattern)
    ensures !AtOwnTail(m, Toks(pattern), "/")
  {
    assert !Wild(pattern[0]) && Toks(pattern)[0] == Lit('/');
    assert "/"[1..] == "";
    NeverOnEmpty(m, Toks(pattern)[1..]);
  }

  lemma {:induction false} NeverOnEmpty(m: Engine, k: seq<Tok>)
    ensures !AtOwnTail(m, k, "")
  {
    if k != [] {
      NeverOnEmpty(m, k[1..]);
      assert Span(m, true, k[0], "").Some? ==> ""[Span(m, true, k[0], "").value..] == "";
    }
  }

  // ----- paths with an empty segment

  predicate EmptySegment(path: string, i: nat) {
    i < |path| - 1 && path[i] == '/' && path[i + 1] == '/'
  }

  /** A name of `n` letters. */
  function Letters(n: nat): (s: string)
    ensures |s| == n && forall i :: 0 <= i < n ==> s[i] == 'p'
  {
    seq(n, _ => 'p')
  }

  predicate LongNames(keys: seq<string>, n: nat) {
    forall i :: 0 <= i < |keys| ==> keys[i] == "x" || keys[i] == "*" || (|keys[i]| > n && keys[i][0] == 'p')
  }

  /** The segments match the path laxly only, for every engine. */
  ghost predicate OnlyLaxly(gs: seq<Seg>, path: string) {
    forall m: Engine :: Matches(m, true, SegToks(gs), path) && !Matches(m, false, SegToks(gs), path)
  }

  lemma SlashStep(m: Engine, lax: bool, k: seq<Tok>, path: string)
    requires path != "" && path[0] == '/'
    ensures Matches(m, lax, [Lit('/')] + k, path) <==> Matches(m, lax, k, path[1..])
  {
    assert ([Lit('/')] + k)[1..] == k;
  }

  function EmptyToks(re: string): seq<Tok> {
    [Rex(re, '/')] + ([Lit('/')] + [Rest])
  }

  lemma AtSlash(m: Engine, re: string, rest: string)
    requires rest != "" && rest[0] == '/'
    ensures Matches(m, true, EmptyToks(re), rest) && !Matches(m, false, EmptyToks(re), rest)
  {
    var k, last := EmptyToks(re), rest[1..];
    OwnTail(rest, '/');
    assert k[1..] == [Lit('/')] + [Rest] && rest[0..] == rest;
    SlashStep(m, true, [Rest], rest);
    assert [Rest][1..] == [] && last[|last|..] == "";
    assert Match(m, true, [], "") == Some([]);
  }

  /** At the empty segment itself: a regexp there, and a '*' for all that follows. */
  lemma AtEmptySegment(path: string) returns (gs: seq<Seg>)
    requires EmptySegment(path, 0)
    ensures gs == [Regexp("x", "a"), Star] && SegsOk(gs) && SegKeys(gs) == ["x", "*"] && OnlyLaxly(gs, path)
  {
    gs := [Regexp("x", "a"), Star];
    ExampleRegexps();
    assert gs[1..] == [Star] && [Star][1..] == [];
    var k := EmptyToks(Anchored("a"));
    assert SegToks([Star]) == [Lit('/')] + [Rest] && SegToks(gs) == [Lit('/')] + k;
    forall m: Engine
      ensures Matches(m, true, SegToks(gs), path) && !Matches(m, false, SegToks(gs), path)
    {
      SlashStep(m, true, k, path);
      SlashStep(m, false, k, path);
      AtSlash(m, Anchored("a"), path[1..]);
    }
  }

  lemma SegmentStep(m: Engine, lax: bool, gs: seq<Seg>, name: string, c: string, path: string)
    requires SegsOk(gs) && Without(name, "/{}:") && c != "" && '/' !in c && path != "" && path[0] == '/'
    ensures Matches(m, lax, SegToks([Name(name)] + gs), "/" + (c + path)) <==> Matches(m, lax, SegToks(gs), path)
  {
    var g := Name(name);
    assert ([g] + gs)[1..] == gs && ("/" + (c + path))[1..] == c + path;
    SegToksIs([g] + gs);
    SlashStep(m, lax, SegTok(g) + SegToks(gs), "/" + (c + path));
    assert SegOk(g);
    MatchSegment(m, lax, g, gs, c, path);
  }

  /** One more segment in front: a name takes it. */
  lemma OneSegment(gs: seq<Seg>, name: string, c: string, path: string)
    requires SegsOk(gs) && Without(name, "/{}:") && c != "" && '/' !in c && path != "" && path[0] == '/' && OnlyLaxly(gs, path)
    ensures OnlyLaxly([Name(name)] + gs, "/" + (c + path))
  {
    forall m: Engine
      ensures var k, p := SegToks([Name(name)] + gs), "/" + (c + path); Matches(m, true, k, p) && !Matches(m, false, k, p)
    {
      SegmentStep(m, true, gs, name, c, path);
      SegmentStep(m, false, gs, name, c, path);
      assert Matches(m, true, SegToks(gs), path) && !Matches(m, false, SegToks(gs), path);
    }
  }

  /** No slash before the first. */
  lemma NoneBefore(s: string, i: nat)
    requires i < |s| && s[i] == '/'
    ensures 0 <= IndexOf(s, '/') <= i && s[IndexOf(s, '/')] == '/' && '/' !in s[..IndexOf(s, '/')]
  {
    var q := IndexOf(s, '/');
    assert s[i] in s;
    assert forall x :: 0 <= x < q ==> s[x] == s[..q][x];
  }

  /** The first component of a path, when the empty segment comes later. */
  lemma FirstComponent(path: string, i: nat) returns (c: string, rest: string)
    requires EmptySegment(path, i) && path[0] == '/' && path[1] != '/'
    ensures c != "" && '/' !in c && rest != "" && rest[0] == '/' && path == "/" + (c + rest)
    ensures i > |c| && EmptySegment(rest, i - 1 - |c|)
  {
    var tail := path[1..];
    NoneBefore(tail, i - 1);
    var q := IndexOf(tail, '/');
    c, rest := tail[..q], tail[q..];
    assert rest[i - 1 - q] == tail[i - 1] && rest[i - q] == tail[i];
  }

  lemma NewName(keys: seq<string>, n: nat)
    requires Distinct(keys) && LongNames(keys, n + 1)
    ensures Distinct([Letters(n + 1)] + keys) && LongNames([Letters(n + 1)] + keys, n)
  {
    var name, all := Letters(n + 1), [Letters(n + 1)] + keys;
    assert "x"[0] != 'p' && "*"[0] != 'p';
    forall j | 0 <= j < |keys|
      ensures keys[j] != name
    {
    }
  }

  /** For every path with an empty segment there are segments that match it laxly only. */
  lemma {:induction false} ThroughSegments(path: string, i: nat, n: nat) returns (gs: seq<Seg>)
    requires EmptySegment(path, i) && path[0] == '/'
    ensures gs != [] && SegsOk(gs) && Distinct(SegKeys(gs)) && LongNames(SegKeys(gs), n) && OnlyLaxly(gs, path)
    decreases |path|
  {
    if path[1] == '/' {
      gs := AtEmptySegment(path);
    } else {
      var c, rest := FirstComponent(path, i);
      var tail := ThroughSegments(rest, i - 1 - |c|, n + 1);
      var name := Letters(n + 1);
      gs := [Name(name)] + tail;
      assert gs[1..] == tail && SegKeys(gs) == [name] + SegKeys(tail);
      LettersClean(n + 1);
      NewName(SegKeys(tail), n);
      OneSegment(tail, name, c, rest);
    }
  }

  lemma LettersClean(n: nat)
    ensures Without(Letters(n), "/{}:")
  {
    assert "/{}:"[0] == '/' && "/{}:"[1] == '{' && "/{}:"[2] == '}' && "/{}:"[3] == ':';
  }

  /** A path is safe for every router whose regexps are whole segments, and every regexp engine, exactly
      when it has no empty segment, or does not begin with '/' at all. */
  lemma SafeExactlyWhen(op: string, path: string)
    ensures (path == "" || path[0] != '/' || NoEmptySegment(path)) <==>
      forall log: seq<Reg>, m: Engine :: ValidLog(log) && AllWhole(log) ==> RegexpSafe(log, m, op, path)
  {
    if path == "" || path[0] != '/' || NoEmptySegment(path) {
      forall log: seq<Reg>, m: Engine | ValidLog(log) && AllWhole(log)
        ensures RegexpSafe(log, m, op, path)
      {
        if NoEmptySegment(path) {
          SafePath(log, m, op, path);
        } else {
          NoPattern(log, m, op, path);
        }
      }
    } else {
      var i :| 0 <= i < |path| - 1 && path[i] == '/' && path[i + 1] == '/';
      var log, m := UnsafeLog(op, path, i);
      assert !RegexpSafe(log, m, op, path);
    }
  }

  lemma NoPattern(log: seq<Reg>, m: Engine, op: string, path: string)
    requires ValidLog(log) && (path == "" || path[0] != '/')
    ensures RegexpSafe(log, m, op, path)
  {
    forall i: nat | i < |log|
      ensures !Matches(m, true, Toks(log[i].pattern), path)
    {
      assert !Wild(log[i].pattern[0]) && Toks(log[i].pattern)[0] == Lit('/');
    }
  }

  lemma UnsafeLog(op: string, path: string, i: nat) returns (log: seq<Reg>, m: Engine)
    requires EmptySegment(path, i) && path[0] == '/'
    ensures ValidLog(log) && AllWhole(log) && !RegexpSafe(log, m, op, path)
  {
    var gs := ThroughSegments(path, i, 0);
    TextReads(gs);
    SegProper(gs);
    SegsWhole(gs);
    PatternTextIs(gs);
    m := (re, text) => false;
    log := SingleLog(op, Handler(0), PatternText(gs));
    assert Matches(m, true, SegToks(gs), path) && !Matches(m, false, SegToks(gs), path);
    assert Competes(log, m, true, op, path, 0) && !Competes(log, m, false, op, path, 0);
  }
}
