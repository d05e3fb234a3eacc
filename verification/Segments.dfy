/** Patterns and paths that are made of whole segments: how their text reads as tokens, and when such
    a pattern matches such a path. */
module Segments {
  import opened Wrappers
  import opened Text
  import opened Tokens
  import opened Patterns

  /** One segment of a pattern: literal text, `{name}`, `{name:regexp}`, or a final '*'. */
  datatype Seg = Word(text: string) | Name(name: string) | Regexp(name: string, re: string) | Star

  predicate Without(s: string, bad: string) {
    forall i :: 0 <= i < |s| ==> s[i] !in bad
  }

  predicate SegOk(g: Seg) {
    match g
    case Word(t) => Without(t, "/{*")
    case Name(n) => Without(n, "/{}:")
    case Regexp(n, re) => Without(n, "/{}:") && Balanced(re)
    case Star => true
  }

  /** Only the last segment may be '*'. */
  predicate SegsOk(gs: seq<Seg>) {
    gs != [] ==> SegOk(gs[0]) && (gs[0].Star? ==> |gs| == 1) && SegsOk(gs[1..])
  }

  function SegText(g: Seg): string {
    match g
    case Word(t) => t
    case Name(n) => "{" + n + "}"
    case Regexp(n, re) => "{" + n + ":" + re + "}"
    case Star => "*"
  }

  function PatternText(gs: seq<Seg>): string {
    if gs == [] then "" else "/" + SegText(gs[0]) + PatternText(gs[1..])
  }

  function SegTok(g: Seg): seq<Tok> {
    match g
    case Word(t) => Lits(t)
    case Name(_) => [Par('/')]
    case Regexp(_, re) => [Rex(Anchored(re), '/')]
    case Star => [Rest]
  }

  function SegToks(gs: seq<Seg>): seq<Tok> {
    if gs == [] then [] else [Lit('/')] + SegTok(gs[0]) + SegToks(gs[1..])
  }

  function SegKey(g: Seg): seq<string> {
    match g
    case Word(_) => []
    case Name(n) => [n]
    case Regexp(n, _) => [n]
    case Star => ["*"]
  }

  function SegKeys(gs: seq<Seg>): seq<string> {
    if gs == [] then [] else SegKey(gs[0]) + SegKeys(gs[1..])
  }

  // ----- reading the text back

  /** A parameter segment in front of a text: its delimiter is the first byte of the text. */
  lemma ParamHead(g: Seg, rest: string)
    requires SegOk(g) && (g.Name? || g.Regexp?)
    ensures var s := SegText(g) + rest; var tail := if rest == "" then '/' else rest[0];
      && WildHead(s) && HeadLen(s) == |SegText(g)| && s[HeadLen(s)..] == rest && HeadKey(s) == g.name
      && HeadTok(s) == if g.Name? then Par(tail) else Rex(Anchored(g.re), tail)
  {
    var inner, s := InnerText(g), SegText(g) + rest;
    InnerClean(g);
    ParamTextIs(g);
    Braces(inner, rest);
    TailIs(s, rest);
    ParamReads(g, s);
  }

  lemma ParamTextIs(g: Seg)
    requires g.Name? || g.Regexp?
    ensures SegText(g) == "{" + InnerText(g) + "}"
  {
  }

  lemma TailIs(s: string, rest: string)
    requires WildHead(s) && s[0] == '{' && s[HeadLen(s)..] == rest
    ensures TailOf(s) == if rest == "" then '/' else rest[0]
  {
    assert |rest| == |s| - HeadLen(s);
  }

  lemma ParamReads(g: Seg, s: string)
    requires SegOk(g) && (g.Name? || g.Regexp?) && WildHead(s) && s[0] == '{' && Inner(s) == InnerText(g)
    ensures HeadKey(s) == g.name && HeadTok(s) == if g.Name? then Par(TailOf(s)) else Rex(Anchored(g.re), TailOf(s))
  {
    InnerClean(g);
    CutInner(g);
  }

  /** A parameter segment in front of a text that ends or goes on with '/'. */
  lemma ParamText(g: Seg, rest: string)
    requires SegOk(g) && (g.Name? || g.Regexp?) && (rest == "" || rest[0] == '/')
    ensures var s := SegText(g) + rest;
      && WildHead(s) && HeadLen(s) == |SegText(g)| && s[HeadLen(s)..] == rest
      && [HeadTok(s)] == SegTok(g) && HeadKey(s) == g.name
  {
    ParamHead(g, rest);
  }

  /** What stands between the braces of a parameter. */
  function InnerText(g: Seg): string
    requires g.Name? || g.Regexp?
  {
    if g.Name? then g.name else g.name + ":" + g.re
  }

  lemma NameClean(n: string)
    requires Without(n, "/{}:")
    ensures '{' !in n && '}' !in n && ':' !in n
  {
    assert "/{}:"[1] == '{' && "/{}:"[2] == '}' && "/{}:"[3] == ':';
  }

  lemma InnerClean(g: Seg)
    requires SegOk(g) && (g.Name? || g.Regexp?)
    ensures Balanced(InnerText(g)) && ':' !in g.name
  {
    NameClean(g.name);
    var front := if g.Name? then g.name else g.name + ":";
    assert '{' !in front && '}' !in front;
    if g.Name? {
      BalancedBehind(front, "");
      assert front + "" == g.name;
    } else {
      BalancedBehind(front, g.re);
    }
  }

  /** Text without braces does not disturb the balance. */
  lemma BalancedBehind(front: string, re: string)
    requires '{' !in front && '}' !in front && Balanced(re)
    ensures Balanced(front + re)
  {
    NoBraces(front, |front|);
    forall n | 0 <= n <= |front + re|
      ensures Depth(front + re, n) == if n <= |front| then 0 else Depth(re, n - |front|)
    {
      DepthBehind(front, re, n);
      if n <= |front| {
        NoBraces(front, n);
      }
    }
  }

  lemma CutInner(g: Seg)
    requires (g.Name? || g.Regexp?) && ':' !in g.name
    ensures var inner, c := InnerText(g), IndexOf(InnerText(g), ':');
      if g.Name? then c < 0 else c == |g.name| && inner[..c] == g.name && inner[c + 1..] == g.re
  {
    if g.Regexp? {
      var inner := InnerText(g);
      assert inner[..|g.name|] == g.name && inner[|g.name|] == ':' && inner[|g.name| + 1..] == g.re;
      IndexOfIs(inner, ':', |g.name|);
    }
  }

  lemma InBraces(inner: string, rest: string, n: nat)
    requires Balanced(inner) && 0 < n <= |inner| + 2
    ensures var s := "{" + inner + "}" + rest;
      if n == |inner| + 2 then Depth(s, n) == 0 else Depth(s, n) > 0
  {
    var s := "{" + inner + "}" + rest;
    var t := inner + ("}" + rest);
    assert s == "{" + t;
    assert Depth("{", 1) == 1;
    DepthBehind("{", t, n);
    if n == |inner| + 2 {
      DepthBehind(inner, "}" + rest, n - 1);
      assert ("}" + rest)[0] == '}' && Depth("}" + rest, 1) == -1;
    } else if n > 1 {
      DepthBehind(inner, "}" + rest, n - 1);
    }
  }

  /** A text in braces that is balanced itself. */
  lemma Braces(inner: string, rest: string)
    requires Balanced(inner)
    ensures var s := "{" + inner + "}" + rest;
      WildHead(s) && HeadLen(s) == |inner| + 2 && s[HeadLen(s)..] == rest && Inner(s) == inner
  {
    var s := "{" + inner + "}" + rest;
    var e := |inner| + 1;
    forall n: nat | 0 < n <= e + 1
      ensures if n == e + 1 then Depth(s, n) == 0 else Depth(s, n) > 0
    {
      InBraces(inner, rest, n);
    }
    CloseExactlyWhen(s, e);
    assert s[1..e] == inner && s[e + 1..] == rest;
  }

  lemma SegmentReads(g: Seg, rest: string)
    requires SegOk(g) && Parses(rest) && (rest == "" || rest[0] == '/') && (g.Star? ==> rest == "")
    ensures var t := SegText(g) + rest;
      Parses(t) && Toks(t) == SegTok(g) + Toks(rest) && Keys(t) == SegKey(g) + Keys(rest)
  {
    var t := SegText(g) + rest;
    match g {
      case Word(text) =>
        assert t[..|text|] == text && t[|text|..] == rest;
        assert "/{*"[1] == '{' && "/{*"[2] == '*';
        assert Plain(text);
        SplitPlain(t, |text|);
      case Star =>
        assert t == "*" && t[1..] == "";
      case _ =>
        ParamText(g, rest);
    }
  }

  lemma SlashReads(t: string)
    requires Parses(t)
    ensures Parses("/" + t) && Toks("/" + t) == [Lit('/')] + Toks(t) && Keys("/" + t) == Keys(t)
  {
    assert ("/" + t)[1..] == t;
  }

  lemma PatternTextIs(gs: seq<Seg>)
    requires gs != []
    ensures PatternText(gs) == "/" + (SegText(gs[0]) + PatternText(gs[1..]))
    ensures PatternText(gs[1..]) == "" || PatternText(gs[1..])[0] == '/'
  {
  }

  lemma SegToksIs(gs: seq<Seg>)
    requires gs != []
    ensures SegToks(gs) == [Lit('/')] + (SegTok(gs[0]) + SegToks(gs[1..]))
  {
  }

  /** The text of a pattern reads as its segments' tokens and names. */
  lemma {:induction false} TextReads(gs: seq<Seg>)
    requires SegsOk(gs)
    ensures Parses(PatternText(gs)) && Toks(PatternText(gs)) == SegToks(gs) && Keys(PatternText(gs)) == SegKeys(gs)
  {
    if gs != [] {
      var g, rest := gs[0], PatternText(gs[1..]);
      TextReads(gs[1..]);
      SegmentReads(g, rest);
      SlashReads(SegText(g) + rest);
      PatternTextIs(gs);
      SegToksIs(gs);
    }
  }

  lemma SlashFirst(gs: seq<Seg>)
    ensures gs == [] ==> SegToks(gs) == []
    ensures gs != [] ==> SegToks(gs) != [] && SegToks(gs)[0] == Lit('/')
  {
  }

  /** One segment in front of tokens that begin with '/', if there are any. */
  lemma ProperSegment(g: Seg, k: seq<Tok>)
    requires SegOk(g) && Proper(k) && (k == [] || k[0] == Lit('/')) && (g.Star? ==> k == [])
    ensures Proper([Lit('/')] + (SegTok(g) + k))
  {
    var tail := SegTok(g) + k;
    assert ([Lit('/')] + tail)[1..] == tail;
    match g {
      case Word(t) => ProperText(t, k);
      case _ => assert tail[1..] == k && tail[0] == SegTok(g)[0];
    }
  }

  /** Such a pattern keeps parameters apart. */
  lemma {:induction false} SegProper(gs: seq<Seg>)
    requires SegsOk(gs)
    ensures Proper(SegToks(gs))
  {
    if gs != [] {
      SegProper(gs[1..]);
      SlashFirst(gs[1..]);
      SegToksIs(gs);
      ProperSegment(gs[0], SegToks(gs[1..]));
    }
  }

  lemma {:induction false} ProperText(t: string, k: seq<Tok>)
    requires Plain(t) && Proper(k)
    ensures Proper(Lits(t) + k)
  {
    if t == "" {
      assert Lits(t) + k == k;
    } else {
      ProperText(t[1..], k);
      assert (Lits(t) + k)[1..] == Lits(t[1..]) + k;
    }
  }

  // ----- matching

  predicate CompsOk(cs: seq<string>) {
    forall i :: 0 <= i < |cs| ==> cs[i] != "" && '/' !in cs[i]
  }

  function PathText(cs: seq<string>): string {
    if cs == [] then "" else "/" + cs[0] + PathText(cs[1..])
  }

  /** `strings.Join(cs, "/")`. */
  function JoinSlash(cs: seq<string>): string {
    if cs == [] then "" else cs[0] + PathText(cs[1..])
  }

  /** Does one segment match one component? */
  predicate SegMatch(m: Engine, g: Seg, c: string) {
    match g
    case Word(t) => c == t
    case Name(_) => true
    case Regexp(_, re) => m(Anchored(re), c)
    case Star => false
  }

  /** Segments match components one to one; a final '*' takes all the remaining ones, at least one. */
  predicate SegsMatch(m: Engine, gs: seq<Seg>, cs: seq<string>) {
    if gs == [] then cs == []
    else if gs[0].Star? then cs != []
    else cs != [] && SegMatch(m, gs[0], cs[0]) && SegsMatch(m, gs[1..], cs[1..])
  }

  function SegCaps(gs: seq<Seg>, cs: seq<string>): seq<string> {
    if gs == [] || cs == [] then []
    else if gs[0].Star? then [JoinSlash(cs)]
    else (if gs[0].Word? then [] else [cs[0]]) + SegCaps(gs[1..], cs[1..])
  }

  /** The tokens behind a segment begin with '/', or end. */
  lemma BehindSegment(m: Engine, lax: bool, gs: seq<Seg>, path: string)
    requires SegsOk(gs) && path != "" && path[0] != '/'
    ensures !Matches(m, lax, SegToks(gs), path)
  {
  }

  lemma SlashAfter(c: string, rest: string)
    requires '/' !in c && c != "" && (rest == "" || rest[0] == '/')
    ensures IndexOf(c + rest, '/') == if rest == "" then -1 else |c|
  {
    if rest != "" {
      assert (c + rest)[..|c|] == c;
      IndexOfIs(c + rest, '/', |c|);
    } else {
      assert c + rest == c;
    }
  }

  /** Literal text against a component. */
  lemma MatchWord(m: Engine, lax: bool, t: string, gs: seq<Seg>, c: string, rest: string)
    requires SegsOk(gs) && Without(t, "/{*") && '/' !in c && c != "" && (rest == "" || rest[0] == '/')
    ensures Match(m, lax, Lits(t) + SegToks(gs), c + rest) == if t == c then Match(m, lax, SegToks(gs), rest) else None
  {
    var p := c + rest;
    MatchLits(m, lax, t, SegToks(gs), p);
    assert "/{*"[0] == '/';
    assert forall j :: 0 <= j < |t| ==> t[j] != '/';
    assert rest != "" ==> p[|c|] == '/';
    if t == c {
      assert p[|t|..] == rest;
    } else if t <= p {
      assert |t| <= |c|;
      assert t == p[..|t|] && c == p[..|c|];
      assert |t| < |c|;
      assert p[|t|..][0] == c[|t|];
      assert c[|t|] in c;
      BehindSegment(m, lax, gs, p[|t|..]);
    }
  }

  /** One segment against the component in front of the rest of the path. */
  lemma MatchSegment(m: Engine, lax: bool, g: Seg, gs: seq<Seg>, c: string, rest: string)
    requires SegOk(g) && SegsOk(gs) && '/' !in c && c != "" && (rest == "" || rest[0] == '/')
    ensures var r := Match(m, lax, SegTok(g) + SegToks(gs), c + rest);
      if g.Star? then gs == [] ==> r == Some([c + rest])
      else if !SegMatch(m, g, c) then r == None
      else r == match Match(m, lax, SegToks(gs), rest)
                case None => None
                case Some(cs) => Some((if g.Word? then [] else [c]) + cs)
  {
    var p := c + rest;
    assert p[..|c|] == c && p[|c|..] == rest;
    match g {
      case Word(t) =>
        MatchWord(m, lax, t, gs, c, rest);
        assert forall cs: seq<string> :: [] + cs == cs;
      case Star =>
        assert p[|p|..] == "" && p[..|p|] == p;
        assert [Rest] + SegToks([]) == [Rest];
        assert [Rest][1..] == [] && Match(m, lax, [], "") == Some([]) && [p] + [] == [p];
      case _ =>
        SlashAfter(c, rest);
        var k := SegTok(g) + SegToks(gs);
        assert k[1..] == SegToks(gs);
        assert rest == "" ==> p == c;
        assert Span(m, lax, k[0], p) == if SegMatch(m, g, c) then Some(|c|) else None;
    }
  }

  /** The slash in front of a component. */
  lemma MatchSlash(m: Engine, lax: bool, k: seq<Tok>, path: string)
    ensures Match(m, lax, [Lit('/')] + k, "/" + path) == Match(m, lax, k, path)
  {
    assert ([Lit('/')] + k)[1..] == k && ("/" + path)[1..] == path;
    assert Span(m, lax, Lit('/'), "/" + path) == Some(1);
    assert forall xs: seq<string> :: [] + xs == xs;
  }

  lemma PathTextIs(cs: seq<string>)
    requires cs != []
    ensures PathText(cs) == "/" + (cs[0] + PathText(cs[1..]))
    ensures PathText(cs[1..]) == "" || PathText(cs[1..])[0] == '/'
  {
  }

  /** A pattern of segments matches a path of non-empty segments exactly when the segments match one
      by one, and captures one component for each parameter. */
  lemma {:induction false} MatchSegments(m: Engine, lax: bool, gs: seq<Seg>, cs: seq<string>)
    requires SegsOk(gs) && CompsOk(cs)
    ensures Match(m, lax, SegToks(gs), PathText(cs)) == if SegsMatch(m, gs, cs) then Some(SegCaps(gs, cs)) else None
  {
    if gs != [] && cs != [] {
      var rest := PathText(cs[1..]);
      SegToksIs(gs);
      PathTextIs(cs);
      MatchSlash(m, lax, SegTok(gs[0]) + SegToks(gs[1..]), cs[0] + rest);
      MatchSegments(m, lax, gs[1..], cs[1..]);
      MatchSegment(m, lax, gs[0], gs[1..], cs[0], rest);
      assert forall xs: seq<string> :: [] + xs == xs;
    }
  }

  lemma {:induction false} CapsCount(m: Engine, gs: seq<Seg>, cs: seq<string>)
    requires SegsOk(gs) && SegsMatch(m, gs, cs)
    ensures |SegKeys(gs)| == |SegCaps(gs, cs)|
  {
    if gs != [] && !gs[0].Star? {
      CapsCount(m, gs[1..], cs[1..]);
    }
  }
}
