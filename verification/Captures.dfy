/** What a parameter takes, as seen by a lookup. */
module Captures {
  import opened Wrappers
  import opened Tokens
  import opened Pieces
  import opened Patterns
  import opened Segments
  import opened Tables
  import opened Routers
  import opened RegexpRetry

  /** A slash, a parameter, and plain text. */
  function ParamPattern(g: Seg, ext: string): string {
    "/" + (SegText(g) + ext)
  }

  /** The delimiter of that parameter. */
  function TailBefore(ext: string): char {
    if ext == "" then '/' else ext[0]
  }

  function ParamTok(g: Seg, ext: string): Tok
    requires g.Name? || g.Regexp?
  {
    if g.Name? then Par(TailBefore(ext)) else Rex(Anchored(g.re), TailBefore(ext))
  }

  predicate IsParam(g: Seg) {
    SegOk(g) && (g.Name? || g.Regexp?)
  }

  lemma PatternReads(g: Seg, ext: string)
    requires IsParam(g) && Plain(ext)
    ensures var p := ParamPattern(g, ext);
      Valid(p) && Toks(p) == [Lit('/')] + ([ParamTok(g, ext)] + Lits(ext)) && Keys(p) == [g.name]
  {
    var t := SegText(g) + ext;
    var tok := ParamTok(g, ext);
    PlainToks(ext);
    ParamHead(g, ext);
    assert Toks(t) == [HeadTok(t)] + Toks(ext) && Keys(t) == [HeadKey(t)] + Keys(ext);
    SlashReads(t);
    ProperPlain(ext);
    var k := [tok] + Lits(ext);
    assert k[1..] == Lits(ext) && Proper(k);
    assert ([Lit('/')] + k)[1..] == k;
  }

  /** Against text in which the delimiter stands only behind the parameter, the pattern matches exactly when
      the parameter may take what stands before it. */
  lemma ParamMatches(m: Engine, lax: bool, g: Seg, ext: string, c: string)
    requires IsParam(g) && Ends(TailBefore(ext), c, ext)
    ensures Match(m, lax, [Lit('/')] + ([ParamTok(g, ext)] + Lits(ext)), "/" + (c + ext)) ==
      if Piece(m, lax, ParamTok(g, ext), c, ext) then Some([c]) else None
  {
    var tok, path := ParamTok(g, ext), c + ext;
    var k := [tok] + Lits(ext);
    MatchSlash(m, lax, k, path);
    assert path[..|c|] == c && path[|c|..] == ext;
    SpanExactlyWhen(m, lax, tok, path, |c|);
    if Span(m, lax, tok, path).Some? {
      var n := Span(m, lax, tok, path).value;
      SpanExactlyWhen(m, lax, tok, path, n);
      EndsOnce(TailBefore(ext), path, |c|, n);
    }
    assert k[1..] == Lits(ext) + [] && ext[|ext|..] == "";
    MatchLits(m, lax, ext, [], ext);
    assert [c] + [] == [c];
  }

  /** May the parameter take this text? A regexp is not asked about the empty text. */
  predicate Allowed(m: Engine, g: Seg, c: string) {
    if g.Name? then '/' !in c else g.Regexp? && (c == "" || m(Anchored(g.re), c))
  }

  /** Registers the pattern and looks a path up. */
  method FindParam(m: Engine, op: string, h: Handler, g: Seg, ext: string, c: string)
    returns (handler: Option<Handler>, params: map<string, string>)
    requires IsParam(g) && Plain(ext) && Ends(TailBefore(ext), c, ext)
    ensures handler == if Allowed(m, g, c) then Some(h) else None
    ensures handler.Some? ==> params == map[g.name := c]
  {
    var r := new Router();
    PatternReads(g, ext);
    ParamMatches(m, true, g, ext, c);
    r.Register(op, ParamPattern(g, ext), Some(h));
    ghost var log := SingleLog(op, h, ParamPattern(g, ext));
    assert r.log == log;
    ghost var i;
    var pattern;
    handler, params, pattern, i := r.Find(m, op, "/" + (c + ext));
    assert Competes(log, m, true, op, "/" + (c + ext), 0) <==> Allowed(m, g, c);
    if handler.Some? {
      OneParam(g.name, c);
    }
  }

  lemma OneParam(name: string, c: string)
    ensures ParamMap([name], [c]) == map[name := c]
  {
    ParamMapCons(name, c, [], []);
    assert [name] + [] == [name] && [c] + [] == [c];
  }

  /** A `{name}` before a delimiter other than '/' takes any text without the delimiter, as long as it holds
      no '/'. */
  method FindByExtension(m: Engine, op: string, h: Handler, n: string, ext: string, c: string)
    returns (handler: Option<Handler>, params: map<string, string>)
    requires Without(n, "/{}:") && Plain(ext) && ext != "" && ext[0] != '/' && ext[0] !in c
    ensures handler.Some? <==> '/' !in c
    ensures handler.Some? ==> handler == Some(h) && params == map[n := c]
  {
    handler, params := FindParam(m, op, h, Name(n), ext, c);
  }

  /** Text with the braces of a repetition. */
  lemma YearRegexp()
    ensures Balanced("[0-9]{4}") && Anchored("[0-9]{4}") == "^[0-9]{4}$"
  {
    var front := "[0-9]";
    assert front + "{4}" == "[0-9]{4}" && '{' !in front && '}' !in front;
    assert "{4}"[1..] == "4}" && "4}"[1..] == "}" && "}"[1..] == "";
    ClosesExactlyWhen("{4}", 0);
    BalancedBehind(front, "{4}");
    assert "^" + "[0-9]{4}" == "^[0-9]{4}" && "^[0-9]{4}" + "$" == "^[0-9]{4}$";
  }

  /** "/{y:[0-9]{4}}" is a parameter with a regexp that has braces of its own. */
  lemma YearTokens()
    ensures Valid("/{y:[0-9]{4}}") && Toks("/{y:[0-9]{4}}") == [Lit('/'), Rex("^[0-9]{4}$", '/')] && Keys("/{y:[0-9]{4}}") == ["y"]
  {
    var g := Regexp("y", "[0-9]{4}");
    YearRegexp();
    YearText();
    PatternReads(g, "");
    assert [ParamTok(g, "")] + Lits("") == [ParamTok(g, "")];
  }

  lemma YearText()
    ensures ParamPattern(Regexp("y", "[0-9]{4}"), "") == "/{y:[0-9]{4}}"
  {
    assert SegText(Regexp("y", "[0-9]{4}")) == "{" + "y" + ":" + "[0-9]{4}" + "}";
  }

  /** Registers it and looks "/2024" up. */
  method FindYear(m: Engine, op: string, h: Handler) returns (handler: Option<Handler>, params: map<string, string>)
    ensures handler.Some? <==> m("^[0-9]{4}$", "2024")
    ensures handler.Some? ==> handler == Some(h) && params == map["y" := "2024"]
  {
    YearRegexp();
    assert '/' !in "2024";
    handler, params := FindParam(m, op, h, Regexp("y", "[0-9]{4}"), "", "2024");
  }

  /** Registers "/{name}.txt" and looks two paths up: "/a.txt" is found, "/a/b.txt" is not. */
  method FindText(m: Engine, op: string, h: Handler)
    returns (handler: Option<Handler>, params: map<string, string>, none: Option<Handler>)
    ensures handler == Some(h) && params == map["name" := "a"] && none == None
  {
    TextNames();
    handler, params := FindByExtension(m, op, h, "name", ".txt", "a");
    var ps;
    none, ps := FindByExtension(m, op, h, "name", ".txt", "a/b");
  }

  lemma TextNames()
    ensures Without("name", "/{}:") && Plain(".txt") && ".txt"[0] == '.'
    ensures '.' !in "a" && '/' !in "a" && '.' !in "a/b" && '/' in "a/b"
  {
    assert "a/b"[1] == '/';
  }
}
