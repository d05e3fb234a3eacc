/** Looking a path up in a router of translated glob patterns: the answer in terms of the globs. */
module GlobLookups {
  import opened Wrappers
  import opened Tokens
  import opened Patterns
  import opened Tables
  import opened Routers
  import opened Globs
  import opened Segments
  import opened GlobMeaning
  import opened RegexpRetry

  /** Every registration of the log comes from the glob pattern of the same number. */
  ghost predicate FromGlobs(log: seq<Reg>, globs: seq<seq<string>>)
  {
    && |log| == |globs|
    && forall i :: 0 <= i < |log| ==>
         globs[i] != [] && CleanParts(globs[i]) && log[i].pattern == Converted(Pattern(globs[i])) && Valid(log[i].pattern)
  }

  /** A path of non-empty components has no empty segment. */
  lemma {:induction false} ComponentsSafe(cs: seq<string>)
    requires CompsOk(cs)
    ensures NoEmptySegment(PathText(cs)) && (cs != [] ==> PathText(cs)[0] == '/')
  {
    if cs != [] {
      ComponentsSafe(cs[1..]);
      var c, rest, p := cs[0], PathText(cs[1..]), PathText(cs);
      assert p == "/" + c + rest;
      forall i | 0 <= i < |p| - 1
        ensures !(p[i] == '/' && p[i + 1] == '/')
      {
        if i <= |c| {
          assert i < |c| ==> p[i + 1] == c[i];
          assert 0 < i ==> p[i] == c[i - 1];
        } else {
          assert p[i] == rest[i - 1 - |c|] && p[i + 1] == rest[i - |c|];
        }
      }
    }
  }

  /** One registration competes exactly when its glob pattern matches. */
  lemma GlobCompetes(log: seq<Reg>, globs: seq<seq<string>>, m: Engine, op: string, cs: seq<string>, j: nat)
    requires ValidLog(log) && FromGlobs(log, globs) && Faithful(m)
    requires CompsOk(cs) && (j < |log| ==> Readable(globs[j], cs))
    ensures Competes(log, m, false, op, PathText(cs), j) <==> Active(log, j) && log[j].op == op && PartsMatch(globs[j], cs)
  {
    if j < |log| {
      GlobMeaningKept(m, globs[j], cs);
    }
  }

  lemma GlobsAreSafe(log: seq<Reg>, globs: seq<seq<string>>, m: Engine, op: string, cs: seq<string>)
    requires ValidLog(log) && FromGlobs(log, globs) && CompsOk(cs)
    ensures RegexpSafe(log, m, op, PathText(cs))
  {
    forall i | 0 <= i < |log|
      ensures WholeSegments(Toks(log[i].pattern), false)
    {
      ConvertedReads(globs[i]);
      SegsOfParts(globs[i], 0, 0);
      SegsWhole(PartSegs(globs[i], 0, 0));
    }
    ComponentsSafe(cs);
    SafePath(log, m, op, PathText(cs));
  }

  /** A lookup finds a handler exactly when an active glob pattern matches the components of the path,
      and the handler it finds is that of such a pattern. */
  lemma GlobLookup(log: seq<Reg>, globs: seq<seq<string>>, m: Engine, op: string, cs: seq<string>,
                   found: bool, i: nat, handler: Option<Handler>, params: map<string, string>, pattern: string)
    requires ValidLog(log) && FromGlobs(log, globs) && Faithful(m)
    requires CompsOk(cs) && forall n :: 0 <= n < |globs| ==> Readable(globs[n], cs)
    requires Answer(log, m, op, PathText(cs), found, i, handler, params, pattern)
    ensures found <==> exists j: nat :: Active(log, j) && log[j].op == op && PartsMatch(globs[j], cs)
    ensures found ==> Active(log, i) && log[i].op == op && PartsMatch(globs[i], cs) && handler == log[i].handler
  {
    GlobsAreSafe(log, globs, m, op, cs);
    FindsExactlyMatches(log, m, op, PathText(cs), found, i, handler, params, pattern);
    forall j: nat
      ensures Competes(log, m, false, op, PathText(cs), j) <==> Active(log, j) && log[j].op == op && PartsMatch(globs[j], cs)
    {
      GlobCompetes(log, globs, m, op, cs, j);
    }
  }
}
