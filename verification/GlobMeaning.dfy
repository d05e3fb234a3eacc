/** What a translated glob pattern matches, and that it can be read back. */
module GlobMeaning {
  import opened Wrappers
  import opened Text
  import opened Tokens
  import opened Patterns
  import opened Segments
  import opened Globs

  /** A part that is a plain parameter, a glob in which braces are balanced, or a text without parameters. */
  predicate CleanPart(part: string) {
    && '/' !in part
    && if Braced(part) then |part| >= 2 && Without(part[1..|part| - 1], "/{}:")
       else if HasWildcard(part) then Balanced(part)
       else '{' !in part
  }

  predicate CleanParts(parts: seq<string>) {
    forall i :: 0 <= i < |parts| ==> CleanPart(parts[i])
  }

  /** The segment that the first part is translated to. */
  function PartSeg(parts: seq<string>, w: nat, g: nat): Seg
    requires parts != []
  {
    var part := parts[0];
    if MiddleStar(parts) then Regexp(WildcardName(w), ".*")
    else if part == "*" then Star
    else if Braced(part) && |part| >= 2 then Name(part[1..|part| - 1])
    else if HasWildcard(part) then Regexp(GlobName(g), "^" + GlobRegex(part) + "$")
    else Word(part)
  }

  function PartSegs(parts: seq<string>, w: nat, g: nat): (r: seq<Seg>)
    ensures |r| == |parts|
  {
    if parts == [] then []
    else [PartSeg(parts, w, g)] + PartSegs(parts[1..], NextW(parts, w), NextG(parts, g))
  }

  // ----- the translated text is made of segments

  /** Escaping keeps braces as they are. */
  lemma {:induction false} RegexCloses(p: string, d: nat)
    ensures Closes(GlobRegex(p), d) <==> Closes(p, d)
  {
    if p != "" {
      var rest := GlobRegex(p[1..]);
      RegexCloses(p[1..], d);
      if p[0] == '*' {
        assert (".*" + rest)[1..] == "*" + rest && ("*" + rest)[1..] == rest;
      } else if p[0] == '?' {
        assert ("." + rest)[1..] == rest;
      } else if Special(p[0]) {
        var re := ['\\', p[0]] + rest;
        assert re[1..] == [p[0]] + rest && ([p[0]] + rest)[1..] == rest;
        RegexCloses(p[1..], d + 1);
        if d > 0 {
          RegexCloses(p[1..], d - 1);
        }
      } else {
        assert p[0] != '{' && p[0] != '}';
        assert ([p[0]] + rest)[1..] == rest;
      }
    }
  }

  lemma {:induction false} ClosesInFront(s: string, d: nat)
    ensures Closes(s + "$", d) <==> Closes(s, d)
  {
    if s == "" {
      assert s + "$" == "$" && "$"[1..] == "";
    } else {
      assert (s + "$")[1..] == s[1..] + "$";
      ClosesInFront(s[1..], d);
      ClosesInFront(s[1..], d + 1);
      if d > 0 {
        ClosesInFront(s[1..], d - 1);
      }
    }
  }

  lemma RegexBalanced(p: string)
    ensures Balanced("^" + GlobRegex(p) + "$") <==> Balanced(p)
  {
    var re := GlobRegex(p);
    var all := "^" + re + "$";
    assert all[1..] == re + "$";
    ClosesExactlyWhen(all, 0);
    ClosesInFront(re, 0);
    RegexCloses(p, 0);
    ClosesExactlyWhen(p, 0);
  }

  lemma NamesClean(n: nat)
    ensures Without(WildcardName(n), "/{}:") && Without(GlobName(n), "/{}:")
  {
    var d := Decimal(n);
    assert forall c :: c in "/{}:" ==> !('0' <= c <= '9');
    assert Without("_wildcard", "/{}:") && Without("_glob", "/{}:");
    assert forall i :: 0 <= i < |d| ==> d[i] !in "/{}:";
  }

  lemma OneSeg(parts: seq<string>, w: nat, g: nat)
    requires parts != [] && CleanPart(parts[0])
    ensures SegOk(PartSeg(parts, w, g)) && SegText(PartSeg(parts, w, g)) == PartText(parts, w, g)
    ensures PartSeg(parts, w, g).Star? ==> |parts| == 1
  {
    var part := parts[0];
    NamesClean(w);
    NamesClean(g);
    if part == "*" {
      assert '{' !in ".*" && '}' !in ".*";
      Unbraced(".*");
      assert !Braced(part);
    } else if Braced(part) {
      assert part == "{" + part[1..|part| - 1] + "}";
    } else if HasWildcard(part) {
      RegexBalanced(part);
      var re := "^" + GlobRegex(part) + "$";
      assert "{" + GlobName(g) + ":" + re + "}" == "{" + GlobName(g) + ":^" + GlobRegex(part) + "$}";
    } else {
      assert forall i :: 0 <= i < |part| ==> part[i] != '*' && part[i] != '{' && part[i] != '/';
    }
  }

  lemma Slashed(gs: seq<Seg>, ts: seq<string>)
    requires gs != [] && |ts| == |gs| && SegText(gs[0]) == ts[0]
    requires |ts| > 1 ==> PatternText(gs[1..]) == "/" + Join(ts[1..], '/')
    ensures PatternText(gs) == "/" + Join(ts, '/')
  {
    var t := ts[0];
    if |ts| == 1 {
      assert gs[1..] == [];
      assert "/" + t + "" == "/" + t;
    } else {
      var j := Join(ts[1..], '/');
      Regroup(t, j);
    }
  }

  lemma Regroup(t: string, j: string)
    ensures "/" + t + ("/" + j) == "/" + (t + ['/'] + j)
  {
  }

  lemma {:induction false} SegsOfParts(parts: seq<string>, w: nat, g: nat)
    requires CleanParts(parts)
    ensures SegsOk(PartSegs(parts, w, g))
    ensures parts != [] ==> PatternText(PartSegs(parts, w, g)) == "/" + Join(PartTexts(parts, w, g), '/')
  {
    if parts != [] {
      OneSeg(parts, w, g);
      var w', g' := NextW(parts, w), NextG(parts, g);
      SegsOfParts(parts[1..], w', g');
      var gs := PartSegs(parts, w, g);
      assert gs[1..] == PartSegs(parts[1..], w', g');
      var ts := PartTexts(parts, w, g);
      assert ts[1..] == PartTexts(parts[1..], w', g');
      Slashed(gs, ts);
    }
  }

  /** A pattern given by its parts: "/" in front of each. */
  function Pattern(parts: seq<string>): string
    requires parts != []
  {
    "/" + Join(parts, '/')
  }

  lemma ConvertedText(parts: seq<string>)
    requires parts != [] && CleanParts(parts)
    ensures Converted(Pattern(parts)) == PatternText(PartSegs(parts, 0, 0))
  {
    var all := [""] + parts;
    assert Join(all, '/') == "" + ['/'] + Join(all[1..], '/') && all[1..] == parts;
    assert Pattern(parts) == Join(all, '/');
    SplitJoin(all, '/');
    var ts := PartTexts(all, 0, 0);
    assert PartText(all, 0, 0) == "" by {
      assert !HasWildcard("");
    }
    assert ts[0] == "" && ts[1..] == PartTexts(parts, 0, 0);
    SegsOfParts(parts, 0, 0);
  }

  /** Reading the translated pattern back: it parses, and gives one token group and one name for each
      part, in order, with each glob's own anchored expression. */
  lemma ConvertedReads(parts: seq<string>)
    requires parts != [] && CleanParts(parts)
    ensures var c := Converted(Pattern(parts));
      && Parses(c) && Proper(Toks(c))
      && Toks(c) == SegToks(PartSegs(parts, 0, 0)) && Keys(c) == SegKeys(PartSegs(parts, 0, 0))
  {
    ConvertedText(parts);
    SegsOfParts(parts, 0, 0);
    TextReads(PartSegs(parts, 0, 0));
    SegProper(PartSegs(parts, 0, 0));
  }

  // ----- globs with braces of their own

  lemma OnePartText(part: string)
    requires '/' !in part && GlobPart(part)
    ensures Converted(Pattern([part])) == "/" + ("{" + (GlobName(0) + ":" + ("^" + GlobRegex(part) + "$")) + "}")
  {
    var all := ["", part];
    assert all[1..] == [part] && Join([part], '/') == part;
    assert Join(all, '/') == "" + ['/'] + part == Pattern([part]);
    SplitJoin(all, '/');
    assert PartText(all, 0, 0) == "" by {
      assert !HasWildcard("");
    }
    var x := PartText([part], 0, 0);
    var ts := PartTexts(all, 0, 0);
    assert PartTexts([part][1..], 0, 1) == [] && PartTexts([part], 0, 0) == [x];
    assert ts[0] == "" && ts[1..] == [x] && Join([x], '/') == x;
    assert Join(ts, '/') == "" + ['/'] + x;
    GlobText(GlobName(0), GlobRegex(part));
    OneBrace(GlobName(0), "^" + GlobRegex(part) + "$");
  }

  lemma OneBrace(name: string, re: string)
    ensures "{" + name + ":" + re + "}" == "{" + (name + ":" + re) + "}"
  {
  }

  lemma BalancedInside(inner: string)
    requires Close("{" + inner + "}") == Some(|inner| + 1)
    ensures Balanced(inner)
  {
    var s, t := "{" + inner + "}", inner + "}";
    assert s == "{" + t && Depth("{", 1) == 1;
    CloseExactlyWhen(s, |inner| + 1);
    forall n | 0 <= n <= |inner|
      ensures Depth(inner, n) == Depth(s, n + 1) - 1
    {
      DepthBehind("{", t, n + 1);
      DepthBehind(inner, "}", n);
    }
    var n := |inner|;
    assert s[n + 1] == '}' && Depth(s, n + 2) == 0;
    assert Depth(s, n + 2) == Depth(s, n + 1) - 1;
    assert Depth(inner, n) == Depth(s, n + 1) - 1;
    forall x | 0 <= x <= n
      ensures Depth(inner, x) >= 0
    {
      var y := x + 1;
      assert 0 < y <= n + 1 && Depth(s, y) > 0;
      assert Depth(inner, x) == Depth(s, y) - 1;
    }
  }

  lemma BalancedRest(front: string, re: string)
    requires '{' !in front && '}' !in front && Balanced(front + re)
    ensures Balanced(re)
  {
    NoBraces(front, |front|);
    forall n | 0 <= n <= |re|
      ensures Depth(re, n) == Depth(front + re, |front| + n)
    {
      DepthBehind(front, re, |front| + n);
    }
  }

  lemma BalancedReads(part: string)
    requires '/' !in part && GlobPart(part) && Balanced(part)
    ensures var c := Converted(Pattern([part]));
      Parses(c) && Toks(c) == [Lit('/'), Rex("^" + GlobRegex(part) + "$", '/')]
  {
    var re := "^" + GlobRegex(part) + "$";
    var gs := [Regexp(GlobName(0), re)];
    ConvertedReads([part]);
    assert PartSegs([part], 0, 0) == gs && Anchored(re) == re;
    assert gs[1..] == [] && SegToks([]) == [];
    assert SegToks(gs) == [Lit('/')] + [Rex(re, '/')] + [];
  }

  /** A text in braces that is read as one token is closed by its last brace. */
  lemma OneToken(inner: string)
    requires var t := "{" + inner + "}"; Parses("/" + t) && |Toks("/" + t)| == 2
    ensures Close("{" + inner + "}") == Some(|inner| + 1)
  {
    var t := "{" + inner + "}";
    assert ("/" + t)[1..] == t;
    assert Toks("/" + t) == [Lit('/')] + Toks(t) && Toks(t) == [HeadTok(t)] + Toks(t[HeadLen(t)..]);
    assert Toks(t[HeadLen(t)..]) == [];
  }

  lemma ReadsBalanced(part: string, front: string)
    requires front == GlobName(0) + ":"
    requires var t := "{" + (front + ("^" + GlobRegex(part) + "$")) + "}"; Parses("/" + t) && |Toks("/" + t)| == 2
    ensures Balanced(part)
  {
    var re := "^" + GlobRegex(part) + "$";
    OneToken(front + re);
    BalancedInside(front + re);
    NamesClean(0);
    NameClean(GlobName(0));
    BalancedRest(front, re);
    RegexBalanced(part);
  }

  /** A single glob with braces of its own is read back as that glob exactly when its braces are balanced:
      the translation escapes them for the regular expression, and the parser counts them all the same. */
  lemma GlobReadsExactlyWhen(part: string)
    requires '/' !in part && GlobPart(part)
    ensures var c := Converted(Pattern([part]));
      Parses(c) && Toks(c) == [Lit('/'), Rex("^" + GlobRegex(part) + "$", '/')] <==> Balanced(part)
  {
    var c := Converted(Pattern([part]));
    var re := "^" + GlobRegex(part) + "$";
    if Balanced(part) {
      BalancedReads(part);
    }
    OnePartText(part);
    if Parses(c) && |Toks(c)| == 2 {
      ReadsBalanced(part, GlobName(0) + ":");
    }
  }

  // ----- meaning

  /** What a glob pattern is meant to match: part by part, a middle '*' any one component, a final '*'
      whatever is left. */
  predicate PartsMatch(parts: seq<string>, cs: seq<string>) {
    if parts == [] then cs == []
    else if parts == ["*"] then cs != []
    else cs != [] && (parts[0] == "*" || Braced(parts[0]) || GlobMatch(parts[0], cs[0])) && PartsMatch(parts[1..], cs[1..])
  }

  /** Where a glob or a middle '*' meets a component, both are ASCII, and the component is one line. */
  predicate Readable(parts: seq<string>, cs: seq<string>) {
    parts == [] || cs == [] || parts == ["*"] ||
    ((parts[0] == "*" || GlobPart(parts[0]) ==> ReadablePart(parts[0], cs[0])) && Readable(parts[1..], cs[1..]))
  }

  predicate ReadablePart(part: string, c: string) {
    Ascii(part) && Ascii(c) && OneLine(c)
  }

  lemma OneMeaning(m: Engine, parts: seq<string>, w: nat, g: nat, c: string)
    requires Faithful(m) && parts != [] && parts != ["*"] && CleanPart(parts[0])
    requires parts[0] == "*" || GlobPart(parts[0]) ==> ReadablePart(parts[0], c)
    ensures SegMatch(m, PartSeg(parts, w, g), c) <==> parts[0] == "*" || Braced(parts[0]) || GlobMatch(parts[0], c)
  {
    var part := parts[0];
    if part == "*" {
      assert GlobRegex("*") == ".*" by {
        assert "*"[1..] == "";
      }
      assert Anchored(".*") == "^" + GlobRegex("*") + "$";
      FaithfulGlob(m, "*", c);
      StarMatchesAll(c);
    } else if !Braced(part) {
      if HasWildcard(part) {
        FaithfulGlob(m, part, c);
        var re := "^" + GlobRegex(part) + "$";
        assert Anchored(re) == re;
      } else {
        PlainGlob(part, c);
      }
    }
  }

  lemma {:induction false} StarMatchesAll(s: string)
    ensures GlobMatch("*", s)
  {
    if s == "" {
      assert "*"[1..] == "";
    } else {
      StarMatchesAll(s[1..]);
    }
  }

  lemma {:induction false} SegsMeaning(m: Engine, parts: seq<string>, w: nat, g: nat, cs: seq<string>)
    requires Faithful(m) && CleanParts(parts) && Readable(parts, cs)
    ensures SegsMatch(m, PartSegs(parts, w, g), cs) <==> PartsMatch(parts, cs)
  {
    if parts != [] && parts != ["*"] && cs != [] {
      OneSeg(parts, w, g);
      OneMeaning(m, parts, w, g, cs[0]);
      SegsMeaning(m, parts[1..], NextW(parts, w), NextG(parts, g), cs[1..]);
      assert PartSegs(parts, w, g)[1..] == PartSegs(parts[1..], NextW(parts, w), NextG(parts, g));
      assert |parts| == 1 && parts[0] == "*" ==> parts == ["*"];
    }
  }

  /** Translation preserves meaning: the router pattern matches a path of non-empty components exactly
      when the parts of the glob pattern match the components. */
  lemma GlobMeaningKept(m: Engine, parts: seq<string>, cs: seq<string>)
    requires Faithful(m) && parts != [] && CleanParts(parts)
    requires CompsOk(cs) && Readable(parts, cs)
    ensures var c := Converted(Pattern(parts));
      Parses(c) && (Matches(m, false, Toks(c), PathText(cs)) <==> PartsMatch(parts, cs))
  {
    ConvertedReads(parts);
    SegsOfParts(parts, 0, 0);
    MatchSegments(m, false, PartSegs(parts, 0, 0), cs);
    SegsMeaning(m, parts, 0, 0, cs);
  }

  // ----- parameter names

  /** The names that the pattern itself gives to its parameters. */
  function UserKeys(parts: seq<string>): seq<string> {
    if parts == [] then []
    else if parts == ["*"] then ["*"]
    else OwnKey(parts[0]) + UserKeys(parts[1..])
  }

  function OwnKey(part: string): seq<string> {
    if part != "*" && Braced(part) && |part| >= 2 then [part[1..|part| - 1]] else []
  }

  predicate Generated(n: string) {
    "_wildcard" <= n || "_glob" <= n
  }

  /** Generated names are numbered upwards. */
  ghost predicate NumberedFrom(key: string, w: nat, g: nat) {
    (exists i: nat :: i >= w && key == WildcardName(i)) || (exists i: nat :: i >= g && key == GlobName(i))
  }

  lemma NumberedGenerated(key: string, w: nat, g: nat)
    requires NumberedFrom(key, w, g)
    ensures Generated(key)
  {
  }

  lemma NotBefore(w: nat, g: nat)
    ensures !NumberedFrom(WildcardName(w), w + 1, g) && !NumberedFrom(GlobName(g), w, g + 1)
  {
    forall i: nat
      ensures WildcardName(w) != GlobName(i) && GlobName(g) != WildcardName(i)
      ensures WildcardName(w) == WildcardName(i) ==> w == i
      ensures GlobName(g) == GlobName(i) ==> g == i
    {
      assert WildcardName(w)[1] == 'w' && GlobName(i)[1] == 'g' && GlobName(g)[1] == 'g' && WildcardName(i)[1] == 'w';
      assert WildcardName(w)[9..] == Decimal(w) && WildcardName(i)[9..] == Decimal(i);
      assert GlobName(g)[5..] == Decimal(g) && GlobName(i)[5..] == Decimal(i);
      if Decimal(w) == Decimal(i) {
        DecimalInjective(w, i);
      }
      if Decimal(g) == Decimal(i) {
        DecimalInjective(g, i);
      }
    }
  }

  lemma MoreNumbered(key: string, w: nat, g: nat, w': nat, g': nat)
    requires NumberedFrom(key, w', g') && w <= w' && g <= g'
    ensures NumberedFrom(key, w, g)
  {
  }

  lemma {:induction false} KeysOrigin(parts: seq<string>, w: nat, g: nat)
    ensures forall key :: key in SegKeys(PartSegs(parts, w, g)) ==> key in UserKeys(parts) || NumberedFrom(key, w, g)
  {
    if parts != [] {
      var w', g' := NextW(parts, w), NextG(parts, g);
      KeysOrigin(parts[1..], w', g');
      var gs := PartSegs(parts, w, g);
      assert gs[1..] == PartSegs(parts[1..], w', g');
      forall key | key in SegKeys(gs)
        ensures key in UserKeys(parts) || NumberedFrom(key, w, g)
      {
        if key in SegKeys(gs[1..]) {
          if NumberedFrom(key, w', g') {
            MoreNumbered(key, w, g, w', g');
          } else {
            assert parts != ["*"];
          }
        } else {
          assert key in SegKey(gs[0]);
          assert parts[0] == "*" && |parts| == 1 ==> parts == ["*"];
        }
      }
    }
  }

  lemma {:induction false} KeysDistinct(parts: seq<string>, w: nat, g: nat)
    requires Distinct(UserKeys(parts)) && forall n :: n in UserKeys(parts) ==> !Generated(n)
    ensures Distinct(SegKeys(PartSegs(parts, w, g)))
  {
    if parts != [] {
      var w', g' := NextW(parts, w), NextG(parts, g);
      var gs := PartSegs(parts, w, g);
      assert gs[1..] == PartSegs(parts[1..], w', g');
      if parts == ["*"] {
        assert gs[1..] == [];
      } else {
        var own := UserKeys(parts)[..|UserKeys(parts)| - |UserKeys(parts[1..])|];
        assert UserKeys(parts) == own + UserKeys(parts[1..]);
        assert forall i :: 0 <= i < |UserKeys(parts[1..])| ==> UserKeys(parts[1..])[i] == UserKeys(parts)[i + |own|];
        KeysDistinct(parts[1..], w', g');
        KeysOrigin(parts[1..], w', g');
        HeadKeyNew(parts, w, g);
        var a, b := SegKey(gs[0]), SegKeys(gs[1..]);
        forall i, j | 0 <= i < j < |a + b|
          ensures (a + b)[i] != (a + b)[j]
        {
          if i < |a| {
            assert a[i] in a && b[j - |a|] in b;
          }
        }
      }
    }
  }

  /** The name of the first part, when it is not a final '*'. */
  lemma HeadKeyIs(parts: seq<string>, w: nat, g: nat)
    requires parts != [] && parts != ["*"]
    ensures SegKey(PartSeg(parts, w, g)) ==
      if MiddleStar(parts) then [WildcardName(w)] else if GlobPart(parts[0]) then [GlobName(g)] else OwnKey(parts[0])
    ensures UserKeys(parts) == OwnKey(parts[0]) + UserKeys(parts[1..])
    ensures MiddleStar(parts) || GlobPart(parts[0]) ==> OwnKey(parts[0]) == []
  {
    assert |parts| == 1 && parts[0] == "*" ==> parts == ["*"];
  }

  lemma NumberedNew(parts: seq<string>, w: nat, g: nat)
    requires forall n :: n in UserKeys(parts) ==> !Generated(n)
    ensures WildcardName(w) !in SegKeys(PartSegs(parts, w + 1, g)) && GlobName(g) !in SegKeys(PartSegs(parts, w, g + 1))
  {
    KeysOrigin(parts, w + 1, g);
    KeysOrigin(parts, w, g + 1);
    NotBefore(w, g);
    assert Generated(WildcardName(w)) && Generated(GlobName(g));
  }

  lemma OwnNew(parts: seq<string>, w: nat, g: nat, key: string)
    requires key !in UserKeys(parts) && !Generated(key)
    ensures key !in SegKeys(PartSegs(parts, w, g))
  {
    KeysOrigin(parts, w, g);
    if NumberedFrom(key, w, g) {
      NumberedGenerated(key, w, g);
    }
  }

  lemma FirstIsNew(own: seq<string>, us: seq<string>)
    requires Distinct(own + us) && own != []
    ensures own[0] !in us
  {
    var all := own + us;
    forall i | 0 <= i < |us|
      ensures us[i] != own[0]
    {
      assert all[|own| + i] == us[i] && all[0] == own[0];
    }
  }

  lemma HeadKeyNew(parts: seq<string>, w: nat, g: nat)
    requires parts != [] && parts != ["*"]
    requires Distinct(UserKeys(parts)) && forall n :: n in UserKeys(parts) ==> !Generated(n)
    ensures forall key :: key in SegKey(PartSeg(parts, w, g)) ==> key !in SegKeys(PartSegs(parts[1..], NextW(parts, w), NextG(parts, g)))
    ensures |SegKey(PartSeg(parts, w, g))| <= 1
  {
    HeadKeyIs(parts, w, g);
    var own, us := OwnKey(parts[0]), UserKeys(parts[1..]);
    assert forall n :: n in us ==> n in UserKeys(parts);
    if MiddleStar(parts) || GlobPart(parts[0]) {
      NumberedNew(parts[1..], w, g);
    } else if own != [] {
      FirstIsNew(own, us);
      assert own[0] in own + us;
      OwnNew(parts[1..], w, g, own[0]);
    }
  }

  /** A glob pattern whose own names are distinct, and not like generated ones, is translated to a
      pattern the router accepts: the parser never panics on it. */
  lemma ConvertedIsValid(parts: seq<string>)
    requires parts != [] && CleanParts(parts)
    requires Distinct(UserKeys(parts)) && forall n :: n in UserKeys(parts) ==> !Generated(n)
    ensures Valid(Converted(Pattern(parts)))
  {
    ConvertedReads(parts);
    ConvertedText(parts);
    KeysDistinct(parts, 0, 0);
  }

  /** The parameter names of a translated pattern: its own, and one number for each middle '*' and
      each glob, counted from 0. */
  lemma {:induction false} KeyNumbers(parts: seq<string>, w: nat, g: nat, key: string)
    requires key in SegKeys(PartSegs(parts, w, g))
    ensures || key in UserKeys(parts)
            || (exists i: nat :: w <= i < w + |parts| && key == WildcardName(i))
            || (exists i: nat :: g <= i < g + |parts| && key == GlobName(i))
  {
    if parts != [] {
      var w', g' := NextW(parts, w), NextG(parts, g);
      var gs := PartSegs(parts, w, g);
      assert gs[1..] == PartSegs(parts[1..], w', g');
      assert |parts| == 1 && parts[0] == "*" ==> parts == ["*"];
      if key in SegKeys(gs[1..]) {
        KeyNumbers(parts[1..], w', g', key);
        if key in UserKeys(parts[1..]) {
          assert parts != ["*"];
        }
      }
    }
  }
}
