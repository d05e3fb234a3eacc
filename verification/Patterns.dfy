/** Routing patterns as text: literal bytes, `{name}`, `{name:regexp}` and a final star.
    The parser `PatNextSegment` of the radix tree is proved against a recursive reading of the text. */
module Patterns {
  import opened Wrappers
  import opened Text
  import opened Tokens

  /** The kinds of tree node, in the order in which the search visits them. */
  type NodeTyp = t: nat | t < 5
  const NT_STATIC: NodeTyp := 0
  const NT_REGEXP: NodeTyp := 1
  const NT_PARAM: NodeTyp := 2
  const NT_GLOB: NodeTyp := 3
  const NT_CATCH_ALL: NodeTyp := 4

  predicate Wild(c: char) {
    c == '{' || c == '*'
  }

  predicate Plain(s: string) {
    forall i :: 0 <= i < |s| ==> !Wild(s[i])
  }

  // ----- the meaning of a pattern

  /** The '}' that closes the brace opened before `i`, where `depth` braces are open. */
  function CloseFrom(s: string, i: nat, depth: nat): (r: Option<nat>)
    requires i <= |s|
    ensures r.Some? ==> i <= r.value < |s|
    decreases |s| - i
  {
    if i == |s| then None
    else if s[i] == '{' then CloseFrom(s, i + 1, depth + 1)
    else if s[i] == '}' then if depth <= 1 then Some(i) else CloseFrom(s, i + 1, depth - 1)
    else CloseFrom(s, i + 1, depth)
  }

  /** The '}' that closes the '{' a text begins with. */
  function Close(s: string): (r: Option<nat>)
    requires s != ""
    ensures r.Some? ==> 1 <= r.value < |s|
  {
    CloseFrom(s, 1, 1)
  }

  /** How many more braces are opened than closed in the first `n` bytes. */
  function Depth(s: string, n: nat): int
    requires n <= |s|
  {
    if n == 0 then 0
    else Depth(s, n - 1) + if s[n - 1] == '{' then 1 else if s[n - 1] == '}' then -1 else 0
  }

  /** From `i` on the depth stays positive up to, and not including, the first `n` bytes. */
  predicate Open(s: string, i: nat, n: nat)
    requires n <= |s| + 1
  {
    forall x :: i < x < n ==> Depth(s, x) > 0
  }

  lemma {:induction false} CloseFromIs(s: string, i: nat, depth: nat)
    requires i <= |s| && depth == Depth(s, i) && depth > 0
    ensures match CloseFrom(s, i, depth)
      case Some(e) => Depth(s, e + 1) == 0 && Open(s, i, e + 1)
      case None => Open(s, i, |s| + 1)
    decreases |s| - i
  {
    if i < |s| && !(s[i] == '}' && depth <= 1) {
      CloseFromIs(s, i + 1, Depth(s, i + 1));
    }
  }

  /** The brace that closes a text's first one is where the depth comes back to 0 for the first time; there
      is none exactly when it never does. */
  lemma CloseExactlyWhen(s: string, e: nat)
    requires s != "" && s[0] == '{'
    ensures Close(s) == Some(e) <==> e < |s| && Depth(s, e + 1) == 0 && forall n :: 0 < n <= e ==> Depth(s, n) > 0
    ensures Close(s) == None <==> forall n :: 0 < n <= |s| ==> Depth(s, n) != 0
  {
    assert Depth(s, 1) == 1;
    CloseFromIs(s, 1, 1);
    if Close(s).Some? {
      var c := Close(s).value;
      assert e < |s| && e < c ==> Depth(s, e + 1) > 0;
      assert Depth(s, c + 1) == 0;
    }
  }

  lemma ClosedAt(s: string)
    requires s != "" && s[0] == '{'
    ensures match Close(s)
      case Some(e) => Depth(s, e + 1) == 0 && forall n :: 0 < n <= e ==> Depth(s, n) > 0
      case None => forall n :: 0 < n <= |s| ==> Depth(s, n) != 0
  {
    CloseExactlyWhen(s, if Close(s).Some? then Close(s).value else 0);
  }

  /** Braces that are closed in the order in which they are opened. */
  predicate Balanced(s: string) {
    Depth(s, |s|) == 0 && forall n :: 0 <= n <= |s| ==> Depth(s, n) >= 0
  }

  lemma {:induction false} DepthBehind(a: string, b: string, n: nat)
    requires n <= |a| + |b|
    ensures Depth(a + b, n) == if n <= |a| then Depth(a, n) else Depth(a, |a|) + Depth(b, n - |a|)
  {
    if n > 0 {
      DepthBehind(a, b, n - 1);
    }
  }

  lemma {:induction false} NoBraces(s: string, n: nat)
    requires n <= |s| && '{' !in s && '}' !in s
    ensures Depth(s, n) == 0
  {
    if n > 0 {
      NoBraces(s, n - 1);
      assert s[n - 1] in s;
    }
  }

  lemma Unbraced(s: string)
    requires '{' !in s && '}' !in s
    ensures Balanced(s)
  {
    forall n | 0 <= n <= |s|
      ensures Depth(s, n) == 0
    {
      NoBraces(s, n);
    }
  }

  /** Reading from the left with `d` braces open. */
  predicate Closes(s: string, d: nat) {
    if s == "" then d == 0
    else if s[0] == '{' then Closes(s[1..], d + 1)
    else if s[0] == '}' then d > 0 && Closes(s[1..], d - 1)
    else Closes(s[1..], d)
  }

  predicate ClosesBy(s: string, d: nat) {
    d + Depth(s, |s|) == 0 && forall n :: 0 <= n <= |s| ==> d + Depth(s, n) >= 0
  }

  lemma {:induction false} ClosesExactlyWhen(s: string, d: nat)
    ensures Closes(s, d) <==> ClosesBy(s, d)
  {
    if s != "" {
      var d1 := d + Depth(s, 1);
      var t := s[1..];
      assert Depth(s, 0) == 0 && Depth(s, 1) == if s[0] == '{' then 1 else if s[0] == '}' then -1 else 0;
      forall n | 0 <= n <= |t|
        ensures d + Depth(s, n + 1) == d1 + Depth(t, n)
      {
        assert s == s[..1] + t && Depth(s[..1], 1) == Depth(s, 1);
        DepthBehind(s[..1], t, n + 1);
      }
      if d1 >= 0 {
        ClosesExactlyWhen(t, d1);
        Shifted(s, t, d, d1);
      } else {
        assert !ClosesBy(s, d) by {
          var n := 1;
          assert 0 <= n <= |s| && d + Depth(s, n) < 0;
        }
      }
    }
  }

  lemma Shifted(s: string, t: string, d: nat, d1: nat)
    requires s != "" && |t| == |s| - 1 && forall n :: 0 <= n <= |t| ==> d + Depth(s, n + 1) == d1 + Depth(t, n)
    ensures ClosesBy(s, d) <==> ClosesBy(t, d1)
  {
    if ClosesBy(t, d1) {
      forall n | 0 <= n <= |s|
        ensures d + Depth(s, n) >= 0
      {
        if n > 0 {
          assert d + Depth(s, (n - 1) + 1) == d1 + Depth(t, n - 1);
        }
      }
    }
  }

  /** A non-empty regular expression is anchored at both ends. */
  function Anchored(re: string): string {
    if re == "" then re
    else
      var re := if re[0] != '^' then "^" + re else re;
      if re[|re| - 1] != '$' then re + "$" else re
  }

  /** A text that begins with a well-formed '{...}' or is a final '*'. */
  predicate WildHead(s: string) {
    && s != ""
    && (s[0] == '*' ==> |s| == 1)
    && (s[0] == '{' ==> Close(s).Some?)
    && Wild(s[0])
  }

  /** The length of that head, */
  function HeadLen(s: string): (n: nat)
    requires WildHead(s)
    ensures 1 <= n <= |s|
  {
    if s[0] == '*' then 1 else Close(s).value + 1
  }

  function TailOf(s: string): char
    requires WildHead(s) && s[0] == '{'
  {
    if HeadLen(s) < |s| then s[HeadLen(s)] else '/'
  }

  /** the text between its braces, */
  function Inner(s: string): string
    requires WildHead(s) && s[0] == '{'
  {
    s[1..Close(s).value]
  }

  /** the token it stands for, */
  function HeadTok(s: string): (t: Tok)
    requires WildHead(s)
    ensures !t.Lit?
  {
    if s[0] == '*' then Rest
    else
      var c := IndexOf(Inner(s), ':');
      if c < 0 then Par(TailOf(s)) else Rex(Anchored(Inner(s)[c + 1..]), TailOf(s))
  }

  /** and its parameter name. */
  function HeadKey(s: string): string
    requires WildHead(s)
  {
    if s[0] == '*' then "*"
    else
      var c := IndexOf(Inner(s), ':');
      if c < 0 then Inner(s) else Inner(s)[..c]
  }

  /** A pattern the parser accepts: braces are closed and '*' comes last. */
  predicate Parses(s: string) {
    s == "" || if Wild(s[0]) then WildHead(s) && Parses(s[HeadLen(s)..]) else Parses(s[1..])
  }

  function Toks(s: string): seq<Tok>
    requires Parses(s)
  {
    if s == "" then []
    else if Wild(s[0]) then [HeadTok(s)] + Toks(s[HeadLen(s)..])
    else [Lit(s[0])] + Toks(s[1..])
  }

  function Keys(s: string): seq<string>
    requires Parses(s)
  {
    if s == "" then []
    else if Wild(s[0]) then [HeadKey(s)] + Keys(s[HeadLen(s)..])
    else Keys(s[1..])
  }

  predicate Distinct(keys: seq<string>) {
    forall i, j :: 0 <= i < j < |keys| ==> keys[i] != keys[j]
  }

  /** Token sequences in which a parameter is followed by its own delimiter, and so never directly by
      another parameter or '*'; a parameter that ends the pattern is delimited by '/'. */
  predicate Proper(k: seq<Tok>) {
    k == [] ||
    (match k[0]
     case Lit(c) => !Wild(c) && Proper(k[1..])
     case Rest => |k| == 1
     case Par(tail) => (if |k| == 1 then tail == '/' else k[1] == Lit(tail)) && Proper(k[1..])
     case Rex(_, tail) => (if |k| == 1 then tail == '/' else k[1] == Lit(tail)) && Proper(k[1..]))
  }

  lemma {:induction false} ProperSuffix(a: seq<Tok>, b: seq<Tok>)
    requires Proper(a + b)
    ensures Proper(b)
  {
    if a == [] {
      assert a + b == b;
    } else {
      assert (a + b)[1..] == a[1..] + b;
      if a[0].Rest? {
        assert b == [];
      } else {
        ProperSuffix(a[1..], b);
      }
    }
  }

  /** What the router demands of a pattern: it begins with '/', the parser accepts it, no parameter
      name occurs twice, and no parameter is directly followed by another parameter or by '*'. */
  predicate Valid(pattern: string) {
    && pattern != "" && pattern[0] == '/'
    && Parses(pattern)
    && Distinct(Keys(pattern))
    && Proper(Toks(pattern))
  }

  /** One parameter name for each token that captures. */
  lemma {:induction false} KeyCount(s: string)
    requires Parses(s)
    ensures |Keys(s)| == Wilds(Toks(s))
  {
    if s == "" {
    } else if Wild(s[0]) {
      KeyCount(s[HeadLen(s)..]);
      assert Toks(s)[1..] == Toks(s[HeadLen(s)..]);
    } else {
      KeyCount(s[1..]);
      assert Toks(s)[1..] == Toks(s[1..]);
    }
  }

  lemma OneLiteral(c: char, rest: string)
    requires !Wild(c)
    ensures Parses([c] + rest) <==> Parses(rest)
    ensures Parses(rest) ==> Toks([c] + rest) == [Lit(c)] + Toks(rest) && Keys([c] + rest) == Keys(rest)
  {
    assert ([c] + rest)[1..] == rest;
  }

  /** Literal text in front adds its tokens. */
  lemma {:induction false} TextInFront(t: string, rest: string)
    requires Plain(t)
    ensures Parses(t + rest) <==> Parses(rest)
    ensures Parses(rest) ==> Toks(t + rest) == Lits(t) + Toks(rest) && Keys(t + rest) == Keys(rest)
  {
    if t == "" {
      assert t + rest == rest;
      assert Parses(rest) ==> Lits(t) + Toks(rest) == Toks(rest);
    } else {
      TextInFront(t[1..], rest);
      OneLiteral(t[0], t[1..] + rest);
      assert t + rest == [t[0]] + (t[1..] + rest);
      LitsInFront(t, if Parses(rest) then Toks(rest) else []);
    }
  }

  lemma LitsInFront(t: string, k: seq<Tok>)
    requires t != ""
    ensures Lits(t) + k == [Lit(t[0])] + (Lits(t[1..]) + k)
  {
  }

  /** Literal text can be split off the front. */
  lemma SplitPlain(s: string, n: nat)
    requires n <= |s| && Plain(s[..n])
    ensures Parses(s) <==> Parses(s[n..])
    ensures Parses(s) ==> Toks(s) == Lits(s[..n]) + Toks(s[n..]) && Keys(s) == Keys(s[n..])
  {
    assert s[..n] + s[n..] == s;
    TextInFront(s[..n], s[n..]);
  }

  /** Without a '{' or '*' a text is all literal. */
  lemma PlainToks(s: string)
    requires Plain(s)
    ensures Parses(s) && Toks(s) == Lits(s) && Keys(s) == []
  {
    SplitPlain(s, |s|);
    assert s[..|s|] == s;
    assert Toks(s[|s|..]) == [];
    assert Lits(s) + [] == Lits(s);
  }

  lemma {:induction false} ProperPlain(s: string)
    requires Plain(s)
    ensures Proper(Lits(s))
  {
    if s != "" {
      ProperPlain(s[1..]);
      assert Lits(s)[1..] == Lits(s[1..]);
    }
  }

  /** The position of the first '{' or '*'. */
  function FirstWild(s: string): (n: nat)
    ensures n <= |s| && Plain(s[..n])
    ensures n < |s| ==> Wild(s[n])
  {
    if s == "" || Wild(s[0]) then 0
    else
      var r := FirstWild(s[1..]);
      assert s[..r + 1] == [s[0]] + s[1..][..r];
      r + 1
  }

  lemma FirstWildIs(s: string, n: nat)
    requires n < |s| && Wild(s[n]) && Plain(s[..n])
    ensures FirstWild(s) == n
  {
    var w := FirstWild(s);
    assert forall x :: 0 <= x < n ==> s[x] == s[..n][x];
    assert forall x :: 0 <= x < w ==> s[x] == s[..w][x];
  }

  // ----- the parser

  /** What the parser reports about the next segment. */
  datatype Segment = Segment(typ: NodeTyp, key: string, re: string, tail: char, start: nat, end: nat)

  /** The segment the parser must report: the first '{' or '*' of the pattern decides. `None` stands
      for the parser's panics: a '*' that is not last, or a brace that is never closed. */
  function NextSegment(s: string): (r: Option<Segment>)
    ensures r.Some? ==> r.value.end <= |s| && (r.value.typ != NT_STATIC ==> r.value.start < r.value.end)
  {
    var w := FirstWild(s);
    if w == |s| then Some(Segment(NT_STATIC, "", "", '\0', 0, |s|))
    else if !WildHead(s[w..]) then None
    else
      match HeadTok(s[w..])
      case Rest => Some(Segment(NT_CATCH_ALL, "*", "", '\0', w, |s|))
      case Par(tail) => Some(Segment(NT_PARAM, HeadKey(s[w..]), "", tail, w, w + HeadLen(s[w..])))
      case Rex(re, tail) => Some(Segment(NT_REGEXP, HeadKey(s[w..]), re, tail, w, w + HeadLen(s[w..])))
  }

  /** Scans from the '{' at `ps` to the '}' that closes it; `ps` itself when there is none. */
  method ScanBraces(pattern: string, ps: nat) returns (pe: nat)
    requires ps < |pattern| && pattern[ps] == '{'
    ensures var c := Close(pattern[ps..]);
            pe == if c.Some? then ps + c.value else ps
    ensures var s := pattern[ps..];
      if pe == ps then forall n :: 0 < n <= |s| ==> Depth(s, n) != 0
      else ps < pe < |pattern| && Depth(s, pe - ps + 1) == 0 && forall n :: 0 < n <= pe - ps ==> Depth(s, n) > 0
  {
    var s := pattern[ps..];
    ClosedAt(s);
    var cc := 0;
    pe := ps;
    var i := 0;
    while i < |s|
      invariant 0 <= i <= |s|
      invariant if i == 0 then cc == 0 else cc >= 1
      invariant i > 0 ==> CloseFrom(s, i, cc) == Close(s)
      invariant pe == ps
    {
      if s[i] == '{' {
        cc := cc + 1;
      } else if s[i] == '}' {
        cc := cc - 1;
        if cc == 0 {
          pe := ps + i;
          return;
        }
      }
      i := i + 1;
    }
  }

  /** Anchors a regular expression at the ends that are not anchored yet. */
  method Anchor(rexpat: string) returns (re: string)
    ensures re == Anchored(rexpat)
  {
    re := rexpat;
    if |re| > 0 {
      if re[0] != '^' {
        re := "^" + re;
      }
      if re[|re| - 1] != '$' {
        re := re + "$";
      }
    }
  }

  /** Name and regular expression, cut at the first ':'. */
  method CutKey(inner: string) returns (nt: NodeTyp, key: string, re: string)
    ensures var c := IndexOf(inner, ':');
      if c < 0 then nt == NT_PARAM && key == inner && re == ""
      else nt == NT_REGEXP && key == inner[..c] && re == Anchored(inner[c + 1..])
  {
    nt, key, re := NT_PARAM, inner, "";
    var colon := IndexOf(inner, ':');
    if colon >= 0 {
      nt, re, key := NT_REGEXP, inner[colon + 1..], inner[..colon];
    }
    re := Anchor(re);
  }

  /** The segment in braces that begins a text. */
  function BraceSegment(s: string, start: nat): Segment
    requires WildHead(s) && s[0] == '{'
  {
    match HeadTok(s)
    case Rex(re, tail) => Segment(NT_REGEXP, HeadKey(s), re, tail, start, start + HeadLen(s))
    case _ => Segment(NT_PARAM, HeadKey(s), "", TailOf(s), start, start + HeadLen(s))
  }

  method ReadBraces(pattern: string, ps: nat, pe: nat) returns (seg: Segment)
    requires ps < |pattern| && pattern[ps] == '{' && Close(pattern[ps..]) == Some(pe - ps)
    ensures seg == BraceSegment(pattern[ps..], ps)
  {
    ghost var s := pattern[ps..];
    var inner := pattern[ps + 1..pe];
    assert inner == Inner(s);
    var end := pe + 1;
    var tail := '/';
    if end < |pattern| {
      tail := pattern[end];
    }
    var nt, key, re := CutKey(inner);
    seg := Segment(nt, key, re, tail, ps, end);
  }

  method NextBraces(pattern: string, ps: nat) returns (r: Option<Segment>)
    requires ps < |pattern| && pattern[ps] == '{'
    ensures r == if Close(pattern[ps..]).None? then None else Some(BraceSegment(pattern[ps..], ps))
  {
    var pe := ScanBraces(pattern, ps);
    if pe == ps {
      return None;
    }
    var seg := ReadBraces(pattern, ps, pe);
    return Some(seg);
  }

  lemma BracesNext(s: string, ps: nat)
    requires ps < |s| && s[ps] == '{' && FirstWild(s) == ps
    ensures NextSegment(s) == if Close(s[ps..]).None? then None else Some(BraceSegment(s[ps..], ps))
  {
    var t := s[ps..];
    assert t[0] == '{' && (WildHead(t) <==> Close(t).Some?);
  }

  lemma StarNext(s: string, ws: nat)
    requires ws < |s| && s[ws] == '*' && FirstWild(s) == ws
    ensures NextSegment(s) == if ws < |s| - 1 then None else Some(Segment(NT_CATCH_ALL, "*", "", '\0', ws, |s|))
  {
    var t := s[ws..];
    assert t[0] == '*' && |t| == |s| - ws;
  }

  /** The parser of one segment. */
  method PatNextSegment(pattern: string) returns (r: Option<Segment>)
    ensures r == NextSegment(pattern)
  {
    var ps := IndexOf(pattern, '{');
    var ws := IndexOf(pattern, '*');
    if ps < 0 && ws < 0 {
      NoWild(pattern);
      return Some(Segment(NT_STATIC, "", "", '\0', 0, |pattern|));
    }
    FirstOf(pattern, ps, ws);
    if ps >= 0 && ws >= 0 && ws < ps {
      StarNext(pattern, ws);
      return None;
    }
    if ps >= 0 {
      BracesNext(pattern, ps);
      r := NextBraces(pattern, ps);
      return;
    }
    StarNext(pattern, ws);
    if ws < |pattern| - 1 {
      return None;
    }
    return Some(Segment(NT_CATCH_ALL, "*", "", '\0', ws, |pattern|));
  }

  lemma NoWild(s: string)
    requires '{' !in s && '*' !in s
    ensures FirstWild(s) == |s|
  {
  }

  /** The first '{' or '*' is the smaller of the two positions found. */
  lemma FirstOf(s: string, ps: int, ws: int)
    requires ps == IndexOf(s, '{') && ws == IndexOf(s, '*')
    requires ps >= 0 || ws >= 0
    ensures FirstWild(s) == if ps < 0 || 0 <= ws < ps then ws else ps
  {
    var n := if ps < 0 || 0 <= ws < ps then ws else ps;
    forall i | 0 <= i < n
      ensures !Wild(s[..n][i])
    {
      assert s[i] in s;
      if ps >= 0 {
        assert s[i] == s[..ps][i];
      }
      if ws >= 0 {
        assert s[i] == s[..ws][i];
      }
    }
    FirstWildIs(s, n);
  }

  /** Reading segment by segment: what is left after one segment parses exactly when the whole
      does, and contributes the remaining names. */
  lemma AfterSegment(s: string)
    ensures NextSegment(s).None? ==> !Parses(s)
    ensures NextSegment(s).Some? && NextSegment(s).value.typ == NT_STATIC ==> Parses(s) && Keys(s) == []
    ensures NextSegment(s).Some? && NextSegment(s).value.typ != NT_STATIC ==>
              var g := NextSegment(s).value;
              && (Parses(s) <==> Parses(s[g.end..]))
              && (Parses(s) ==> Keys(s) == [g.key] + Keys(s[g.end..]))
  {
    var w := FirstWild(s);
    SplitPlain(s, w);
    if w == |s| {
      assert s[..w] == s;
      PlainToks(s);
    } else if WildHead(s[w..]) {
      assert s[w..][HeadLen(s[w..])..] == s[w + HeadLen(s[w..])..];
    }
  }

  /** The tokens of a pattern, segment by segment. */
  lemma SegmentToks(s: string)
    requires Parses(s)
    ensures NextSegment(s).Some?
    ensures var g := NextSegment(s).value;
            if g.typ == NT_STATIC then Plain(s) && Toks(s) == Lits(s)
            else
              && !Plain(s) && Plain(s[..g.start])
              && (g.start > 0 ==> Parses(s[g.start..]) && Toks(s) == Lits(s[..g.start]) + Toks(s[g.start..]) && s[g.start..] != "" && Wild(s[g.start]))
              && (g.start == 0 ==> Parses(s[g.end..]) && Toks(s) == [HeadTok(s)] + Toks(s[g.end..]) && Wild(s[0]))
  {
    var w := FirstWild(s);
    SplitPlain(s, w);
    if w == |s| {
      assert s[..w] == s;
      PlainToks(s);
    } else {
      assert Wild(s[w]);
      if w == 0 {
        assert s[0..] == s;
      }
    }
  }

  /** Has the name been used already? */
  method Occurs(paramKeys: seq<string>, key: string) returns (found: bool)
    ensures found <==> key in paramKeys
  {
    var i := 0;
    while i < |paramKeys|
      invariant 0 <= i <= |paramKeys| && key !in paramKeys[..i]
    {
      if paramKeys[i] == key {
        return true;
      }
      i := i + 1;
    }
    return false;
  }

  lemma RepeatedKey(keys: seq<string>, key: string, rest: seq<string>)
    ensures key in keys ==> !Distinct(keys + ([key] + rest))
    ensures Distinct(keys) && key !in keys ==> Distinct(keys + [key])
  {
    if key in keys {
      var i :| 0 <= i < |keys| && keys[i] == key;
      var all := keys + ([key] + rest);
      assert all[i] == key && all[|keys|] == key;
    }
  }

  /** The names of a pattern's parameters, in order; `None` stands for a panic. */
  method PatParamKeys(pattern: string) returns (r: Option<seq<string>>)
    ensures r == if Parses(pattern) && Distinct(Keys(pattern)) then Some(Keys(pattern)) else None
  {
    var pat := pattern;
    var paramKeys: seq<string> := [];
    while true
      invariant Parses(pattern) <==> Parses(pat)
      invariant Parses(pattern) ==> Keys(pattern) == paramKeys + Keys(pat)
      invariant Distinct(paramKeys)
      decreases |pat|
    {
      AfterSegment(pat);
      var g := PatNextSegment(pat);
      if g.None? {
        return None;
      }
      if g.value.typ == NT_STATIC {
        assert paramKeys + [] == paramKeys;
        return Some(paramKeys);
      }
      ghost var rest := if Parses(pat) then Keys(pat[g.value.end..]) else [];
      RepeatedKey(paramKeys, g.value.key, rest);
      var found := Occurs(paramKeys, g.value.key);
      if found {
        return None;
      }
      assert paramKeys + ([g.value.key] + rest) == (paramKeys + [g.value.key]) + rest;
      paramKeys := paramKeys + [g.value.key];
      pat := pat[g.value.end..];
    }
  }
}
