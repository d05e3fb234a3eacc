/** Glob patterns: their translation to regular expressions and to router patterns. */
module Globs {
  import opened Wrappers
  import opened Text
  import opened Tokens

  // ----- one glob component

  /** What a glob means: '*' stands for any text, '?' for any single character. Characters are bytes here,
      which is what they are in ASCII text. */
  predicate GlobMatch(p: string, s: string)
    decreases |p| + |s|
  {
    if p == "" then s == ""
    else if p[0] == '*' then GlobMatch(p[1..], s) || (s != "" && GlobMatch(p, s[1..]))
    else s != "" && (p[0] == '?' || p[0] == s[0]) && GlobMatch(p[1..], s[1..])
  }

  /** The text that one character of a glob stands for. */
  predicate Stands(c: char, piece: string) {
    c == '*' || (|piece| == 1 && (c == '?' || piece == [c]))
  }

  ghost predicate Reading(p: string, s: string, pieces: seq<string>) {
    |pieces| == |p| && Concat(pieces) == s && forall i :: 0 <= i < |p| ==> Stands(p[i], pieces[i])
  }

  /** A glob matches exactly the texts that can be cut into one piece for each of its characters. */
  lemma {:induction false} GlobMatchExactlyWhen(p: string, s: string)
    ensures GlobMatch(p, s) <==> exists pieces :: Reading(p, s, pieces)
    decreases |p| + |s|
  {
    if GlobMatch(p, s) {
      var pieces := ReadingOf(p, s);
    }
    if pieces :| Reading(p, s, pieces) {
      ReadingMatches(p, s, pieces);
    }
  }

  lemma {:induction false} ReadingOf(p: string, s: string) returns (pieces: seq<string>)
    requires GlobMatch(p, s)
    ensures Reading(p, s, pieces)
    decreases |p| + |s|
  {
    if p == "" {
      pieces := [];
    } else if p[0] == '*' && !GlobMatch(p[1..], s) {
      var rest := ReadingOf(p, s[1..]);
      var first := [s[0]] + rest[0];
      pieces := rest[0 := first];
      assert pieces[1..] == rest[1..] && s == [s[0]] + (rest[0] + Concat(rest[1..]));
      assert Concat(pieces) == first + Concat(rest[1..]);
    } else {
      var first := if p[0] == '*' then "" else s[..1];
      var rest := ReadingOf(p[1..], s[|first|..]);
      pieces := [first] + rest;
      assert pieces[1..] == rest && first + s[|first|..] == s;
    }
  }

  lemma {:induction false} ReadingMatches(p: string, s: string, pieces: seq<string>)
    requires Reading(p, s, pieces)
    ensures GlobMatch(p, s)
  {
    if p != "" {
      var rest := pieces[1..];
      assert forall i :: 0 <= i < |rest| ==> rest[i] == pieces[i + 1];
      ReadingMatches(p[1..], Concat(rest), rest);
      assert s == pieces[0] + Concat(rest);
      if p[0] == '*' {
        StarTakes(p, pieces[0], Concat(rest));
      } else {
        assert s[1..] == Concat(rest);
      }
    }
  }

  lemma {:induction false} StarTakes(p: string, piece: string, s: string)
    requires p != "" && p[0] == '*' && GlobMatch(p[1..], s)
    ensures GlobMatch(p, piece + s)
  {
    if piece == "" {
      assert piece + s == s;
    } else {
      StarTakes(p, piece[1..], s);
      assert (piece + s)[1..] == piece[1..] + s;
    }
  }

  /** The bytes that mean something to a regular expression. */
  predicate Special(c: char) {
    c in ".+^$()[]{}|\\"
  }

  predicate HasWildcard(s: string) {
    '*' in s || '?' in s
  }

  function GlobRegex(p: string): string {
    if p == "" then ""
    else if p[0] == '*' then ".*" + GlobRegex(p[1..])
    else if p[0] == '?' then "." + GlobRegex(p[1..])
    else if Special(p[0]) then ['\\', p[0]] + GlobRegex(p[1..])
    else [p[0]] + GlobRegex(p[1..])
  }

  /** The metacharacters of Go's regular expressions: unescaped, none of them stands for itself. */
  predicate Meta(c: char) {
    || c == '\\' || c == '.' || c == '+' || c == '*' || c == '?' || c == '(' || c == ')' || c == '|'
    || c == '[' || c == ']' || c == '{' || c == '}' || c == '^' || c == '$'
  }

  /** Regular expressions made of '.', '.*', escaped metacharacters and bytes that are no metacharacters. */
  predicate Fragment(re: string) {
    re == "" ||
    if re[0] == '\\' then |re| > 1 && Meta(re[1]) && Fragment(re[2..])
    else if re[0] == '.' then Fragment(if |re| > 1 && re[1] == '*' then re[2..] else re[1..])
    else !Meta(re[0]) && Fragment(re[1..])
  }

  /** What such an expression matches; a '.' does not match a line break. Like the globs they are read byte
      by byte; Go reads UTF-8, so the two readings agree on ASCII text. */
  predicate RegexMatch(re: string, s: string)
    decreases |re| + |s|
  {
    if re == "" then s == ""
    else if re[0] == '\\' then |re| > 1 && Meta(re[1]) && s != "" && s[0] == re[1] && RegexMatch(re[2..], s[1..])
    else if re[0] == '.' && |re| > 1 && re[1] == '*' then
      RegexMatch(re[2..], s) || (s != "" && s[0] != '\n' && RegexMatch(re, s[1..]))
    else if re[0] == '.' then s != "" && s[0] != '\n' && RegexMatch(re[1..], s[1..])
    else !Meta(re[0]) && s != "" && s[0] == re[0] && RegexMatch(re[1..], s[1..])
  }

  predicate OneLine(s: string) {
    '\n' !in s
  }

  lemma NoLeadingStar(p: string)
    ensures GlobRegex(p) != "" ==> GlobRegex(p)[0] != '*'
  {
  }

  /** The translation keeps the meaning, on text without line breaks. */
  lemma {:induction false} RegexIsGlob(p: string, s: string)
    requires OneLine(s)
    ensures RegexMatch(GlobRegex(p), s) <==> GlobMatch(p, s)
    decreases |p| + |s|
  {
    if p != "" {
      var re := GlobRegex(p);
      var rest := GlobRegex(p[1..]);
      NoLeadingStar(p[1..]);
      if p[0] == '*' {
        assert re[2..] == rest;
        RegexIsGlob(p[1..], s);
        if s != "" {
          RegexIsGlob(p, s[1..]);
        }
      } else {
        assert if p[0] != '?' && Special(p[0]) then re[2..] == rest else re[1..] == rest;
        if s != "" {
          RegexIsGlob(p[1..], s[1..]);
        }
      }
    }
  }

  /** Without wildcards a glob matches only itself. */
  lemma {:induction false} PlainGlob(p: string, s: string)
    requires !HasWildcard(p)
    ensures GlobMatch(p, s) <==> p == s
  {
    if p != "" {
      assert p[0] in p;
      if s != "" {
        assert forall c :: c in p[1..] ==> c in p;
        PlainGlob(p[1..], s[1..]);
        assert p == [p[0]] + p[1..] && s == [s[0]] + s[1..];
      }
    }
  }

  predicate Ascii(s: string) {
    forall i :: 0 <= i < |s| ==> s[i] as int < 128
  }

  /** An engine that gives the ASCII expressions of the fragment, anchored, their meaning on ASCII text. */
  ghost predicate Faithful(m: Engine) {
    forall re, s :: Fragment(re) && Ascii(re) && Ascii(s) ==> (m("^" + re + "$", s) <==> RegexMatch(re, s))
  }

  /** There are such engines. */
  lemma FaithfulExists() returns (m: Engine)
    ensures Faithful(m)
  {
    m := (re: string, s: string) => |re| >= 2 && RegexMatch(re[1..|re| - 1], s);
    forall re, s
      ensures m("^" + re + "$", s) <==> RegexMatch(re, s)
    {
      var all := "^" + re + "$";
      assert all[1..|all| - 1] == re;
    }
  }

  /** The translation writes nothing else than such expressions: every metacharacter is escaped, and
      nothing but metacharacters. */
  lemma {:induction false} GlobFragment(p: string)
    ensures Fragment(GlobRegex(p)) && (Ascii(p) ==> Ascii(GlobRegex(p)))
  {
    if p != "" {
      var re, rest := GlobRegex(p), GlobRegex(p[1..]);
      GlobFragment(p[1..]);
      NoLeadingStar(p[1..]);
      if p[0] == '*' {
        assert re[2..] == rest;
      } else if p[0] != '?' && Special(p[0]) {
        assert re[2..] == rest && re[1] == p[0];
      } else {
        assert re[1..] == rest;
      }
    }
  }

  /** What `Faithful` says of a translated glob. */
  lemma FaithfulGlob(m: Engine, p: string, s: string)
    requires Faithful(m) && Ascii(p) && Ascii(s) && OneLine(s)
    ensures m("^" + GlobRegex(p) + "$", s) <==> GlobMatch(p, s)
  {
    GlobFragment(p);
    RegexIsGlob(p, s);
  }

  /** For example: a '+' of a glob is not the regular expression's. */
  lemma PlusIsEscaped()
    ensures GlobRegex("a+b*") == "a\\+b.*"
  {
    assert "a+b*"[1..] == "+b*" && "+b*"[1..] == "b*" && "b*"[1..] == "*" && "*"[1..] == "";
    assert GlobRegex("*") == ".*" + "" && GlobRegex("b*") == "b" + ".*" && GlobRegex("+b*") == "\\+" + "b.*";
  }

  /** What one character of a glob is translated to. */
  function CharRegex(ch: char): string {
    if ch == '*' then ".*" else if ch == '?' then "." else if Special(ch) then ['\\', ch] else [ch]
  }

  /** One turn of the translators' loops. */
  lemma OneChar(r: string, pattern: string, i: nat, all: string)
    requires i < |pattern| && r + GlobRegex(pattern[i..]) == all
    ensures (r + CharRegex(pattern[i])) + GlobRegex(pattern[i + 1..]) == all
  {
    var rest := GlobRegex(pattern[i + 1..]);
    assert pattern[i..][1..] == pattern[i + 1..];
    assert GlobRegex(pattern[i..]) == CharRegex(pattern[i]) + rest;
    assert r + (CharRegex(pattern[i]) + rest) == (r + CharRegex(pattern[i])) + rest;
  }

  method GlobToRegex(pattern: string) returns (r: string)
    ensures r == GlobRegex(pattern)
  {
    r := "";
    var i := 0;
    while i < |pattern|
      invariant 0 <= i <= |pattern|
      invariant r + GlobRegex(pattern[i..]) == GlobRegex(pattern)
    {
      var ch := pattern[i];
      OneChar(r, pattern, i, GlobRegex(pattern));
      if ch == '*' {
        r := r + ".*";
      } else if ch == '?' {
        r := r + ".";
      } else if ch in ".+^$()[]{}|\\" {
        r := r + ['\\', ch];
      } else {
        r := r + [ch];
      }
      i := i + 1;
    }
    assert pattern[i..] == "";
    assert r + "" == r;
  }

  /** Does a component match a glob? Compiled to a regexp only when the glob has wildcards. */
  method ComponentMatches(m: Engine, pattern: string, component: string) returns (r: bool)
    ensures r == if HasWildcard(pattern) then m("^" + GlobRegex(pattern) + "$", component) else pattern == component
    ensures !HasWildcard(pattern) ==> (r <==> GlobMatch(pattern, component))
    ensures Faithful(m) && Ascii(pattern) && Ascii(component) && OneLine(component) ==> (r <==> GlobMatch(pattern, component))
  {
    if !('*' in pattern || '?' in pattern) {
      PlainGlob(pattern, component);
      return pattern == component;
    }
    var re := GlobToRegex(pattern);
    if Faithful(m) && Ascii(pattern) && Ascii(component) && OneLine(component) {
      FaithfulGlob(m, pattern, component);
    }
    r := m("^" + re + "$", component);
  }

  /** The other translator, used for router patterns, writes the same anchored expression. */
  method ConvertGlobSegment(segment: string) returns (re: string, isGlob: bool)
    ensures isGlob <==> HasWildcard(segment)
    ensures re == if isGlob then "^" + GlobRegex(segment) + "$" else segment
  {
    if !('*' in segment || '?' in segment) {
      return segment, false;
    }
    re := "^";
    var i := 0;
    while i < |segment|
      invariant 0 <= i <= |segment|
      invariant re + GlobRegex(segment[i..]) == "^" + GlobRegex(segment)
    {
      var ch := segment[i];
      OneChar(re, segment, i, "^" + GlobRegex(segment));
      if ch == '*' {
        re := re + ".*";
      } else if ch == '?' {
        re := re + ".";
      } else if ch in ".+^$()[]{}|\\" {
        assert re + ['\\', ch] == (re + ['\\']) + [ch];
        re := re + ['\\'];
        re := re + [ch];
      } else {
        re := re + [ch];
      }
      i := i + 1;
    }
    assert segment[i..] == "";
    assert re + "" == re;
    return re + "$", true;
  }

  // ----- whole patterns

  /** A parameter in braces. */
  predicate Braced(part: string) {
    part != "" && part[0] == '{' && part[|part| - 1] == '}'
  }

  function WildcardName(n: nat): string {
    "_wildcard" + Decimal(n)
  }

  function GlobName(n: nat): string {
    "_glob" + Decimal(n)
  }

  /** A '*' that is a whole part, and not the last one. */
  predicate MiddleStar(parts: seq<string>) {
    |parts| > 1 && parts[0] == "*"
  }

  predicate GlobPart(part: string) {
    part != "*" && !Braced(part) && HasWildcard(part)
  }

  /** The router text of the first of the remaining parts, when `w` middle stars and `g` globs have
      been numbered before it. */
  function PartText(parts: seq<string>, w: nat, g: nat): string
    requires parts != []
  {
    if MiddleStar(parts) then "{" + WildcardName(w) + ":.*}"
    else if GlobPart(parts[0]) then "{" + GlobName(g) + ":^" + GlobRegex(parts[0]) + "$}"
    else parts[0]
  }

  function PartTexts(parts: seq<string>, w: nat, g: nat): (r: seq<string>)
    ensures |r| == |parts|
  {
    if parts == [] then []
    else [PartText(parts, w, g)] + PartTexts(parts[1..], NextW(parts, w), NextG(parts, g))
  }

  function NextW(parts: seq<string>, w: nat): nat
    requires parts != []
  {
    if MiddleStar(parts) then w + 1 else w
  }

  function NextG(parts: seq<string>, g: nat): nat
    requires parts != []
  {
    if GlobPart(parts[0]) then g + 1 else g
  }

  /** The generated parameter names, with the parts they stand for. */
  function PartNames(parts: seq<string>, w: nat, g: nat): map<string, string> {
    if parts == [] then map[]
    else
      var rest := PartNames(parts[1..], NextW(parts, w), NextG(parts, g));
      if NewName(parts, w, g).Some? then map[NewName(parts, w, g).value := parts[0]] + rest else rest
  }

  function Converted(pattern: string): string {
    Join(PartTexts(Split(pattern, '/'), 0, 0), '/')
  }

  /** The generated name for the first part, if it gets one. */
  function NewName(parts: seq<string>, w: nat, g: nat): Option<string>
    requires parts != []
  {
    if MiddleStar(parts) then Some(WildcardName(w))
    else if GlobPart(parts[0]) then Some(GlobName(g))
    else None
  }

  /** Translates one part. */
  method ConvertPart(part: string, ghost parts: seq<string>, isLast: bool, wildcardIndex: nat, globIndex: nat)
    returns (text: string, name: Option<string>, w: nat, g: nat)
    requires parts != [] && part == parts[0] && (isLast <==> |parts| == 1)
    ensures text == PartText(parts, wildcardIndex, globIndex) && name == NewName(parts, wildcardIndex, globIndex)
    ensures w == NextW(parts, wildcardIndex) && g == NextG(parts, globIndex)
  {
    text, name, w, g := part, None, wildcardIndex, globIndex;
    if part == "" {
      return;
    }
    if part == "*" {
      if !isLast {
        var paramName := WildcardName(w);
        w := w + 1;
        text, name := "{" + paramName + ":.*}", Some(paramName);
      }
      return;
    }
    if part[0] == '{' && part[|part| - 1] == '}' {
      return;
    }
    var regex, isGlob := ConvertGlobSegment(part);
    if isGlob {
      var paramName := GlobName(g);
      g := g + 1;
      GlobText(paramName, GlobRegex(part));
      text, name := "{" + paramName + ":" + regex + "}", Some(paramName);
    }
  }

  lemma GlobText(name: string, re: string)
    ensures "{" + name + ":" + ("^" + re + "$") + "}" == "{" + name + ":^" + re + "$}"
  {
    var s, t := "{" + name + ":" + ("^" + re + "$") + "}", "{" + name + ":^" + re + "$}";
    assert |s| == |t|;
    assert s == (("{" + name) + ":") + ("^" + re + "$") + "}";
  }

  /** Translates the parts of a pattern one by one. */
  method ConvertGlobPattern(pattern: string) returns (converted: string, paramMap: map<string, string>)
    ensures converted == Converted(pattern)
    ensures paramMap == PartNames(Split(pattern, '/'), 0, 0)
  {
    if !('*' in pattern || '?' in pattern) {
      NothingToConvert(pattern);
      return pattern, map[];
    }
    var parts := Split(pattern, '/');
    var convertedParts: seq<string> := [];
    paramMap := map[];
    var wildcardIndex, globIndex := 0, 0;
    var idx := 0;
    while idx < |parts|
      invariant 0 <= idx <= |parts| && |convertedParts| == idx
      invariant convertedParts + PartTexts(parts[idx..], wildcardIndex, globIndex) == PartTexts(parts, 0, 0)
      invariant paramMap + PartNames(parts[idx..], wildcardIndex, globIndex) == PartNames(parts, 0, 0)
    {
      ghost var todo := parts[idx..];
      assert todo[1..] == parts[idx + 1..];
      var text, name, w, g := ConvertPart(parts[idx], todo, idx == |parts| - 1, wildcardIndex, globIndex);
      OneText(todo, convertedParts, wildcardIndex, globIndex);
      OneName(todo, paramMap, wildcardIndex, globIndex);
      convertedParts := convertedParts + [text];
      if name.Some? {
        paramMap := paramMap[name.value := parts[idx]];
      }
      wildcardIndex, globIndex := w, g;
      idx := idx + 1;
    }
    assert parts[idx..] == [];
    assert convertedParts + [] == convertedParts;
    assert paramMap + map[] == paramMap;
    converted := Join(convertedParts, '/');
  }

  lemma OneText(todo: seq<string>, before: seq<string>, w: nat, g: nat)
    requires todo != []
    ensures before + [PartText(todo, w, g)] + PartTexts(todo[1..], NextW(todo, w), NextG(todo, g)) == before + PartTexts(todo, w, g)
  {
  }

  lemma OneName(todo: seq<string>, names: map<string, string>, w: nat, g: nat)
    requires todo != []
    ensures var names' := if NewName(todo, w, g).Some? then names[NewName(todo, w, g).value := todo[0]] else names;
      names' + PartNames(todo[1..], NextW(todo, w), NextG(todo, g)) == names + PartNames(todo, w, g)
  {
  }

  lemma {:induction false} PlainParts(parts: seq<string>, w: nat, g: nat)
    requires forall i :: 0 <= i < |parts| ==> !HasWildcard(parts[i])
    ensures PartTexts(parts, w, g) == parts && PartNames(parts, w, g) == map[]
  {
    if parts != [] {
      assert !HasWildcard(parts[0]) && "*"[0] == '*';
      PlainParts(parts[1..], w, g);
    }
  }

  lemma NothingToConvert(pattern: string)
    requires !HasWildcard(pattern)
    ensures Converted(pattern) == pattern && PartNames(Split(pattern, '/'), 0, 0) == map[]
  {
    SplitParts(pattern);
    PlainParts(Split(pattern, '/'), 0, 0);
    JoinSplit(pattern);
  }

  lemma {:induction false} SplitParts(s: string)
    ensures forall i, c :: 0 <= i < |Split(s, '/')| && c in Split(s, '/')[i] ==> c in s
  {
    var i := IndexOf(s, '/');
    if i >= 0 {
      SplitParts(s[i + 1..]);
      assert forall c :: c in s[..i] ==> c in s;
      assert forall c :: c in s[i + 1..] ==> c in s;
    }
  }

  lemma {:induction false} JoinSplit(s: string)
    ensures Join(Split(s, '/'), '/') == s
  {
    var i := IndexOf(s, '/');
    if i >= 0 {
      JoinSplit(s[i + 1..]);
      assert s == s[..i] + ['/'] + s[i + 1..];
    }
  }
}