/** The meaning of a routing pattern: a sequence of tokens, and what it means for a token
    sequence to match a path. This is the specification the radix tree is proved against. */
module Tokens {
  import opened Wrappers
  import opened Text

  /** One step of a pattern.
      - `Lit(c)`: the byte `c`;
      - `Rex(re, tail)`: a `{name:re}` parameter, delimited by `tail`;
      - `Par(tail)`: a `{name}` parameter, delimited by `tail`;
      - `Rest`: the trailing `*`. */
  datatype Tok = Lit(c: char) | Rex(re: string, tail: char) | Par(tail: char) | Rest

  /** The regular expression engine, kept uninterpreted: does this expression match this text? */
  type Engine = (string, string) -> bool

  /** How many bytes of `path` a single token takes, if it can be taken at all.
      With `lax`, a regexp parameter may also take nothing when its delimiter comes first. */
  function Span(m: Engine, lax: bool, t: Tok, path: string): (r: Option<nat>)
    ensures r.Some? ==> r.value <= |path|
  {
    match t
    case Lit(c) => if path != "" && path[0] == c then Some(1) else None
    case Rest => Some(|path|)
    case Par(tail) =>
      if path == "" then None
      else
        var p := IndexOf(path, tail);
        if p < 0 then if tail == '/' then Some(|path|) else None
        else if '/' in path[..p] then None
        else Some(p)
    case Rex(re, tail) =>
      if path == "" then None
      else
        var p := IndexOf(path, tail);
        if p < 0 then if tail == '/' && m(re, path) then Some(|path|) else None
        else if p == 0 then if lax then Some(0) else None
        else if m(re, path[..p]) then Some(p)
        else None
  }

  /** The captured texts when `k` matches the whole of `path`; `None` when it does not match. */
  function Match(m: Engine, lax: bool, k: seq<Tok>, path: string): Option<seq<string>> {
    if k == [] then
      if path == "" then Some([]) else None
    else
      match Span(m, lax, k[0], path)
      case None => None
      case Some(n) =>
        match Match(m, lax, k[1..], path[n..])
        case None => None
        case Some(cs) => Some(Capture(k[0], path[..n]) + cs)
  }

  /** Only literal bytes are not captured. */
  function Capture(t: Tok, taken: string): seq<string> {
    if t.Lit? then [] else [taken]
  }

  predicate Matches(m: Engine, lax: bool, k: seq<Tok>, path: string) {
    Match(m, lax, k, path).Some?
  }

  /** Every strict match is a lax match with the same captures. */
  lemma {:induction false} StrictIsLax(m: Engine, k: seq<Tok>, path: string)
    requires Matches(m, false, k, path)
    ensures Match(m, true, k, path) == Match(m, false, k, path)
  {
    if k == [] {
    } else {
      var n := Span(m, false, k[0], path).value;
      assert Span(m, true, k[0], path) == Some(n);
      StrictIsLax(m, k[1..], path[n..]);
    }
  }

  /** One captured text for each token that is not a literal byte. */
  function Wilds(k: seq<Tok>): nat {
    if k == [] then 0 else (if k[0].Lit? then 0 else 1) + Wilds(k[1..])
  }

  lemma {:induction false} CaptureCount(m: Engine, lax: bool, k: seq<Tok>, path: string)
    requires Matches(m, lax, k, path)
    ensures |Match(m, lax, k, path).value| == Wilds(k)
  {
    if k == [] {
    } else {
      var n := Span(m, lax, k[0], path).value;
      CaptureCount(m, lax, k[1..], path[n..]);
    }
  }

  /** The literal tokens of a text. */
  function Lits(s: string): (k: seq<Tok>)
    ensures |k| == |s|
    ensures forall i :: 0 <= i < |s| ==> k[i] == Lit(s[i])
  {
    seq(|s|, i requires 0 <= i < |s| => Lit(s[i]))
  }

  /** A literal prefix is matched by comparing it with the start of the path. */
  lemma {:induction false} MatchLits(m: Engine, lax: bool, s: string, k: seq<Tok>, path: string)
    ensures Match(m, lax, Lits(s) + k, path) == if s <= path then Match(m, lax, k, path[|s|..]) else None
  {
    if s == "" {
      assert Lits(s) + k == k;
      assert path[|s|..] == path;
    } else {
      var all := Lits(s) + k;
      assert all[1..] == Lits(s[1..]) + k;
      if path != "" && path[0] == s[0] {
        MatchLits(m, lax, s[1..], k, path[1..]);
        assert s <= path <==> s[1..] <= path[1..];
        if s <= path {
          assert path[1..][|s| - 1..] == path[|s|..];
        }
        assert Span(m, lax, all[0], path) == Some(1);
        assert forall cs: seq<string> :: [] + cs == cs;
      }
    }
  }

  /** The place of a token in the order in which the tree is searched: end of pattern and literal
      bytes, then regexp parameters, then `{name}` parameters delimited by something other than
      '/', then those delimited by '/', then the trailing '*'. */
  function Rank(k: seq<Tok>): nat {
    if k == [] then 0
    else
      match k[0]
      case Lit(_) => 0
      case Rex(_, _) => 1
      case Par(tail) => if tail != '/' then 2 else 3
      case Rest => 4
  }

  /** `a` is searched no later than `b`: at the first token where they differ, `a`'s rank is at
      most `b`'s. */
  predicate NoLater(a: seq<Tok>, b: seq<Tok>) {
    if a != [] && b != [] && a[0] == b[0] then NoLater(a[1..], b[1..])
    else Rank(a) <= Rank(b)
  }

  lemma {:induction false} NoLaterShift(e: seq<Tok>, a: seq<Tok>, b: seq<Tok>)
    requires NoLater(a, b)
    ensures NoLater(e + a, e + b)
  {
    if e == [] {
      assert e + a == a && e + b == b;
    } else {
      assert (e + a)[1..] == e[1..] + a && (e + b)[1..] == e[1..] + b;
      NoLaterShift(e[1..], a, b);
    }
  }

  lemma {:induction false} NoLaterReflexive(a: seq<Tok>)
    ensures NoLater(a, a)
  {
    if a != [] {
      NoLaterReflexive(a[1..]);
    }
  }

  /** The first tokens where `a` and `b` part. */
  function Parting(a: seq<Tok>, b: seq<Tok>): (seq<Tok>, seq<Tok>) {
    if a != [] && b != [] && a[0] == b[0] then Parting(a[1..], b[1..]) else (a, b)
  }

  /** The search order leaves open only the order between two regexp parameters, and between two
      `{name}` parameters neither of which is delimited by '/'. */
  predicate Unordered(a: seq<Tok>, b: seq<Tok>) {
    var (x, y) := Parting(a, b);
    && x != [] && y != []
    && x[0] != y[0]
    && ((x[0].Rex? && y[0].Rex?) || (x[0].Par? && y[0].Par? && x[0].tail != '/' && y[0].tail != '/'))
  }

  /** Two different patterns that match the same path, each searched no later than the other, part
      at a pair of parameters that the search order leaves open. */
  lemma {:induction false} FirstIsUnique(m: Engine, lax: bool, a: seq<Tok>, b: seq<Tok>, path: string)
    requires Matches(m, lax, a, path) && Matches(m, lax, b, path)
    requires NoLater(a, b) && NoLater(b, a)
    ensures a == b || Unordered(a, b)
  {
    if a != [] && b != [] && a[0] == b[0] {
      FirstIsUnique(m, lax, a[1..], b[1..], path[Span(m, lax, a[0], path).value..]);
      if a[1..] == b[1..] {
        assert a == [a[0]] + a[1..] == [b[0]] + b[1..] == b;
      } else {
        assert Parting(a, b) == Parting(a[1..], b[1..]);
      }
    } else if a == [] && b == [] {
    } else {
      assert Parting(a, b) == (a, b);
    }
  }
}
