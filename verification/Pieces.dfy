/** What a match takes from a path, token by token. */
module Pieces {
  import opened Wrappers
  import opened Text
  import opened Tokens

  // ----- one piece for each token

  /** May a token take this piece, with `rest` behind it? A parameter ends where its delimiter stands for the
      first time, or with the path, if it is delimited by '/'; a `{name}` holds no '/', and a regexp accepts
      what it takes, unless it takes nothing, which it may do under the lax reading only. */
  predicate Piece(m: Engine, lax: bool, t: Tok, piece: string, rest: string) {
    match t
    case Lit(c) => piece == [c]
    case Rest => rest == ""
    case Par(tail) => Ends(tail, piece, rest) && '/' !in piece
    case Rex(re, tail) => Ends(tail, piece, rest) && if piece == "" then lax else m(re, piece)
  }

  predicate Ends(tail: char, piece: string, rest: string) {
    && tail !in piece
    && (if rest == "" then piece != "" && tail == '/' else rest[0] == tail)
  }

  /** The path is cut into one piece for each token. */
  ghost predicate Cuts(m: Engine, lax: bool, k: seq<Tok>, path: string, pieces: seq<string>) {
    && |pieces| == |k| && Concat(pieces) == path
    && forall i :: 0 <= i < |k| ==> Piece(m, lax, k[i], pieces[i], Concat(pieces[i + 1..]))
  }

  /** The pieces of the tokens that capture. */
  function Captured(k: seq<Tok>, pieces: seq<string>): seq<string>
    requires |pieces| == |k|
  {
    if k == [] then [] else (if k[0].Lit? then [] else [pieces[0]]) + Captured(k[1..], pieces[1..])
  }

  lemma CutsStep(m: Engine, lax: bool, k: seq<Tok>, path: string, pieces: seq<string>)
    requires k != [] && |pieces| == |k|
    ensures var rest := Concat(pieces[1..]);
      Cuts(m, lax, k, path, pieces) <==>
        path == pieces[0] + rest && Piece(m, lax, k[0], pieces[0], rest) && Cuts(m, lax, k[1..], rest, pieces[1..])
  {
    var tail := pieces[1..];
    forall i | 0 <= i < |tail|
      ensures tail[i] == pieces[i + 1] && k[1..][i] == k[i + 1] && tail[i + 1..] == pieces[i + 2..]
    {
    }
    if path == pieces[0] + Concat(tail) && Piece(m, lax, k[0], pieces[0], Concat(tail)) && Cuts(m, lax, k[1..], Concat(tail), tail) {
      forall i | 0 <= i < |k|
        ensures Piece(m, lax, k[i], pieces[i], Concat(pieces[i + 1..]))
      {
        if i > 0 {
          assert Piece(m, lax, k[1..][i - 1], tail[i - 1], Concat(tail[(i - 1) + 1..]));
        }
      }
    }
    if Cuts(m, lax, k, path, pieces) {
      forall i | 0 <= i < |tail|
        ensures Piece(m, lax, k[1..][i], tail[i], Concat(tail[i + 1..]))
      {
        assert Piece(m, lax, k[i + 1], pieces[i + 1], Concat(pieces[(i + 1) + 1..]));
      }
    }
  }

  /** A token takes exactly the pieces it may take. */
  lemma SpanExactlyWhen(m: Engine, lax: bool, t: Tok, path: string, n: nat)
    requires n <= |path|
    ensures Span(m, lax, t, path) == Some(n) <==> Piece(m, lax, t, path[..n], path[n..])
  {
    var piece, rest := path[..n], path[n..];
    assert path == piece + rest;
    match t {
      case Lit(c) =>
        assert n == 1 ==> piece == [path[0]];
      case Rest =>
      case Par(tail) => EndsExactlyWhen(tail, path, n);
      case Rex(re, tail) => EndsExactlyWhen(tail, path, n);
    }
  }

  lemma EndsExactlyWhen(tail: char, path: string, n: nat)
    requires n <= |path|
    ensures Ends(tail, path[..n], path[n..]) <==>
      path != "" && if IndexOf(path, tail) < 0 then n == |path| && tail == '/' else n == IndexOf(path, tail)
    ensures IndexOf(path, tail) < 0 ==> tail !in path
    ensures path[..|path|] == path
  {
    if n < |path| && path[n] == tail && tail !in path[..n] {
      IndexOfIs(path, tail, n);
    }
  }

  /** A pattern matches exactly the paths that can be cut into such pieces, */
  lemma {:induction false} CutsMatch(m: Engine, lax: bool, k: seq<Tok>, path: string, pieces: seq<string>)
    requires Cuts(m, lax, k, path, pieces)
    ensures Match(m, lax, k, path) == Some(Captured(k, pieces))
  {
    if k != [] {
      CutsStep(m, lax, k, path, pieces);
      var n, rest := |pieces[0]|, Concat(pieces[1..]);
      assert path[..n] == pieces[0] && path[n..] == rest;
      SpanExactlyWhen(m, lax, k[0], path, n);
      CutsMatch(m, lax, k[1..], rest, pieces[1..]);
    }
  }

  lemma {:induction false} MatchCuts(m: Engine, lax: bool, k: seq<Tok>, path: string) returns (pieces: seq<string>)
    requires Matches(m, lax, k, path)
    ensures Cuts(m, lax, k, path, pieces) && Match(m, lax, k, path) == Some(Captured(k, pieces))
  {
    if k == [] {
      pieces := [];
    } else {
      var n := Span(m, lax, k[0], path).value;
      var more := MatchCuts(m, lax, k[1..], path[n..]);
      pieces := [path[..n]] + more;
      assert pieces[1..] == more;
      SpanExactlyWhen(m, lax, k[0], path, n);
      assert path == path[..n] + path[n..];
      CutsStep(m, lax, k, path, pieces);
      CutsMatch(m, lax, k, path, pieces);
    }
  }

  /** with those captures, and in one way only. */
  lemma MatchExactlyWhen(m: Engine, lax: bool, k: seq<Tok>, path: string)
    ensures Matches(m, lax, k, path) <==> exists pieces :: Cuts(m, lax, k, path, pieces)
    ensures forall pieces :: Cuts(m, lax, k, path, pieces) ==> Match(m, lax, k, path) == Some(Captured(k, pieces))
  {
    if Matches(m, lax, k, path) {
      var pieces := MatchCuts(m, lax, k, path);
    }
    forall pieces | Cuts(m, lax, k, path, pieces)
      ensures Match(m, lax, k, path) == Some(Captured(k, pieces))
    {
      CutsMatch(m, lax, k, path, pieces);
    }
  }

  /** A parameter can end in one place only. */
  lemma EndsOnce(tail: char, path: string, n: nat, n': nat)
    requires n <= |path| && n' <= |path|
    requires Ends(tail, path[..n], path[n..]) && Ends(tail, path[..n'], path[n'..])
    ensures n == n'
  {
    EndsExactlyWhen(tail, path, n);
    EndsExactlyWhen(tail, path, n');
  }
}
