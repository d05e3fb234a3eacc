/** Converting between Lua values and Go values. */
module LuaConvert {
  import opened Wrappers

  /** A table key; `KOther` stands for booleans, tables, functions and the rest. */
  datatype Key = KNum(num: real) | KStr(s: string) | KOther(id: nat)

  /** A Lua value. A table is a finite map, from which setting nil deletes; `LOther` stands for
      functions, userdata and threads. */
  datatype Lua = LNil | LBool(b: bool) | LNum(n: real) | LStr(s: string) | LTable(t: map<Key, Lua>) | LOther

  /** A Go value as YAML or JSON gives it; `GOther` stands for every other type. */
  datatype Go =
    | GNil | GBool(b: bool) | GInt(i: int) | GInt64(i: int) | GFloat(f: real) | GStr(s: string)
    | GList(es: seq<Go>) | GMap(m: map<string, Go>) | GOther

  // ----- tables

  function RawSet(t: map<Key, Lua>, k: Key, v: Lua): map<Key, Lua> {
    if v.LNil? then t - {k} else t[k := v]
  }

  function IntKey(i: int): Key {
    KNum(i as real)
  }

  function RawGetInt(t: map<Key, Lua>, i: int): Lua {
    if IntKey(i) in t then t[IntKey(i)] else LNil
  }

  /** Go's conversion to an integer rounds towards zero. */
  function Trunc(x: real): int {
    if x >= 0.0 then x.Floor else -((-x).Floor)
  }

  // ----- Go to Lua

  function ListTable(es: seq<Lua>): map<Key, Lua> {
    if es == [] then map[]
    else RawSet(ListTable(es[..|es| - 1]), IntKey(|es|), es[|es| - 1])
  }

  function StrTable(m: map<string, Lua>): map<Key, Lua> {
    map s | s in m && !m[s].LNil? :: KStr(s) := m[s]
  }

  /** The Lua value of a Go value; `None` for an unsupported type anywhere inside. */
  function ToLua(v: Go): Option<Lua>
    decreases v, 1
  {
    match v
    case GNil => Some(LNil)
    case GBool(b) => Some(LBool(b))
    case GInt(i) => Some(LNum(i as real))
    case GInt64(i) => Some(LNum(i as real))
    case GFloat(f) => Some(LNum(f))
    case GStr(s) => Some(LStr(s))
    case GList(es) =>
      if forall i :: 0 <= i < |es| ==> ToLua(es[i]).Some? then Some(LTable(ListTable(Luas(es)))) else None
    case GMap(m) =>
      if forall k :: k in m ==> ToLua(m[k]).Some? then Some(LTable(StrTable(LuaMap(m)))) else None
    case GOther => None
  }

  function Luas(es: seq<Go>): (r: seq<Lua>)
    requires forall i :: 0 <= i < |es| ==> ToLua(es[i]).Some?
    decreases GList(es), 0
  {
    seq(|es|, i requires 0 <= i < |es| => ToLua(es[i]).value)
  }

  function LuaMap(m: map<string, Go>): map<string, Lua>
    requires forall k :: k in m ==> ToLua(m[k]).Some?
    decreases GMap(m), 0
  {
    map k | k in m :: ToLua(m[k]).value
  }

  // ----- Lua to Go

  /** Every number key lies in 1..n once rounded, and n is reached, where n is the number of keys. */
  predicate ListLike(t: map<Key, Lua>) {
    && |t| > 0
    && (forall k :: k in t && k.KNum? ==> Trunc(k.num) <= |t|)
    && (exists k :: k in t && k.KNum? && Trunc(k.num) == |t|)
  }

  function StrKeys(t: map<Key, Lua>): set<string> {
    set k | k in t && k.KStr? :: k.s
  }

  function OrNil(r: Option<Go>): Go {
    match r
    case None => GNil
    case Some(g) => g
  }

  /** The Go value of a Lua value; `None` when it is an error. In a list an element that cannot be
      converted becomes nil. */
  function ToGo(lv: Lua): Option<Go>
    decreases lv, 1
  {
    match lv
    case LNil => Some(GNil)
    case LBool(b) => Some(GBool(b))
    case LNum(n) => Some(GFloat(n))
    case LStr(s) => Some(GStr(s))
    case LTable(t) =>
      if ListLike(t) then Some(GList(GoList(t)))
      else if forall k :: k in t ==> k.KStr? && ToGo(t[k]).Some? then Some(GMap(GoMap(t)))
      else None
    case LOther => None
  }

  function GoList(t: map<Key, Lua>): seq<Go>
    decreases LTable(t), 0
  {
    seq(|t|, i requires 0 <= i < |t| => if IntKey(i + 1) in t then OrNil(ToGo(t[IntKey(i + 1)])) else GNil)
  }

  function GoMap(t: map<Key, Lua>): map<string, Go>
    requires forall k :: k in t ==> k.KStr? && ToGo(t[k]).Some?
    decreases LTable(t), 0
  {
    map s | s in StrKeys(t) :: ToGo(t[KStr(s)]).value
  }

  // ----- the round trip

  /** Values that survive: no empty list, no nil inside a container, no integer types. */
  predicate Solid(v: Go) {
    match v
    case GBool(_) => true
    case GFloat(_) => true
    case GStr(_) => true
    case GList(es) => es != [] && forall i :: 0 <= i < |es| ==> Solid(es[i])
    case GMap(m) => forall k :: k in m ==> Solid(m[k])
    case _ => false
  }

  predicate RoundTrips(v: Go) {
    ToLua(v).Some? && ToGo(ToLua(v).value) == Some(v)
  }

  /** The keys of a list's table are whole numbers from 1 to its length. */
  lemma {:induction false} ListKeys(es: seq<Lua>)
    ensures forall k :: k in ListTable(es) ==> k.KNum? && 1 <= Trunc(k.num) <= |es|
  {
    if es != [] {
      ListKeys(es[..|es| - 1]);
    }
  }

  lemma NextKey(es: seq<Lua>)
    ensures IntKey(|es| + 1) !in ListTable(es)
  {
    ListKeys(es);
    assert Trunc(IntKey(|es| + 1).num) == |es| + 1;
  }

  /** Element i is found under the key i + 1, unless it is nil. */
  lemma {:induction false} ListGet(es: seq<Lua>, i: nat)
    requires i < |es|
    ensures RawGetInt(ListTable(es), i + 1) == es[i]
    ensures IntKey(i + 1) in ListTable(es) <==> !es[i].LNil?
  {
    var n := |es| - 1;
    NextKey(es[..n]);
    if i < n {
      ListGet(es[..n], i);
    }
  }

  lemma CountOne(t: map<Key, Lua>, k: Key, v: Lua)
    requires k !in t
    ensures |RawSet(t, k, v)| == if v.LNil? then |t| else |t| + 1
  {
    assert t - {k} == t;
    assert t[k := v].Keys == t.Keys + {k};
  }

  /** A list's table has as many keys as the list is long exactly when no element is nil. */
  lemma {:induction false} ListCount(es: seq<Lua>)
    ensures |ListTable(es)| <= |es|
    ensures |ListTable(es)| == |es| <==> forall i :: 0 <= i < |es| ==> !es[i].LNil?
  {
    if es != [] {
      var n := |es| - 1;
      ListCount(es[..n]);
      NextKey(es[..n]);
      CountOne(ListTable(es[..n]), IntKey(n + 1), es[n]);
      assert forall i :: 0 <= i < n ==> es[..n][i] == es[i];
    }
  }

  lemma StrTableIs(m: map<string, Lua>)
    ensures forall k :: k in StrTable(m) ==> k.KStr?
    ensures forall s :: KStr(s) in StrTable(m) <==> s in m && !m[s].LNil?
    ensures !ListLike(StrTable(m))
    ensures StrKeys(StrTable(m)) == set s | s in m && !m[s].LNil?
  {
  }

  /** Only nil becomes nil. */
  lemma OnlyNil(v: Go)
    requires ToLua(v).Some?
    ensures ToLua(v).value.LNil? <==> v.GNil?
  {
  }

  /** Is converted without being lost on the way. */
  predicate Survives(v: Go) {
    RoundTrips(v) && !v.GNil?
  }

  /** A list survives exactly when it is not empty and all its elements do. */
  lemma ListSurvives(es: seq<Go>)
    ensures RoundTrips(GList(es)) <==> es != [] && forall i :: 0 <= i < |es| ==> Survives(es[i])
  {
    if forall i :: 0 <= i < |es| ==> ToLua(es[i]).Some? {
      var L := Luas(es);
      var t := ListTable(L);
      assert ToLua(GList(es)) == Some(LTable(t));
      ListCount(L);
      forall i | 0 <= i < |es| ensures L[i].LNil? <==> es[i].GNil? { OnlyNil(es[i]); }
      if |t| == |es| && es != [] {
        FullList(es, L);
      } else {
        assert es != [] ==> exists i :: 0 <= i < |es| && L[i].LNil?;
        assert ToGo(LTable(t)) != Some(GList(es));
      }
    }
  }

  lemma ToGoList(t: map<Key, Lua>, i: nat)
    requires ListLike(t)
    ensures ToGo(LTable(t)).Some? && ToGo(LTable(t)).value.GList? && |ToGo(LTable(t)).value.es| == |t|
    ensures i < |t| && IntKey(i + 1) in t ==> ToGo(LTable(t)).value.es[i] == OrNil(ToGo(t[IntKey(i + 1)]))
  {
  }

  lemma ElementSurvives(es: seq<Go>, L: seq<Lua>, i: nat)
    requires i < |es| == |L| && ToLua(es[i]) == Some(L[i]) && !L[i].LNil? && !es[i].GNil?
    ensures IntKey(i + 1) in ListTable(L)
    ensures OrNil(ToGo(ListTable(L)[IntKey(i + 1)])) == es[i] <==> Survives(es[i])
  {
    ListGet(L, i);
  }

  lemma FullListLike(L: seq<Lua>)
    requires L != [] && |ListTable(L)| == |L| && !L[|L| - 1].LNil?
    ensures ListLike(ListTable(L))
  {
    ListKeys(L);
    ListGet(L, |L| - 1);
    assert Trunc(IntKey(|L|).num) == |L|;
  }

  lemma FullList(es: seq<Go>, L: seq<Lua>)
    requires es != [] && (forall i :: 0 <= i < |es| ==> ToLua(es[i]).Some?) && L == Luas(es)
    requires |ListTable(L)| == |es| && forall i :: 0 <= i < |es| ==> !L[i].LNil? && !es[i].GNil?
    ensures ToGo(LTable(ListTable(L))) == Some(GList(es)) <==> forall i :: 0 <= i < |es| ==> Survives(es[i])
  {
    var t := ListTable(L);
    FullListLike(L);
    ToGoList(t, 0);
    var gs := ToGo(LTable(t)).value.es;
    forall i | 0 <= i < |es| ensures gs[i] == es[i] <==> Survives(es[i]) {
      ElementSurvives(es, L, i);
      ToGoList(t, i);
    }
    assert gs == es <==> forall i :: 0 <= i < |es| ==> gs[i] == es[i];
  }

  /** A map survives exactly when all its values do. */
  lemma MapSurvives(m: map<string, Go>)
    ensures RoundTrips(GMap(m)) <==> forall s :: s in m ==> Survives(m[s])
  {
    if forall s :: s in m ==> ToLua(m[s]).Some? {
      var M := LuaMap(m);
      assert ToLua(GMap(m)) == Some(LTable(StrTable(M)));
      forall s | s in m ensures M[s].LNil? <==> m[s].GNil? { OnlyNil(m[s]); }
      FullMap(m, M);
    }
  }

  lemma ToGoMap(t: map<Key, Lua>, m: map<string, Go>)
    requires !ListLike(t) && forall k :: k in t ==> k.KStr?
    ensures ToGo(LTable(t)) == Some(GMap(m)) <==>
      m.Keys == StrKeys(t) && forall s :: s in m ==> ToGo(t[KStr(s)]) == Some(m[s])
  {
    assert forall s :: s in StrKeys(t) <==> KStr(s) in t;
    assert forall k :: k in t ==> k == KStr(k.s);
    if forall k :: k in t ==> ToGo(t[k]).Some? {
      assert GoMap(t) == m <==> m.Keys == StrKeys(t) && forall s :: s in m ==> ToGo(t[KStr(s)]) == Some(m[s]);
    } else {
      var k :| k in t && ToGo(t[k]).None?;
      assert k.s in StrKeys(t);
    }
  }

  lemma FullMap(m: map<string, Go>, M: map<string, Lua>)
    requires m.Keys == M.Keys && forall s :: s in m ==> ToLua(m[s]) == Some(M[s])
    requires forall s :: s in m ==> (M[s].LNil? <==> m[s].GNil?)
    ensures ToGo(LTable(StrTable(M))) == Some(GMap(m)) <==> forall s :: s in m ==> Survives(m[s])
  {
    var t := StrTable(M);
    StrTableIs(M);
    ToGoMap(t, m);
    assert m.Keys == StrKeys(t) <==> forall s :: s in m ==> !M[s].LNil?;
    forall s | s in m && !M[s].LNil?
      ensures Survives(m[s]) <==> ToGo(t[KStr(s)]) == Some(m[s])
    {
    }
  }

  /** A value makes the round trip exactly when it is nil or solid. */
  lemma {:induction false} RoundTripsExactlyWhen(v: Go)
    ensures RoundTrips(v) <==> v.GNil? || Solid(v)
  {
    match v {
      case GList(es) =>
        ListSurvives(es);
        forall i | 0 <= i < |es| ensures Survives(es[i]) <==> Solid(es[i]) {
          RoundTripsExactlyWhen(es[i]);
        }
      case GMap(m) =>
        MapSurvives(m);
        forall s | s in m ensures Survives(m[s]) <==> Solid(m[s]) {
          RoundTripsExactlyWhen(m[s]);
        }
      case _ =>
    }
  }

  // ----- the round trip from Lua

  /** A table never stores nil. */
  predicate Stored(lv: Lua) {
    lv.LTable? ==> forall k :: k in lv.t ==> !lv.t[k].LNil? && Stored(lv.t[k])
  }

  /** The keys 1 to n. */
  function Positions(n: nat): (r: set<Key>)
    ensures |r| == n
    ensures forall k :: k in r <==> k.KNum? && 1 <= Trunc(k.num) <= n && k == IntKey(Trunc(k.num))
  {
    if n == 0 then {}
    else
      assert Trunc(IntKey(n).num) == n;
      Positions(n - 1) + {IntKey(n)}
  }

  /** The tables that have a Go form of their own: those with exactly the keys 1 to n, and those with
      string keys only. */
  predicate ListShaped(t: map<Key, Lua>) {
    |t| > 0 && t.Keys == Positions(|t|)
  }

  predicate MapShaped(t: map<Key, Lua>) {
    forall k :: k in t ==> k.KStr?
  }

  /** A Lua value that Go can hold without loss. */
  predicate Lossless(lv: Lua) {
    match lv
    case LTable(t) => (ListShaped(t) || MapShaped(t)) && forall k :: k in t ==> Lossless(t[k])
    case LOther => false
    case _ => true
  }

  predicate ComesBack(lv: Lua) {
    ToGo(lv).Some? && ToLua(ToGo(lv).value) == Some(lv)
  }

  predicate EntriesGoBack(t: map<Key, Lua>) {
    forall k :: k in t && ToGo(t[k]).Some? ==> ToLua(ToGo(t[k]).value).Some?
  }

  lemma ListBack(t: map<Key, Lua>)
    requires EntriesGoBack(t)
    ensures ToLua(GList(GoList(t))).Some?
  {
    var es := GoList(t);
    forall i | 0 <= i < |es|
      ensures ToLua(es[i]).Some?
    {
      assert es[i] == if IntKey(i + 1) in t then OrNil(ToGo(t[IntKey(i + 1)])) else GNil;
    }
  }

  lemma MapBack(t: map<Key, Lua>)
    requires EntriesGoBack(t) && forall k :: k in t ==> k.KStr? && ToGo(t[k]).Some?
    ensures ToLua(GMap(GoMap(t))).Some?
  {
    var m := GoMap(t);
    forall s | s in m
      ensures ToLua(m[s]).Some?
    {
      assert s in StrKeys(t) && KStr(s) in t && m[s] == ToGo(t[KStr(s)]).value;
    }
  }

  /** What comes from Lua can go back. */
  lemma {:induction false} GoesBack(lv: Lua)
    requires ToGo(lv).Some?
    ensures ToLua(ToGo(lv).value).Some?
  {
    if lv.LTable? {
      var t := lv.t;
      forall k | k in t && ToGo(t[k]).Some?
        ensures ToLua(ToGo(t[k]).value).Some?
      {
        GoesBack(t[k]);
      }
      if ListLike(t) {
        ListBack(t);
      } else {
        MapBack(t);
      }
    }
  }

  lemma ShapedIsListLike(t: map<Key, Lua>)
    requires ListShaped(t)
    ensures ListLike(t) && forall i :: 1 <= i <= |t| ==> IntKey(i) in t
  {
    forall i | 1 <= i <= |t|
      ensures IntKey(i) in t && Trunc(IntKey(i).num) == i
    {
      assert IntKey(i) in Positions(|t|);
    }
  }

  /** A table with n keys that has all of 1 to n has no others. */
  lemma FullKeys(t: map<Key, Lua>, n: nat)
    requires |t| == n && forall i :: 1 <= i <= n ==> IntKey(i) in t
    ensures t.Keys == Positions(n)
  {
    var A, B := Positions(n), t.Keys;
    forall k | k in A ensures k in B {
      assert IntKey(Trunc(k.num)) in t;
    }
    assert |B| == n && B == A + (B - A) && |B - A| == |B| - |A|;
  }

  /** One element on its way through Go. */
  lemma ListElement(t: map<Key, Lua>, i: nat)
    requires Stored(LTable(t)) && i < |t|
    ensures ToLua(GoList(t)[i]).Some?
    ensures var k, l := IntKey(i + 1), ToLua(GoList(t)[i]).value;
      if k in t && ToGo(t[k]).Some? then (l == t[k] <==> ComesBack(t[k])) else l.LNil?
  {
    var k := IntKey(i + 1);
    if k in t && ToGo(t[k]).Some? {
      GoesBack(t[k]);
    }
  }

  lemma ListGoesBack(t: map<Key, Lua>) returns (L: seq<Lua>)
    requires Stored(LTable(t))
    ensures |L| == |t| && forall i :: 0 <= i < |L| ==> ToLua(GoList(t)[i]) == Some(L[i])
    ensures ToLua(GList(GoList(t))) == Some(LTable(ListTable(L)))
  {
    forall i | 0 <= i < |t| ensures ToLua(GoList(t)[i]).Some? { ListElement(t, i); }
    L := Luas(GoList(t));
  }

  lemma ListVerdict(t: map<Key, Lua>, T: map<Key, Lua>)
    requires ListLike(t) && ToLua(GList(GoList(t))) == Some(LTable(T))
    ensures ComesBack(LTable(t)) <==> T == t
  {
    var g := GList(GoList(t));
    assert ToGo(LTable(t)) == Some(g) && ToLua(g) == Some(LTable(T));
  }

  /** A list comes back exactly when its table has the keys of a list, and its values come back. */
  lemma ListComesBack(t: map<Key, Lua>)
    requires ListLike(t) && Stored(LTable(t))
    ensures ComesBack(LTable(t)) <==> ListShaped(t) && ValuesComeBack(t)
  {
    var L := ListGoesBack(t);
    ListVerdict(t, ListTable(L));
    if ListTable(L) == t {
      ReadAsList(t, L);
    }
    if ListShaped(t) && ValuesComeBack(t) {
      WrittenAsList(t, L);
    }
  }

  predicate ValuesComeBack(t: map<Key, Lua>) {
    forall k :: k in t ==> ComesBack(t[k])
  }

  lemma ReadAt(t: map<Key, Lua>, L: seq<Lua>, i: nat)
    requires Stored(LTable(t)) && i < |L| == |t| && ToLua(GoList(t)[i]) == Some(L[i]) && !L[i].LNil?
    requires ListTable(L) == t
    ensures IntKey(i + 1) in t && ComesBack(t[IntKey(i + 1)])
  {
    ListGet(L, i);
    ListElement(t, i);
  }

  /** What holds at 1 to n holds of all n entries. */
  lemma AllEntries(t: map<Key, Lua>, holds: Lua -> bool)
    requires forall i :: 1 <= i <= |t| ==> IntKey(i) in t && holds(t[IntKey(i)])
    ensures t.Keys == Positions(|t|) && forall k :: k in t ==> holds(t[k])
  {
    FullKeys(t, |t|);
    forall k | k in t ensures holds(t[k]) {
      assert k in Positions(|t|) && k == IntKey(Trunc(k.num));
    }
  }

  /** Every element that has been read comes back. */
  lemma ReadAll(t: map<Key, Lua>, L: seq<Lua>)
    requires Stored(LTable(t)) && |L| == |t| && forall i :: 0 <= i < |L| ==> ToLua(GoList(t)[i]) == Some(L[i])
    requires ListTable(L) == t && forall i :: 0 <= i < |L| ==> !L[i].LNil?
    ensures forall i :: 1 <= i <= |t| ==> IntKey(i) in t && ComesBack(t[IntKey(i)])
  {
    forall i | 1 <= i <= |t|
      ensures IntKey(i) in t && ComesBack(t[IntKey(i)])
    {
      ReadAt(t, L, i - 1);
    }
  }

  lemma ReadAsList(t: map<Key, Lua>, L: seq<Lua>)
    requires Stored(LTable(t)) && |L| == |t| > 0 && forall i :: 0 <= i < |L| ==> ToLua(GoList(t)[i]) == Some(L[i])
    requires ListTable(L) == t
    ensures ListShaped(t) && ValuesComeBack(t)
  {
    ListCount(L);
    ReadAll(t, L);
    Shaped(t);
  }

  lemma Shaped(t: map<Key, Lua>)
    requires |t| > 0 && forall i :: 1 <= i <= |t| ==> IntKey(i) in t && ComesBack(t[IntKey(i)])
    ensures ListShaped(t) && ValuesComeBack(t)
  {
    AllEntries(t, ComesBack);
  }

  lemma WrittenAsList(t: map<Key, Lua>, L: seq<Lua>)
    requires Stored(LTable(t)) && |L| == |t| && forall i :: 0 <= i < |L| ==> ToLua(GoList(t)[i]) == Some(L[i])
    requires ListShaped(t) && ValuesComeBack(t)
    ensures ListTable(L) == t
  {
    ShapedIsListLike(t);
    forall i | 0 <= i < |L|
      ensures Elem(t, L, i)
    {
      assert IntKey(i + 1) in t;
      assert ComesBack(t[IntKey(i + 1)]);
      ListElement(t, i);
    }
    ShapedTable(t, L);
  }

  predicate Elem(t: map<Key, Lua>, L: seq<Lua>, i: nat)
    requires i < |L|
  {
    IntKey(i + 1) in t && L[i] == t[IntKey(i + 1)] && !L[i].LNil?
  }

  /** The table of a list is determined by its elements. */
  lemma ShapedTable(t: map<Key, Lua>, L: seq<Lua>)
    requires ListShaped(t) && |L| == |t|
    requires forall i :: 0 <= i < |L| ==> Elem(t, L, i)
    ensures ListTable(L) == t
  {
    var T := ListTable(L);
    forall i | 0 <= i < |L| ensures !L[i].LNil? { assert Elem(t, L, i); }
    ListCount(L);
    forall i | 1 <= i <= |t|
      ensures IntKey(i) in T && T[IntKey(i)] == t[IntKey(i)]
    {
      ListGet(L, i - 1);
      assert Elem(t, L, i - 1);
    }
    FullKeys(T, |t|);
    forall k | k in t ensures T[k] == t[k] {
      assert k in Positions(|t|) && k == IntKey(Trunc(k.num));
    }
  }

  /** A table read as a map comes back exactly when it has string keys only, and its values come back. */
  lemma MapComesBack(t: map<Key, Lua>)
    requires !ListLike(t) && Stored(LTable(t))
    ensures ComesBack(LTable(t)) <==> MapShaped(t) && ValuesComeBack(t)
  {
    if forall k :: k in t ==> k.KStr? && ToGo(t[k]).Some? {
      var M := MapGoesBack(t);
      SameStrings(t, M);
    }
  }

  /** One entry on its way through Go. */
  lemma EntryElement(lv: Lua)
    requires ToGo(lv).Some? && !lv.LNil?
    ensures ToLua(ToGo(lv).value).Some? && !ToLua(ToGo(lv).value).value.LNil?
    ensures ToLua(ToGo(lv).value).value == lv <==> ComesBack(lv)
  {
    GoesBack(lv);
    OnlyNil(ToGo(lv).value);
  }

  /** The entry under `s` survives in `M` exactly when it comes back. */
  predicate Entry(t: map<Key, Lua>, M: map<string, Lua>, s: string) {
    s in M && KStr(s) in t && !M[s].LNil? && (M[s] == t[KStr(s)] <==> ComesBack(t[KStr(s)]))
  }

  lemma GoMapEntries(t: map<Key, Lua>)
    requires forall k :: k in t ==> k.KStr? && ToGo(t[k]).Some?
    ensures forall s :: s in GoMap(t) <==> KStr(s) in t
    ensures forall s :: s in GoMap(t) ==> ToGo(t[KStr(s)]) == Some(GoMap(t)[s])
  {
    assert forall s :: KStr(s) in t ==> s in StrKeys(t);
  }

  lemma MapEntries(t: map<Key, Lua>, m: map<string, Go>) returns (M: map<string, Lua>)
    requires Stored(LTable(t)) && forall s :: s in m <==> KStr(s) in t
    requires forall s :: s in m ==> ToGo(t[KStr(s)]) == Some(m[s])
    ensures ToLua(GMap(m)) == Some(LTable(StrTable(M))) && M.Keys == m.Keys && forall s :: s in M ==> Entry(t, M, s)
  {
    forall s | s in m
      ensures ToLua(m[s]).Some? && !ToLua(m[s]).value.LNil? && (ToLua(m[s]).value == t[KStr(s)] <==> ComesBack(t[KStr(s)]))
    {
      EntryElement(t[KStr(s)]);
    }
    M := LuaMap(m);
  }

  lemma MapGoesBack(t: map<Key, Lua>) returns (M: map<string, Lua>)
    requires !ListLike(t) && Stored(LTable(t)) && forall k :: k in t ==> k.KStr? && ToGo(t[k]).Some?
    ensures ToLua(ToGo(LTable(t)).value) == Some(LTable(StrTable(M)))
    ensures (forall s :: s in M <==> KStr(s) in t) && forall s :: s in M ==> Entry(t, M, s)
  {
    GoMapEntries(t);
    var m := GoMap(t);
    M := MapEntries(t, m);
    ReadAsMap(t);
  }

  lemma ReadAsMap(t: map<Key, Lua>)
    requires !ListLike(t) && forall k :: k in t ==> k.KStr? && ToGo(t[k]).Some?
    ensures ToGo(LTable(t)) == Some(GMap(GoMap(t)))
  {
  }

  lemma SameStrings(t: map<Key, Lua>, M: map<string, Lua>)
    requires MapShaped(t) && (forall s :: s in M <==> KStr(s) in t) && forall s :: s in M ==> Entry(t, M, s)
    ensures StrTable(M) == t <==> ValuesComeBack(t)
  {
    StrTableIs(M);
    assert forall k :: k in t ==> k == KStr(k.s) && k.s in M;
    assert forall s :: s in M ==> StrTable(M)[KStr(s)] == M[s];
  }

  /** A Lua value that stores no nil comes back from Go unchanged exactly when it is nil, a boolean, a
      number or a string, or a table with exactly the keys 1 to n or with string keys only whose values
      all come back. */
  lemma {:induction false} ComesBackExactlyWhen(lv: Lua)
    requires Stored(lv)
    ensures ComesBack(lv) <==> Lossless(lv)
  {
    if lv.LTable? {
      var t := lv.t;
      forall k | k in t
        ensures ComesBack(t[k]) <==> Lossless(t[k])
      {
        ComesBackExactlyWhen(t[k]);
      }
      if ListLike(t) {
        ListComesBack(t);
        NotBoth(t);
      } else {
        MapComesBack(t);
        if ListShaped(t) {
          ShapedIsListLike(t);
        }
      }
    }
  }

  lemma NotBoth(t: map<Key, Lua>)
    requires ListLike(t)
    ensures !MapShaped(t)
  {
  }

  // ----- the conversions themselves

  /** Fills a table in a loop, for lists and maps alike. */
  method GoToLuaValue(v: Go) returns (r: Option<Lua>)
    ensures r == ToLua(v)
    decreases v, 1
  {
    match v {
      case GNil => return Some(LNil);
      case GBool(b) => return Some(LBool(b));
      case GInt(i) => return Some(LNum(i as real));
      case GInt64(i) => return Some(LNum(i as real));
      case GFloat(f) => return Some(LNum(f));
      case GStr(s) => return Some(LStr(s));
      case GList(es) => r := ListToTable(es);
      case GMap(m) => r := MapToTable(m);
      case GOther => return None;
    }
  }

  method ListToTable(es: seq<Go>) returns (r: Option<Lua>)
    ensures r == ToLua(GList(es))
    decreases GList(es), 0
  {
    var tbl: map<Key, Lua> := map[];
    var i := 0;
    while i < |es|
      invariant 0 <= i <= |es| && forall j :: 0 <= j < i ==> ToLua(es[j]).Some?
      invariant tbl == ListTable(Luas(es[..i]))
    {
      var lv := GoToLuaValue(es[i]);
      if lv.None? {
        return None;
      }
      TableMore(es, i);
      tbl := RawSet(tbl, IntKey(i + 1), lv.value);
      i := i + 1;
    }
    assert es[..i] == es;
    r := Some(LTable(tbl));
  }

  lemma TableMore(es: seq<Go>, i: nat)
    requires i < |es| && forall j :: 0 <= j <= i ==> ToLua(es[j]).Some?
    ensures ListTable(Luas(es[..i + 1])) == RawSet(ListTable(Luas(es[..i])), IntKey(i + 1), ToLua(es[i]).value)
  {
    var ls, front := Luas(es[..i + 1]), Luas(es[..i]);
    assert |ls| == i + 1 && ls[i] == ToLua(es[i]).value;
    assert ls[..i] == front;
  }

  /** The table of the part of a map that has been converted. */
  ghost predicate Partly(tbl: map<Key, Lua>, m: map<string, Go>, todo: set<string>) {
    && (forall k :: k in tbl ==> k.KStr? && k.s in m && k.s !in todo && ToLua(m[k.s]) == Some(tbl[k]))
    && (forall s :: s in m && s !in todo ==> ToLua(m[s]).Some? && (KStr(s) in tbl <==> !ToLua(m[s]).value.LNil?))
  }

  lemma OneMore(tbl: map<Key, Lua>, m: map<string, Go>, todo: set<string>, k: string, lv: Lua)
    requires Partly(tbl, m, todo) && k in todo && k in m && ToLua(m[k]) == Some(lv)
    ensures Partly(RawSet(tbl, KStr(k), lv), m, todo - {k})
  {
  }

  lemma AllDone(tbl: map<Key, Lua>, m: map<string, Go>)
    requires Partly(tbl, m, {})
    ensures ToLua(GMap(m)) == Some(LTable(tbl))
  {
    assert tbl == StrTable(LuaMap(m));
  }

  method MapToTable(m: map<string, Go>) returns (r: Option<Lua>)
    ensures r == ToLua(GMap(m))
    decreases GMap(m), 0
  {
    var tbl: map<Key, Lua> := map[];
    var todo := m.Keys;
    while todo != {}
      invariant todo <= m.Keys && Partly(tbl, m, todo)
      decreases todo
    {
      var k :| k in todo;
      var lv := GoToLuaValue(m[k]);
      if lv.None? {
        return None;
      }
      OneMore(tbl, m, todo, k, lv.value);
      tbl := RawSet(tbl, KStr(k), lv.value);
      todo := todo - {k};
    }
    AllDone(tbl, m);
    r := Some(LTable(tbl));
  }

  /** `max` and `count` over the keys of a table. */
  method Measure(t: map<Key, Lua>) returns (max: int, count: nat)
    ensures count == |t|
    ensures max > 0 && max == count <==> ListLike(t)
  {
    max, count := 0, 0;
    var todo := t.Keys;
    while todo != {}
      invariant todo <= t.Keys && count + |todo| == |t|
      invariant max >= 0 && forall k :: k in t && k !in todo && k.KNum? ==> Trunc(k.num) <= max
      invariant max > 0 ==> exists k :: k in t && k.KNum? && Trunc(k.num) == max
      decreases todo
    {
      var k :| k in todo;
      count := count + 1;
      if k.KNum? {
        var n := Trunc(k.num);
        if n > max {
          max := n;
        }
      }
      todo := todo - {k};
    }
  }

  method LuaValueToGo(lv: Lua) returns (r: Option<Go>)
    ensures r == ToGo(lv)
    decreases lv, 1
  {
    match lv {
      case LNil => return Some(GNil);
      case LBool(b) => return Some(GBool(b));
      case LNum(n) => return Some(GFloat(n));
      case LStr(s) => return Some(GStr(s));
      case LTable(t) =>
        var max, count := Measure(t);
        if max > 0 && max == count {
          r := TableToList(t, max);
        } else {
          r := TableToMap(t);
        }
      case LOther => return None;
    }
  }

  method TableToList(t: map<Key, Lua>, max: int) returns (r: Option<Go>)
    requires ListLike(t) && max == |t|
    ensures r == ToGo(LTable(t))
    decreases LTable(t), 0
  {
    var out: seq<Go> := [];
    var i := 1;
    while i <= max
      invariant 1 <= i <= max + 1 && out == GoList(t)[..i - 1]
    {
      var gv: Option<Go> := Some(GNil);
      if IntKey(i) in t {
        gv := LuaValueToGo(t[IntKey(i)]);
      }
      out := out + [if gv.Some? then gv.value else GNil];
      i := i + 1;
    }
    assert out == GoList(t);
    r := Some(GList(out));
  }

  predicate Converts(t: map<Key, Lua>, k: Key) {
    k in t && k.KStr? && ToGo(t[k]).Some?
  }

  /** The part of a table that has been read as a map. */
  ghost predicate Read(out: map<string, Go>, t: map<Key, Lua>, todo: set<Key>) {
    && (forall k :: k in t && k !in todo ==> Converts(t, k) && k.s in out)
    && (forall s :: s in out ==> KStr(s) in t && KStr(s) !in todo && ToGo(t[KStr(s)]) == Some(out[s]))
  }

  lemma ReadMore(out: map<string, Go>, t: map<Key, Lua>, todo: set<Key>, k: Key, g: Go)
    requires Read(out, t, todo) && k in todo && k in t && k.KStr? && ToGo(t[k]) == Some(g)
    ensures Read(out[k.s := g], t, todo - {k})
  {
    assert k == KStr(k.s);
  }

  lemma AllRead(out: map<string, Go>, t: map<Key, Lua>)
    requires !ListLike(t) && Read(out, t, {})
    ensures ToGo(LTable(t)) == Some(GMap(out))
  {
    assert forall k :: k in t ==> Converts(t, k);
    assert forall s :: s in StrKeys(t) <==> KStr(s) in t;
    assert out == GoMap(t);
    ReadAsMap(t);
  }

  method TableToMap(t: map<Key, Lua>) returns (r: Option<Go>)
    requires !ListLike(t)
    ensures r == ToGo(LTable(t))
    decreases LTable(t), 0
  {
    var out: map<string, Go> := map[];
    var failed := false;
    var todo := t.Keys;
    while todo != {}
      invariant todo <= t.Keys
      invariant failed ==> exists k :: k in t && !Converts(t, k)
      invariant !failed ==> Read(out, t, todo)
      decreases todo
    {
      var k :| k in todo;
      if !failed {
        if !k.KStr? {
          failed := true;
        } else {
          var gv := LuaValueToGo(t[k]);
          if gv.None? {
            failed := true;
          } else {
            ReadMore(out, t, todo, k, gv.value);
            out := out[k.s := gv.value];
          }
        }
        assert failed ==> !Converts(t, k);
      }
      todo := todo - {k};
    }
    if failed {
      return None;
    }
    AllRead(out, t);
    r := Some(GMap(out));
  }

  /** A table with a gap and a string key can pass for a list: the gap becomes nil and the entry under
      the string key is lost. */
  lemma MixedTableAsList(s: string, x: Lua, y: Lua)
    ensures ToGo(LTable(map[IntKey(2) := x, KStr(s) := y])) == Some(GList([GNil, OrNil(ToGo(x))]))
  {
    var t := map[IntKey(2) := x, KStr(s) := y];
    MixedIsListLike(t, s);
    ToGoList(t, 1);
    assert !(IntKey(1) in t);
    assert GoList(t) == [GNil, OrNil(ToGo(x))];
  }

  lemma MixedIsListLike(t: map<Key, Lua>, s: string)
    requires t.Keys == {IntKey(2), KStr(s)}
    ensures ListLike(t) && |t| == 2
  {
    assert |t| == |t.Keys|;
    assert Trunc(IntKey(2).num) == 2;
  }

  // ----- single values

  /** All numbers become Lua numbers of the same value; the other scalars stay what they are. */
  lemma ScalarsToLua(i: int, b: bool, s: string)
    ensures ToLua(GInt(i)) == ToLua(GInt64(i)) == ToLua(GFloat(i as real)) == Some(LNum(i as real))
    ensures ToLua(GBool(b)) == Some(LBool(b)) && ToLua(GStr(s)) == Some(LStr(s)) && ToLua(GNil) == Some(LNil)
  {
  }

  /** An unsupported type somewhere inside. */
  predicate Unsupported(v: Go) {
    match v
    case GOther => true
    case GList(es) => exists i :: 0 <= i < |es| && Unsupported(es[i])
    case GMap(m) => exists k :: k in m && Unsupported(m[k])
    case _ => false
  }

  /** It makes the whole conversion fail, and nothing else does. */
  lemma {:induction false} FailsExactlyWhen(v: Go)
    ensures ToLua(v) == None <==> Unsupported(v)
  {
    match v {
      case GList(es) =>
        forall i | 0 <= i < |es|
          ensures ToLua(es[i]) == None <==> Unsupported(es[i])
        {
          FailsExactlyWhen(es[i]);
        }
      case GMap(m) =>
        forall k | k in m
          ensures ToLua(m[k]) == None <==> Unsupported(m[k])
        {
          FailsExactlyWhen(m[k]);
        }
      case _ =>
    }
  }

  /** The entries of a converted container are its converted elements, under the positions from 1 on, or
      under the keys, except that nil is not stored. */
  lemma ConvertedEntries(es: seq<Go>, m: map<string, Go>, i: nat, k: string)
    requires !Unsupported(GList(es)) && !Unsupported(GMap(m)) && i < |es| && k in m
    ensures ToLua(GList(es)).Some? && ToLua(GList(es)).value.LTable? && ToLua(GMap(m)).Some? && ToLua(GMap(m)).value.LTable?
    ensures ToLua(es[i]) == Some(RawGet(ToLua(GList(es)).value.t, IntKey(i + 1)))
    ensures ToLua(m[k]) == Some(RawGet(ToLua(GMap(m)).value.t, KStr(k)))
  {
    FailsExactlyWhen(GList(es));
    FailsExactlyWhen(GMap(m));
    ListGet(Luas(es), i);
  }

  function RawGet(t: map<Key, Lua>, k: Key): Lua {
    if k in t then t[k] else LNil
  }
}
