/** The content cache of one file node, used by any number of threads at once: `fetchData` with its
    double-checked locking, and `Write`, which runs its handler outside the lock. Every interleaving of
    their steps is a sequence of actions; an action's time is its position in that sequence. */
module FuseCache {
  import opened Wrappers

  type Id = nat

  /** Which cached query runs on the node: the file content, with or without a read handler registered
      for its path, or the directory listing of `getListEntries`, which locks and caches the same way but
      keeps every reply and is never invalidated. */
  datatype Mode = File(hasRead: bool) | Listing {
    predicate Reads() {
      Listing? || hasRead
    }
  }

  /** What a fetch returns: the text and the error; `listed` is set once a listing has been stored. */
  datatype Outcome = Outcome(data: string, err: Option<string>, listed: bool)

  /** The handler's reply: a text, or an error. */
  datatype Reply = Data(text: string) | Failed(msg: string) {
    /** For a file every error that speaks of a missing handler means that there is none. */
    predicate NoHandler() {
      Failed? && Says(msg, NO_HANDLER)
    }
  }

  const NO_HANDLER := "no handler registered"

  /** `strings.Contains(msg, phrase)`. */
  predicate Says(msg: string, phrase: string) {
    phrase <= msg || (msg != "" && Says(msg[1..], phrase))
  }

  function OutcomeOf(m: Mode, r: Reply): Outcome {
    match r
    case Data(t) => Outcome(t, None, m.Listing?)
    case Failed(msg) => Outcome("", if m.Listing? || !r.NoHandler() then Some(msg) else None, m.Listing?)
  }

  /** The cache counts as filled when it holds text, an error or a listing. */
  predicate Full(o: Outcome) {
    o.data != "" || o.err.Some? || o.listed
  }

  const EMPTY := Outcome("", None, false)

  /** Where a value comes from: a read-handler call that began at `begin`, or a write's update. */
  datatype Source = Initial | FromCall(begin: nat) | FromUpdate(update: nat)

  /** How far an operation has come. `at` is the time it started. */
  datatype Op =
    | FStart(at: nat)
    | FReading(at: nat)                                  // holds the read lock
    | FCopied(at: nat, o: Outcome, src: Source)          // has copied the cache, holds the read lock
    | FMissed(at: nat)                                   // has found the cache empty
    | FLocked(at: nat)                                   // holds the write lock
    | FMust(at: nat)                                     // has found it empty again
    | FCalling(at: nat, begin: nat)                      // is inside the read handler
    | FReplied(at: nat, begin: nat, reply: Reply)
    | FReady(at: nat, o: Outcome, src: Source)           // has its result, holds the write lock
    | FDone(at: nat, o: Outcome, src: Source)
    | WStart(at: nat)                                    // is inside the write handler
    | WHandled(at: nat, ended: nat, resp: string)        // the write handler ended at `ended`
    | WLocked(at: nat, ended: nat, resp: string)         // holds the write lock
    | WUpdated(at: nat, ended: nat, resp: string, update: nat)
    | WDone(at: nat, ended: nat, resp: string, update: nat)
    | WFailed(at: nat)

  datatype Action =
    | StartFetch(id: Id) | RLock(id: Id) | Copy(id: Id) | RUnlock(id: Id)
    | Lock(id: Id) | Check(id: Id) | CallRead(id: Id) | ReplyRead(id: Id, reply: Reply) | Store(id: Id) | ReturnFetch(id: Id)
    | StartWrite(id: Id) | ReplyWrite(id: Id, resp: Option<string>) | LockWrite(id: Id) | Update(id: Id) | ReturnWrite(id: Id)

  /** The node: its cached fields, the read-write mutex, the operations, and the time. */
  datatype State = State(cache: Outcome, src: Source, readers: set<Id>, writer: Option<Id>, ops: map<Id, Op>, now: nat)

  const INIT := State(EMPTY, Initial, {}, None, map[], 0)

  function Move(s: State, id: Id, op: Op): State {
    s.(ops := s.ops[id := op])
  }

  /** One step of one thread; `None` when the thread cannot take it now. */
  function Step(m: Mode, s: State, a: Action): Option<State> {
    var id := a.id;
    if id !in s.ops then
      match a
      case StartFetch(_) => Some(Move(s, id, FStart(s.now)))
      case StartWrite(_) => if m.Listing? then None else Some(Move(s, id, WStart(s.now)))
      case _ => None
    else
      match (a, s.ops[id])
      case (RLock(_), FStart(at)) =>
        if s.writer.Some? then None
        else Some(Move(s, id, FReading(at)).(readers := s.readers + {id}))
      case (Copy(_), FReading(at)) => Some(Move(s, id, FCopied(at, s.cache, s.src)))
      case (RUnlock(_), FCopied(at, o, src)) =>
        Some(Move(s, id, if Full(o) then FDone(at, o, src) else FMissed(at)).(readers := s.readers - {id}))
      case (Lock(_), FMissed(at)) =>
        if s.writer.Some? || s.readers != {} then None
        else Some(Move(s, id, FLocked(at)).(writer := Some(id)))
      case (Check(_), FLocked(at)) =>
        Some(Move(s, id, if Full(s.cache) then FReady(at, s.cache, s.src) else FMust(at)))
      case (CallRead(_), FMust(at)) => Some(Move(s, id, FCalling(at, s.now)))
      case (ReplyRead(_, reply), FCalling(at, begin)) =>
        if !m.Reads() && !reply.NoHandler() then None
        else Some(Move(s, id, FReplied(at, begin, reply)))
      case (Store(_), FReplied(at, begin, reply)) =>
        var src := if m.Reads() then FromCall(begin) else s.src;
        var s' := Move(s, id, FReady(at, OutcomeOf(m, reply), src));
        if m.Listing? then Some(s'.(cache := OutcomeOf(m, reply), src := src))
        else if reply.NoHandler() then Some(s'.(cache := s.cache.(err := None)))
        else if reply.Failed? then Some(s'.(cache := s.cache.(err := Some(reply.msg)), src := src))
        else Some(s'.(cache := s.cache.(data := reply.text), src := src))
      case (ReturnFetch(_), FReady(at, o, src)) => Some(Move(s, id, FDone(at, o, src)).(writer := None))
      case (ReplyWrite(_, resp), WStart(at)) =>
        Some(Move(s, id, if resp.None? then WFailed(at) else WHandled(at, s.now, resp.value)))
      case (LockWrite(_), WHandled(at, ended, resp)) =>
        if s.writer.Some? || s.readers != {} then None
        else Some(Move(s, id, WLocked(at, ended, resp)).(writer := Some(id)))
      case (Update(_), WLocked(at, ended, resp)) =>
        Some(Move(s, id, WUpdated(at, ended, resp, s.now)).(
          cache := if m.Reads() then EMPTY else Outcome(resp, None, false), src := FromUpdate(s.now)))
      case (ReturnWrite(_), WUpdated(at, ended, resp, update)) =>
        Some(Move(s, id, WDone(at, ended, resp, update)).(writer := None))
      case _ => None
  }

  /** The state after a sequence of actions; `None` when it is not a possible run. */
  function Run(m: Mode, acts: seq<Action>): Option<State> {
    if acts == [] then Some(INIT)
    else
      match Run(m, acts[..|acts| - 1])
      case None => None
      case Some(s) =>
        match Step(m, s, acts[|acts| - 1])
        case None => None
        case Some(s') => Some(s'.(now := s.now + 1))
  }

  // ----- the invariant

  predicate HoldsWrite(op: Op) {
    op.FLocked? || op.FMust? || op.FCalling? || op.FReplied? || op.FReady? || op.WLocked? || op.WUpdated?
  }

  predicate HoldsRead(op: Op) {
    op.FReading? || op.FCopied?
  }

  /** The mutex is held by exactly the operations that have locked it. */
  ghost predicate Locking(s: State) {
    && (forall id :: id in s.ops && HoldsWrite(s.ops[id]) <==> s.writer == Some(id))
    && (forall id :: id in s.ops && HoldsRead(s.ops[id]) <==> id in s.readers)
    && (s.writer.Some? ==> s.readers == {})
  }

  predicate IsFetch(op: Op) {
    !(op.WStart? || op.WHandled? || op.WLocked? || op.WUpdated? || op.WDone? || op.WFailed?)
  }

  predicate HasUpdated(op: Op) {
    op.WUpdated? || op.WDone?
  }

  /** `src` is newer than every update made before time `t`: with a read handler, the call began after
      the updating write's handler had ended; without one, the update is no older. */
  ghost predicate Newer(m: Mode, s: State, src: Source, t: nat) {
    forall id :: id in s.ops && HasUpdated(s.ops[id]) && s.ops[id].update < t ==>
      if m.Reads() then src.FromCall? && s.ops[id].ended < src.begin
      else src.FromUpdate? && s.ops[id].update <= src.update
  }

  /** What an operation knows about its own times and result. */
  ghost predicate OpOk(m: Mode, s: State, op: Op) {
    && op.at < s.now && (m.Listing? ==> IsFetch(op))
    && (op.FCopied? && Full(op.o) ==> Newer(m, s, op.src, op.at))
    && (op.FReady? || op.FDone? ==> Newer(m, s, op.src, op.at))
    && (op.FCalling? || op.FReplied? ==> op.begin < s.now && (m.Reads() ==> Newer(m, s, FromCall(op.begin), s.now)))
    && (op.FReplied? && !m.Reads() ==> op.reply.NoHandler())
    && (op.FMust? || op.FCalling? || op.FReplied? ==> s.cache == EMPTY)
    && (op.WHandled? || op.WLocked? ==> op.ended < s.now)
    && (HasUpdated(op) ==> op.ended < op.update < s.now)
  }

  ghost predicate Inv(m: Mode, s: State) {
    && Locking(s)
    && (forall id :: id in s.ops ==> OpOk(m, s, s.ops[id]))
    && (Full(s.cache) || !m.Reads() ==> Newer(m, s, s.src, s.now))
  }

  function After(m: Mode, s: State, a: Action): State
    requires Step(m, s, a).Some?
  {
    Step(m, s, a).value.(now := s.now + 1)
  }

  lemma LockingKept(m: Mode, s: State, a: Action)
    requires Locking(s) && Step(m, s, a).Some?
    ensures Locking(After(m, s, a))
  {
    var s' := After(m, s, a);
    forall id | id != a.id
      ensures id in s'.ops && HoldsWrite(s'.ops[id]) <==> s'.writer == Some(id)
      ensures id in s'.ops && HoldsRead(s'.ops[id]) <==> id in s'.readers
    {
      assert id in s'.ops <==> id in s.ops;
    }
  }

  /** A step makes no update older than the present one, so what was newer than all past updates stays so. */
  lemma NewerKept(m: Mode, s: State, a: Action, src: Source, t: nat)
    requires Step(m, s, a).Some? && t <= s.now && Newer(m, s, src, t)
    ensures Newer(m, After(m, s, a), src, t)
    ensures !a.Update? && t == s.now && (forall id :: id in s.ops ==> OpOk(m, s, s.ops[id]))
      ==> Newer(m, After(m, s, a), src, t + 1)
  {
    var s' := After(m, s, a);
    forall id | id in s'.ops && HasUpdated(s'.ops[id])
      ensures
        || (a.Update? && id == a.id && s'.ops[id].update == s.now)
        || (id in s.ops && HasUpdated(s.ops[id]) && s.ops[id].update == s'.ops[id].update && s.ops[id].ended == s'.ops[id].ended)
    {
    }
  }

  /** Operations that do not move keep what they know. */
  lemma OthersKept(m: Mode, s: State, a: Action, id: Id)
    requires Inv(m, s) && Step(m, s, a).Some? && id in s.ops && id != a.id
    ensures OpOk(m, After(m, s, a), s.ops[id])
  {
    var op, s' := s.ops[id], After(m, s, a);
    if (op.FCopied? && Full(op.o)) || op.FReady? || op.FDone? {
      NewerKept(m, s, a, op.src, op.at);
    }
    if (op.FCalling? || op.FReplied?) && m.Reads() {
      NewerKept(m, s, a, FromCall(op.begin), s.now);
    }
    if HoldsWrite(op) {
      assert s.writer == Some(id);
    }
  }

  /** The operation that moves learns only what is so. */
  lemma MoverOk(m: Mode, s: State, a: Action)
    requires Inv(m, s) && Step(m, s, a).Some?
    ensures OpOk(m, After(m, s, a), After(m, s, a).ops[a.id])
  {
    var s' := After(m, s, a);
    if a.id in s.ops {
      var op, op' := s.ops[a.id], s'.ops[a.id];
      assert OpOk(m, s, op);
      if a.Copy? || a.Check? {
        if Full(s.cache) { NewerAt(m, s, a, s.src, s.now, op.at); }
      } else if a.Store? {
        if m.Reads() { NewerAt(m, s, a, FromCall(op.begin), s.now, op.at); } else { NewerAt(m, s, a, s.src, s.now, op.at); }
      } else if a.CallRead? || a.ReplyRead? {
        if m.Reads() { CallIsNewer(m, s, a); }
      } else if op'.FDone? {
        NewerKept(m, s, a, op'.src, op.at);
      }
    }
  }

  lemma NewerAt(m: Mode, s: State, a: Action, src: Source, t: nat, at: nat)
    requires Step(m, s, a).Some? && at <= t <= s.now && Newer(m, s, src, t)
    ensures Newer(m, After(m, s, a), src, at)
  {
    NewerKept(m, s, a, src, at);
  }

  /** A call of the read handler begins after the handlers of all past updates have ended. */
  lemma CallIsNewer(m: Mode, s: State, a: Action)
    requires Inv(m, s) && m.Reads() && Step(m, s, a).Some? && (a.CallRead? || a.ReplyRead?)
    ensures After(m, s, a).ops[a.id].FCalling? || After(m, s, a).ops[a.id].FReplied?
    ensures Newer(m, After(m, s, a), FromCall(After(m, s, a).ops[a.id].begin), s.now + 1)
  {
    var b := After(m, s, a).ops[a.id].begin;
    if a.ReplyRead? { assert OpOk(m, s, s.ops[a.id]); }
    assert Newer(m, s, FromCall(b), s.now);
    NewerKept(m, s, a, FromCall(b), s.now);
  }

  lemma CacheKept(m: Mode, s: State, a: Action)
    requires Inv(m, s) && Step(m, s, a).Some?
    ensures var s' := After(m, s, a); Full(s'.cache) || !m.Reads() ==> Newer(m, s', s'.src, s'.now)
  {
    var s' := After(m, s, a);
    if a.Update? {
      if !m.Reads() {
        forall id | id in s'.ops && HasUpdated(s'.ops[id]) ensures s'.ops[id].update <= s.now {
          if id != a.id { assert OpOk(m, s, s.ops[id]); }
        }
      }
    } else if a.Store? && m.Reads() && s'.src != s.src {
      assert OpOk(m, s, s.ops[a.id]);
      NewerKept(m, s, a, s'.src, s.now);
    } else if Full(s.cache) || !m.Reads() {
      NewerKept(m, s, a, s.src, s.now);
    }
  }

  lemma StepInv(m: Mode, s: State, a: Action)
    requires Inv(m, s) && Step(m, s, a).Some?
    ensures Inv(m, After(m, s, a))
  {
    LockingKept(m, s, a);
    MoverOk(m, s, a);
    CacheKept(m, s, a);
    var s' := After(m, s, a);
    forall id | id in s'.ops ensures OpOk(m, s', s'.ops[id]) {
      if id != a.id { OthersKept(m, s, a, id); }
    }
  }

  // ----- what the state remembers of the run

  /** Source `src` really gave the outcome `o` in this run. */
  ghost predicate Gave(m: Mode, acts: seq<Action>, src: Source, o: Outcome) {
    match src
    case Initial => o == EMPTY
    case FromCall(b) => exists k :: Answers(acts, b, k) && o == OutcomeOf(m, acts[k].reply)
    case FromUpdate(u) => exists e :: Responds(acts, e, u) && o == Outcome(acts[e].resp.value, None, false)
  }

  /** The read-handler call begun at `b` was answered at `k`. */
  predicate Answers(acts: seq<Action>, b: nat, k: int) {
    b < k < |acts| && acts[b].CallRead? && acts[k].ReplyRead? && acts[k].id == acts[b].id
  }

  /** The write whose handler answered at `e` made the update at `u`. */
  predicate Responds(acts: seq<Action>, e: int, u: nat) {
    0 <= e < u < |acts| && acts[u].Update? && acts[e].ReplyWrite? && acts[e].resp.Some? && acts[e].id == acts[u].id
  }

  predicate HasResult(op: Op) {
    (op.FCopied? && Full(op.o)) || op.FReady? || op.FDone?
  }

  /** The times an operation remembers are those of its own actions. */
  predicate Times(acts: seq<Action>, id: Id, op: Op) {
    && op.at < |acts| && acts[op.at] == (if IsFetch(op) then StartFetch(id) else StartWrite(id))
    && (op.FCalling? || op.FReplied? ==> op.at < op.begin < |acts| && acts[op.begin] == CallRead(id))
    && (op.WHandled? || op.WLocked? || HasUpdated(op) ==>
          op.at < op.ended < |acts| && acts[op.ended] == ReplyWrite(id, Some(op.resp)))
    && (HasUpdated(op) ==> op.ended < op.update < |acts| && acts[op.update] == Update(id))
  }

  ghost predicate OpHistory(m: Mode, acts: seq<Action>, id: Id, op: Op) {
    && Times(acts, id, op)
    && (op.FReplied? ==> exists k :: Answers(acts, op.begin, k) && acts[k].reply == op.reply)
    && (HasResult(op) ==> Gave(m, acts, op.src, op.o))
  }

  ghost predicate History(m: Mode, acts: seq<Action>, s: State) {
    && s.now == |acts|
    && (forall id :: id in s.ops ==> OpHistory(m, acts, id, s.ops[id]))
    && (Full(s.cache) || !m.Reads() ==> Gave(m, acts, s.src, s.cache))
    && AllReturned(acts, s)
  }

  ghost predicate AllReturned(acts: seq<Action>, s: State) {
    forall r :: 0 <= r < |acts| && acts[r].ReturnWrite? ==> Returned(s, acts[r].id, r)
  }

  predicate Returned(s: State, w: Id, r: nat) {
    w in s.ops && s.ops[w].WDone? && s.ops[w].update < r
  }

  lemma GaveKept(m: Mode, acts: seq<Action>, a: Action, src: Source, o: Outcome)
    requires Gave(m, acts, src, o)
    ensures Gave(m, acts + [a], src, o)
  {
    match src
    case Initial =>
    case FromCall(b) =>
      var k :| Answers(acts, b, k) && o == OutcomeOf(m, acts[k].reply);
      assert Answers(acts + [a], b, k) && (acts + [a])[k] == acts[k];
    case FromUpdate(u) =>
      var e :| Responds(acts, e, u) && o == Outcome(acts[e].resp.value, None, false);
      assert Responds(acts + [a], e, u) && (acts + [a])[e] == acts[e];
  }

  lemma OpHistoryKept(m: Mode, acts: seq<Action>, a: Action, id: Id, op: Op)
    requires OpHistory(m, acts, id, op)
    ensures OpHistory(m, acts + [a], id, op)
  {
    if HasResult(op) {
      GaveKept(m, acts, a, op.src, op.o);
    }
    if op.FReplied? {
      var k :| Answers(acts, op.begin, k) && acts[k].reply == op.reply;
      assert Answers(acts + [a], op.begin, k) && (acts + [a])[k] == acts[k];
    }
  }

  /** What a call has answered. */
  lemma ReplyGave(m: Mode, acts: seq<Action>, a: Action, id: Id, op: Op)
    requires m.Reads() && op.FReplied? && OpHistory(m, acts, id, op)
    ensures Gave(m, acts + [a], FromCall(op.begin), OutcomeOf(m, op.reply))
  {
    var k :| Answers(acts, op.begin, k) && acts[k].reply == op.reply;
    assert Answers(acts + [a], op.begin, k) && (acts + [a])[k] == acts[k];
  }

  /** The result of a call is what its handler answered. */
  lemma StoreResult(m: Mode, acts: seq<Action>, s: State, a: Action)
    requires Inv(m, s) && History(m, acts, s) && Step(m, s, a).Some? && a.Store?
    ensures var op' := After(m, s, a).ops[a.id]; Gave(m, acts + [a], op'.src, op'.o)
  {
    var op := s.ops[a.id];
    assert OpOk(m, s, op) && OpHistory(m, acts, a.id, op);
    if m.Reads() {
      ReplyGave(m, acts, a, a.id, op);
    } else {
      GaveKept(m, acts, a, s.src, s.cache);
    }
  }

  /** Any other result has been copied from the cache. */
  lemma CopyResult(m: Mode, s: State, a: Action)
    requires Step(m, s, a).Some? && !a.Store? && HasResult(After(m, s, a).ops[a.id])
    ensures a.id in s.ops
    ensures var op, op' := s.ops[a.id], After(m, s, a).ops[a.id];
      if HasResult(op) then op'.o == op.o && op'.src == op.src else op'.o == s.cache && op'.src == s.src && (Full(s.cache) || !m.Reads())
  {
  }

  lemma MoverGave(m: Mode, acts: seq<Action>, s: State, a: Action)
    requires Inv(m, s) && History(m, acts, s) && Step(m, s, a).Some?
    requires HasResult(After(m, s, a).ops[a.id])
    ensures var op' := After(m, s, a).ops[a.id]; Gave(m, acts + [a], op'.src, op'.o)
  {
    if a.Store? {
      StoreResult(m, acts, s, a);
    } else {
      CopyResult(m, s, a);
      var op := s.ops[a.id];
      assert OpHistory(m, acts, a.id, op);
      if HasResult(op) {
        GaveKept(m, acts, a, op.src, op.o);
      } else {
        GaveKept(m, acts, a, s.src, s.cache);
      }
    }
  }

  lemma TimesKept(acts: seq<Action>, a: Action, id: Id, op: Op)
    requires Times(acts, id, op)
    ensures Times(acts + [a], id, op)
  {
  }

  lemma MoverTimes(m: Mode, acts: seq<Action>, s: State, a: Action)
    requires s.now == |acts| && Step(m, s, a).Some?
    requires a.id in s.ops ==> Times(acts, a.id, s.ops[a.id])
    ensures Times(acts + [a], a.id, After(m, s, a).ops[a.id])
  {
    assert (acts + [a])[|acts|] == a;
    if a.id in s.ops {
      TimesKept(acts, a, a.id, s.ops[a.id]);
      if IsFetch(s.ops[a.id]) {
        FetchTimes(m, acts + [a], s, a);
      } else {
        WriteTimes(m, acts + [a], s, a);
      }
    }
  }

  lemma FetchTimes(m: Mode, all: seq<Action>, s: State, a: Action)
    requires Step(m, s, a).Some? && a.id in s.ops && IsFetch(s.ops[a.id])
    requires s.now < |all| && all[s.now] == a && Times(all, a.id, s.ops[a.id]) && s.ops[a.id].at < s.now
    ensures Times(all, a.id, After(m, s, a).ops[a.id])
  {
  }

  lemma WriteTimes(m: Mode, all: seq<Action>, s: State, a: Action)
    requires Step(m, s, a).Some? && a.id in s.ops && !IsFetch(s.ops[a.id])
    requires s.now < |all| && all[s.now] == a && Times(all, a.id, s.ops[a.id])
    requires var op := s.ops[a.id]; op.at < s.now && (op.WHandled? || op.WLocked? ==> op.ended < s.now)
    ensures Times(all, a.id, After(m, s, a).ops[a.id])
  {
  }

  lemma MoverHistory(m: Mode, acts: seq<Action>, s: State, a: Action)
    requires Inv(m, s) && History(m, acts, s) && Step(m, s, a).Some?
    ensures OpHistory(m, acts + [a], a.id, After(m, s, a).ops[a.id])
  {
    assert a.id in s.ops ==> OpHistory(m, acts, a.id, s.ops[a.id]);
    MoverTimes(m, acts, s, a);
    var op' := After(m, s, a).ops[a.id];
    if HasResult(op') {
      MoverGave(m, acts, s, a);
    }
    if op'.FReplied? {
      assert Answers(acts + [a], op'.begin, |acts|) && (acts + [a])[|acts|] == a;
    }
  }

  lemma UpdateGave(m: Mode, acts: seq<Action>, s: State, a: Action)
    requires Inv(m, s) && History(m, acts, s) && Step(m, s, a).Some? && a.Update? && !m.Reads()
    ensures Gave(m, acts + [a], After(m, s, a).src, After(m, s, a).cache)
  {
    assert OpHistory(m, acts, a.id, s.ops[a.id]);
    assert Responds(acts + [a], s.ops[a.id].ended, |acts|);
  }

  lemma StoreGave(m: Mode, acts: seq<Action>, s: State, a: Action)
    requires Inv(m, s) && History(m, acts, s) && Step(m, s, a).Some? && a.Store?
    ensures var s' := After(m, s, a); Full(s'.cache) || !m.Reads() ==> Gave(m, acts + [a], s'.src, s'.cache)
  {
    assert OpOk(m, s, s.ops[a.id]);
    MoverGave(m, acts, s, a);
  }

  lemma CacheHistory(m: Mode, acts: seq<Action>, s: State, a: Action)
    requires Inv(m, s) && History(m, acts, s) && Step(m, s, a).Some?
    ensures var s' := After(m, s, a); Full(s'.cache) || !m.Reads() ==> Gave(m, acts + [a], s'.src, s'.cache)
  {
    if a.Update? {
      if !m.Reads() {
        UpdateGave(m, acts, s, a);
      }
    } else if a.Store? {
      StoreGave(m, acts, s, a);
    } else {
      CacheStays(m, s, a);
      if Full(s.cache) || !m.Reads() {
        GaveKept(m, acts, a, s.src, s.cache);
      }
    }
  }

  lemma CacheStays(m: Mode, s: State, a: Action)
    requires Step(m, s, a).Some? && !a.Update? && !a.Store?
    ensures After(m, s, a).cache == s.cache && After(m, s, a).src == s.src
  {
  }

  lemma ReturnedStays(m: Mode, s: State, a: Action, w: Id, r: nat)
    requires Step(m, s, a).Some? && Returned(s, w, r)
    ensures Returned(After(m, s, a), w, r)
  {
  }

  lemma ReturnedKept(m: Mode, acts: seq<Action>, s: State, a: Action)
    requires Inv(m, s) && s.now == |acts| && AllReturned(acts, s) && Step(m, s, a).Some?
    ensures AllReturned(acts + [a], After(m, s, a))
  {
    var all := acts + [a];
    forall r | 0 <= r < |all| && all[r].ReturnWrite?
      ensures Returned(After(m, s, a), all[r].id, r)
    {
      if r < |acts| {
        assert all[r] == acts[r] && Returned(s, acts[r].id, r);
        ReturnedStays(m, s, a, acts[r].id, r);
      } else {
        assert OpOk(m, s, s.ops[a.id]);
      }
    }
  }

  lemma OtherHistory(m: Mode, acts: seq<Action>, s: State, a: Action, id: Id)
    requires History(m, acts, s) && Step(m, s, a).Some? && id != a.id && id in After(m, s, a).ops
    ensures OpHistory(m, acts + [a], id, After(m, s, a).ops[id])
  {
    assert id in s.ops && After(m, s, a).ops[id] == s.ops[id];
    OpHistoryKept(m, acts, a, id, s.ops[id]);
  }

  lemma HistoryKept(m: Mode, acts: seq<Action>, s: State, a: Action)
    requires Inv(m, s) && History(m, acts, s) && Step(m, s, a).Some?
    ensures History(m, acts + [a], After(m, s, a))
  {
    MoverHistory(m, acts, s, a);
    CacheHistory(m, acts, s, a);
    ReturnedKept(m, acts, s, a);
    var s' := After(m, s, a);
    forall id | id in s'.ops
      ensures OpHistory(m, acts + [a], id, s'.ops[id])
    {
      if id != a.id {
        OtherHistory(m, acts, s, a, id);
      }
    }
  }

  lemma {:induction false} RunInv(m: Mode, acts: seq<Action>)
    requires Run(m, acts).Some?
    ensures Inv(m, Run(m, acts).value) && History(m, acts, Run(m, acts).value)
  {
    if acts != [] {
      var before, a := acts[..|acts| - 1], acts[|acts| - 1];
      assert acts == before + [a];
      RunInv(m, before);
      var s := Run(m, before).value;
      assert Run(m, acts).value == After(m, s, a);
      StepInv(m, s, a);
      HistoryKept(m, before, s, a);
    }
  }

  // ----- freshness

  /** Fetch `f` ended with outcome `o` in the run. */
  ghost predicate Fetched(m: Mode, acts: seq<Action>, f: Id, at: nat, o: Outcome) {
    Run(m, acts).Some? && f in Run(m, acts).value.ops
      && exists src :: Run(m, acts).value.ops[f] == FDone(at, o, src)
  }

  /** A returned write and its times. */
  lemma ReturnedWrite(m: Mode, acts: seq<Action>, r: nat) returns (w: Op)
    requires Run(m, acts).Some? && r < |acts| && acts[r].ReturnWrite?
    ensures var s, id := Run(m, acts).value, acts[r].id;
      id in s.ops && s.ops[id] == w && HasUpdated(w) && w.ended < w.update < r && Times(acts, id, w)
  {
    RunInv(m, acts);
    var s, id := Run(m, acts).value, acts[r].id;
    assert Returned(s, id, r) && OpHistory(m, acts, id, s.ops[id]);
    w := s.ops[id];
  }

  /** Where the result of a fetch comes from. */
  lemma FetchedFrom(m: Mode, acts: seq<Action>, f: Id, at: nat, o: Outcome) returns (src: Source)
    requires Fetched(m, acts, f, at, o)
    ensures at < |acts| && acts[at] == StartFetch(f)
    ensures Gave(m, acts, src, o) && Newer(m, Run(m, acts).value, src, at)
  {
    RunInv(m, acts);
    var s := Run(m, acts).value;
    assert OpHistory(m, acts, f, s.ops[f]) && OpOk(m, s, s.ops[f]);
    src := s.ops[f].src;
  }

  /** A returned write's times, and what they mean for a fetch that started later. */
  lemma FetchAfterWrite(m: Mode, acts: seq<Action>, f: Id, at: nat, o: Outcome, r: nat) returns (src: Source, ended: nat, update: nat)
    requires Fetched(m, acts, f, at, o)
    requires r < at && r < |acts| && acts[r].ReturnWrite?
    ensures at < |acts| && acts[at] == StartFetch(f)
    ensures ended < update < r
    ensures acts[ended].ReplyWrite? && acts[ended].id == acts[r].id && acts[update] == Update(acts[r].id)
    ensures Gave(m, acts, src, o)
    ensures if m.Reads() then src.FromCall? && ended < src.begin else src.FromUpdate? && update <= src.update
  {
    src := FetchedFrom(m, acts, f, at, o);
    var w := ReturnedWrite(m, acts, r);
    ended, update := w.ended, w.update;
  }

  /** With a read handler, a fetch that starts after a write returned yields the reply to a read-handler
      call that began after that write's handler had ended. */
  lemma FetchAfterWriteIsFresh(m: Mode, acts: seq<Action>, f: Id, at: nat, o: Outcome, r: nat)
      returns (e: nat, b: nat, k: nat)
    requires m.Reads() && Fetched(m, acts, f, at, o)
    requires r < at && r < |acts| && acts[r].ReturnWrite?
    ensures at < |acts| && acts[at] == StartFetch(f)
    ensures e < r && acts[e].ReplyWrite? && acts[e].id == acts[r].id
    ensures e < b && Answers(acts, b, k) && o == OutcomeOf(m, acts[k].reply)
  {
    var src, ended, update := FetchAfterWrite(m, acts, f, at, o, r);
    e, b := ended, src.begin;
    k :| Answers(acts, b, k) && o == OutcomeOf(m, acts[k].reply);
  }

  /** Without one, it yields the response of that write or of one whose cache update came later. */
  lemma FetchYieldsLaterResponse(m: Mode, acts: seq<Action>, f: Id, at: nat, o: Outcome, r: nat)
      returns (u: nat, e: nat, u': nat)
    requires !m.Reads() && Fetched(m, acts, f, at, o)
    requires r < at && r < |acts| && acts[r].ReturnWrite?
    ensures u < r && acts[u] == Update(acts[r].id)
    ensures u <= u' && Responds(acts, e, u') && o == Outcome(acts[e].resp.value, None, false)
  {
    var src, ended, update := FetchAfterWrite(m, acts, f, at, o, r);
    u, u' := update, src.update;
    e :| Responds(acts, e, u') && o == Outcome(acts[e].resp.value, None, false);
  }

  // ----- what a fetch yields

  /** Where a value can come from. */
  predicate SourceOk(m: Mode, src: Source) {
    if m.Reads() then src.FromCall? else !src.FromCall?
  }

  ghost predicate Sourced(m: Mode, s: State) {
    && (Full(s.cache) || !m.Reads() ==> SourceOk(m, s.src))
    && forall id :: id in s.ops && HasResult(s.ops[id]) ==> SourceOk(m, s.ops[id].src)
  }

  lemma MoverSourced(m: Mode, s: State, a: Action)
    requires Sourced(m, s) && Step(m, s, a).Some? && HasResult(After(m, s, a).ops[a.id])
    ensures SourceOk(m, After(m, s, a).ops[a.id].src)
  {
  }

  lemma CacheSourced(m: Mode, s: State, a: Action)
    requires Sourced(m, s) && Step(m, s, a).Some?
    ensures var s' := After(m, s, a); Full(s'.cache) || !m.Reads() ==> SourceOk(m, s'.src)
  {
  }

  lemma {:induction false} RunSourced(m: Mode, acts: seq<Action>)
    requires Run(m, acts).Some?
    ensures Sourced(m, Run(m, acts).value)
  {
    if acts != [] {
      var before, a := acts[..|acts| - 1], acts[|acts| - 1];
      RunSourced(m, before);
      var s := Run(m, before).value;
      var s' := After(m, s, a);
      assert Run(m, acts).value == s';
      CacheSourced(m, s, a);
      forall id | id in s'.ops && HasResult(s'.ops[id])
        ensures SourceOk(m, s'.ops[id].src)
      {
        if id == a.id {
          MoverSourced(m, s, a);
        } else {
          OtherOp(m, s, a, id);
        }
      }
    }
  }

  lemma OtherOp(m: Mode, s: State, a: Action, id: Id)
    requires Step(m, s, a).Some? && id != a.id && id in After(m, s, a).ops
    ensures id in s.ops && After(m, s, a).ops[id] == s.ops[id]
  {
  }

  /** A result comes from a call of the handler, if one is asked, */
  lemma FetchedByCall(m: Mode, acts: seq<Action>, f: Id, at: nat, o: Outcome) returns (c: nat, k: nat)
    requires m.Reads() && Fetched(m, acts, f, at, o)
    ensures Answers(acts, c, k) && o == OutcomeOf(m, acts[k].reply)
  {
    RunInv(m, acts);
    RunSourced(m, acts);
    var op := Run(m, acts).value.ops[f];
    assert OpHistory(m, acts, f, op) && SourceOk(m, op.src);
    c := op.src.begin;
    k :| Answers(acts, c, k) && o == OutcomeOf(m, acts[k].reply);
  }

  /** A listing yields the text of one answer of its handler, or that answer's error. */
  lemma ListingYields(acts: seq<Action>, f: Id, at: nat, o: Outcome) returns (c: nat, k: nat)
    requires Fetched(Listing, acts, f, at, o)
    ensures Answers(acts, c, k) && o.listed
    ensures match acts[k].reply
      case Data(t) => o.data == t && o.err == None
      case Failed(msg) => o.data == "" && o.err == Some(msg)
  {
    c, k := FetchedByCall(Listing, acts, f, at, o);
  }

  /** A file yields the text of one answer, or its error; an error that there is no handler is an empty
      text. */
  lemma FileYields(acts: seq<Action>, f: Id, at: nat, o: Outcome) returns (c: nat, k: nat)
    requires Fetched(File(true), acts, f, at, o)
    ensures Answers(acts, c, k) && !o.listed
    ensures match acts[k].reply
      case Data(t) => o.data == t && o.err == None
      case Failed(msg) => o.data == "" && o.err == if Contains(msg, NO_HANDLER) then None else Some(msg)
  {
    c, k := FetchedByCall(File(true), acts, f, at, o);
    if acts[k].reply.Failed? {
      SaysExactlyWhen(acts[k].reply.msg, NO_HANDLER);
    }
  }

  /** A file that nobody handles is empty until it is written. */
  lemma UnwrittenIsEmpty(acts: seq<Action>, f: Id, at: nat, o: Outcome)
    requires Fetched(File(false), acts, f, at, o) && forall u :: 0 <= u < |acts| ==> !acts[u].Update?
    ensures o.data == "" && o.err == None && !o.listed
  {
    var m := File(false);
    RunInv(m, acts);
    RunSourced(m, acts);
    var op := Run(m, acts).value.ops[f];
    assert OpHistory(m, acts, f, op) && SourceOk(m, op.src);
    assert forall e, u :: !Responds(acts, e, u);
  }

  /** The phrase stands somewhere in the text. */
  predicate Contains(msg: string, phrase: string) {
    exists i :: 0 <= i <= |msg| && phrase <= msg[i..]
  }

  lemma {:induction false} SaysExactlyWhen(msg: string, phrase: string)
    ensures Says(msg, phrase) <==> Contains(msg, phrase)
  {
    assert msg[0..] == msg;
    if msg != "" {
      SaysExactlyWhen(msg[1..], phrase);
      if i :| 0 <= i <= |msg| && phrase <= msg[i..] {
        assert i > 0 ==> msg[1..][i - 1..] == msg[i..];
      }
      if i :| 0 <= i <= |msg[1..]| && phrase <= msg[1..][i..] {
        assert msg[1..][i..] == msg[i + 1..];
      }
    }
  }

  // ----- no deadlock

  /** How many steps an operation has at most before it. */
  function Ahead(op: Op): nat {
    match op
    case FStart(_) => 9 case FReading(_) => 8 case FCopied(_, _, _) => 7 case FMissed(_) => 6
    case FLocked(_) => 5 case FMust(_) => 4 case FCalling(_, _) => 3 case FReplied(_, _, _) => 2 case FReady(_, _, _) => 1
    case WStart(_) => 4 case WHandled(_, _, _) => 3 case WLocked(_, _, _) => 2 case WUpdated(_, _, _, _) => 1
    case FDone(_, _, _) | WDone(_, _, _, _) | WFailed(_) => 0
  }

  ghost function StepsLeft(ops: map<Id, Op>): nat {
    if ops == map[] then 0
    else
      var id :| id in ops;
      Ahead(ops[id]) + StepsLeft(ops - {id})
  }

  lemma {:induction false} StepsLeftOf(ops: map<Id, Op>, id: Id)
    requires id in ops
    ensures StepsLeft(ops) == Ahead(ops[id]) + StepsLeft(ops - {id})
    decreases |ops|
  {
    var x :| x in ops && StepsLeft(ops) == Ahead(ops[x]) + StepsLeft(ops - {x});
    if x != id {
      StepsLeftOf(ops - {x}, id);
      StepsLeftOf(ops - {id}, x);
      assert ops - {x} - {id} == ops - {id} - {x};
    }
  }

  /** The step an operation takes next, with handlers that have nothing to say. */
  function Next(id: Id, op: Op): Action
    requires Ahead(op) > 0
  {
    match op
    case FStart(_) => RLock(id)
    case FReading(_) => Copy(id)
    case FCopied(_, _, _) => RUnlock(id)
    case FMissed(_) => Lock(id)
    case FLocked(_) => Check(id)
    case FMust(_) => CallRead(id)
    case FCalling(_, _) => ReplyRead(id, Failed(NO_HANDLER))
    case FReplied(_, _, _) => Store(id)
    case FReady(_, _, _) => ReturnFetch(id)
    case WStart(_) => ReplyWrite(id, Some(""))
    case WHandled(_, _, _) => LockWrite(id)
    case WLocked(_, _, _) => Update(id)
    case WUpdated(_, _, _, _) => ReturnWrite(id)
  }

  /** While an operation has not returned, one of the operations under way can take a step. */
  lemma CanMove(m: Mode, s: State, id: Id) returns (a: Action)
    requires Locking(s) && id in s.ops && Ahead(s.ops[id]) > 0
    ensures a.id in s.ops && Step(m, s, a).Some?
  {
    var mover := id;
    if s.writer.Some? {
      mover := s.writer.value;
    } else if s.readers != {} {
      mover :| mover in s.readers;
    }
    a := Next(mover, s.ops[mover]);
  }

  lemma MoveOps(m: Mode, s: State, a: Action) returns (op: Op)
    requires a.id in s.ops && Step(m, s, a).Some?
    ensures After(m, s, a).ops == s.ops[a.id := op] && Ahead(op) < Ahead(s.ops[a.id])
  {
    op := After(m, s, a).ops[a.id];
  }

  lemma LessLeft(ops: map<Id, Op>, id: Id, op: Op)
    requires id in ops && Ahead(op) < Ahead(ops[id])
    ensures StepsLeft(ops[id := op]) < StepsLeft(ops) && ops[id := op].Keys == ops.Keys
  {
    StepsLeftOf(ops, id);
    StepsLeftOf(ops[id := op], id);
    assert ops[id := op] - {id} == ops - {id};
  }

  lemma RunLocking(m: Mode, acts: seq<Action>)
    requires Run(m, acts).Some?
    ensures Locking(Run(m, acts).value)
  {
    RunInv(m, acts);
  }

  lemma RunOn(m: Mode, acts: seq<Action>, s: State, a: Action)
    requires Run(m, acts) == Some(s) && Step(m, s, a).Some?
    ensures Run(m, acts + [a]) == Some(After(m, s, a))
  {
    assert (acts + [a])[..|acts|] == acts;
  }

  ghost predicate Finished(s: State, id: Id) {
    id in s.ops ==> Ahead(s.ops[id]) == 0
  }

  lemma OneMove(m: Mode, acts: seq<Action>, s: State, id: Id) returns (a: Action, s': State)
    requires Run(m, acts) == Some(s) && !Finished(s, id)
    ensures Run(m, acts + [a]) == Some(s')
    ensures StepsLeft(s'.ops) < StepsLeft(s.ops) && s'.ops.Keys == s.ops.Keys
  {
    RunLocking(m, acts);
    a := CanMove(m, s, id);
    s' := After(m, s, a);
    var op := MoveOps(m, s, a);
    LessLeft(s.ops, a.id, op);
    RunOn(m, acts, s, a);
  }

  lemma MoreActions(acts: seq<Action>, a: Action, rest: seq<Action>)
    ensures acts + ([a] + rest) == (acts + [a]) + rest
  {
  }

  /** The mutex never leads to a deadlock: from wherever a run has come, the operations it has started can
      all return, without new ones. */
  lemma {:induction false} CanFinish(m: Mode, acts: seq<Action>, s: State) returns (more: seq<Action>, s': State)
    requires Run(m, acts) == Some(s)
    ensures Run(m, acts + more) == Some(s')
    ensures s'.ops.Keys == s.ops.Keys && forall id :: Finished(s', id)
    decreases StepsLeft(s.ops)
  {
    if id :| !Finished(s, id) {
      var a, s1 := OneMove(m, acts, s, id);
      var rest;
      rest, s' := CanFinish(m, acts + [a], s1);
      more := [a] + rest;
      MoreActions(acts, a, rest);
    } else {
      more, s' := [], s;
      assert acts + [] == acts;
    }
  }

  // ----- at most one call

  predicate NoUpdate(acts: seq<Action>, from: nat) {
    forall u :: from < u < |acts| ==> !acts[u].Update?
  }

  /** The call begun at `c` was answered at `k` with something that fills the cache. */
  predicate Fills(m: Mode, acts: seq<Action>, c: nat, k: int) {
    Answers(acts, c, k) && Full(OutcomeOf(m, acts[k].reply))
  }

  predicate Calling(s: State, g: Id, begin: nat) {
    g in s.ops && (s.ops[g].FCalling? || s.ops[g].FReplied?) && s.ops[g].begin == begin
  }

  /** The handler's answer to the call at `c` is in the cache, or about to be put there. */
  ghost predicate Kept(m: Mode, s: State, g: Id, c: nat, reply: Reply) {
    s.cache == OutcomeOf(m, reply) || (Calling(s, g, c) && s.ops[g].FReplied? && s.ops[g].reply == reply)
  }

  /** Fetches that started after time `c` and have a result have the outcome `o`. */
  ghost predicate AllSee(s: State, c: nat, o: Outcome) {
    forall f :: f in s.ops && HasResult(s.ops[f]) && c < s.ops[f].at ==> s.ops[f].o == o
  }

  /** An operation that has called the handler calls it no more. */
  predicate Called(s: State, g: Id, c: nat) {
    g in s.ops && (Calling(s, g, c) || s.ops[g].FReady? || s.ops[g].FDone?)
  }

  ghost predicate AllCalled(acts: seq<Action>, s: State) {
    forall c :: 0 <= c < |acts| && acts[c].CallRead? ==> Called(s, acts[c].id, c)
  }

  predicate InHandler(s: State, g: Id) {
    g in s.ops && (s.ops[g].FCalling? || s.ops[g].FReplied?)
  }

  predicate Resulted(s: State, f: Id) {
    f in s.ops && HasResult(s.ops[f])
  }

  /** All fetches with a result started before the call that is under way. */
  ghost predicate ResultsBefore(s: State) {
    forall g, f :: InHandler(s, g) && Resulted(s, f) ==> s.ops[f].at < s.ops[g].begin
  }

  ghost predicate AllKept(m: Mode, acts: seq<Action>, s: State) {
    forall c, k :: 0 <= c && Fills(m, acts, c, k) && NoUpdate(acts, c) ==>
      Kept(m, s, acts[c].id, c, acts[k].reply) && AllSee(s, c, OutcomeOf(m, acts[k].reply))
  }

  ghost predicate ListedOnce(acts: seq<Action>, s: State) {
    forall c :: 0 <= c < |acts| && acts[c].CallRead? ==> Full(s.cache) || Calling(s, acts[c].id, c)
  }

  ghost predicate Snapshot(m: Mode, acts: seq<Action>, s: State) {
    AllCalled(acts, s) && ResultsBefore(s) && AllKept(m, acts, s) && (m.Listing? ==> ListedOnce(acts, s))
  }

  lemma CalledKept(m: Mode, s: State, a: Action, g: Id, c: nat)
    requires Called(s, g, c) && Step(m, s, a).Some?
    ensures Called(After(m, s, a), g, c)
  {
  }

  /** While the handler runs no fetch gets a result: not when the caller itself moves, */
  lemma CallerMoves(m: Mode, s: State, a: Action, f: Id)
    requires Inv(m, s) && ResultsBefore(s) && Step(m, s, a).Some?
    requires InHandler(After(m, s, a), a.id) && Resulted(After(m, s, a), f)
    ensures After(m, s, a).ops[f].at < After(m, s, a).ops[a.id].begin
  {
    assert f != a.id && Resulted(s, f);
    assert OpOk(m, s, s.ops[f]);
  }

  /** and not when another thread moves. */
  lemma OtherMoves(m: Mode, s: State, a: Action, g: Id, f: Id)
    requires Inv(m, s) && ResultsBefore(s) && Step(m, s, a).Some? && g != a.id
    requires InHandler(After(m, s, a), g) && Resulted(After(m, s, a), f)
    ensures After(m, s, a).ops[f].at < After(m, s, a).ops[g].begin
  {
    assert InHandler(s, g) && s.writer == Some(g) by { assert HoldsWrite(s.ops[g]); }
    assert a.id in s.ops ==>
      (HoldsRead(s.ops[a.id]) ==> a.id in s.readers) && (HoldsWrite(s.ops[a.id]) ==> s.writer == Some(a.id));
    assert Resulted(s, f);
  }

  lemma CallingKept(m: Mode, s: State, a: Action, g: Id, f: Id)
    requires Inv(m, s) && ResultsBefore(s) && Step(m, s, a).Some?
    requires InHandler(After(m, s, a), g) && Resulted(After(m, s, a), f)
    ensures After(m, s, a).ops[f].at < After(m, s, a).ops[g].begin
  {
    if g == a.id {
      CallerMoves(m, s, a, f);
    } else {
      OtherMoves(m, s, a, g, f);
    }
  }

  /** The stored answer stays in the cache, and every result taken since is that answer. */
  lemma KeptKept(m: Mode, s: State, a: Action, g: Id, c: nat, reply: Reply)
    requires Inv(m, s) && Step(m, s, a).Some? && !a.Update?
    requires Kept(m, s, g, c, reply) && AllSee(s, c, OutcomeOf(m, reply)) && Full(OutcomeOf(m, reply))
    ensures Kept(m, After(m, s, a), g, c, reply)
  {
    if a.id in s.ops {
      assert OpOk(m, s, s.ops[a.id]);
      if HoldsWrite(s.ops[a.id]) { assert s.writer == Some(a.id); }
      if Calling(s, g, c) { assert s.writer == Some(g); }
    }
  }

  /** Storing a reply: it is the one that was kept. */
  lemma SeenStore(m: Mode, s: State, a: Action, g: Id, c: nat, reply: Reply)
    requires Inv(m, s) && Step(m, s, a).Some? && a.Store?
    requires Kept(m, s, g, c, reply) && Full(OutcomeOf(m, reply))
    ensures After(m, s, a).ops[a.id].o == OutcomeOf(m, reply)
  {
    assert OpOk(m, s, s.ops[a.id]) && HoldsWrite(s.ops[a.id]) && HoldsWrite(s.ops[g]);
    assert s.writer == Some(g) && s.writer == Some(a.id);
  }

  /** Whoever reads the cache finds what was kept. */
  lemma SeenCopy(m: Mode, s: State, a: Action, g: Id, c: nat, reply: Reply)
    requires Inv(m, s) && Step(m, s, a).Some? && (a.Copy? || a.Check?) && Full(s.cache)
    requires Kept(m, s, g, c, reply)
    ensures s.cache == OutcomeOf(m, reply)
  {
    if Calling(s, g, c) {
      assert OpOk(m, s, s.ops[g]);
    }
  }

  lemma ResultFrom(m: Mode, s: State, a: Action)
    requires Step(m, s, a).Some? && !a.Store? && HasResult(After(m, s, a).ops[a.id])
    ensures a.id in s.ops && After(m, s, a).ops[a.id].at == s.ops[a.id].at
    ensures HasResult(s.ops[a.id]) || ((a.Copy? || a.Check?) && Full(s.cache))
  {
  }

  lemma SeenKept(m: Mode, s: State, a: Action, g: Id, c: nat, reply: Reply, f: Id)
    requires Inv(m, s) && Step(m, s, a).Some? && !a.Update?
    requires Kept(m, s, g, c, reply) && AllSee(s, c, OutcomeOf(m, reply)) && Full(OutcomeOf(m, reply))
    requires f in After(m, s, a).ops && HasResult(After(m, s, a).ops[f]) && c < After(m, s, a).ops[f].at
    ensures After(m, s, a).ops[f].o == OutcomeOf(m, reply)
  {
    if f == a.id {
      if a.Store? {
        SeenStore(m, s, a, g, c, reply);
      } else {
        ResultFrom(m, s, a);
        CopyResult(m, s, a);
        if !HasResult(s.ops[f]) {
          SeenCopy(m, s, a, g, c, reply);
        }
      }
    }
  }

  lemma AllCalledKept(m: Mode, acts: seq<Action>, s: State, a: Action)
    requires AllCalled(acts, s) && s.now == |acts| && Step(m, s, a).Some?
    ensures AllCalled(acts + [a], After(m, s, a))
  {
    var all := acts + [a];
    forall c | 0 <= c < |all| && all[c].CallRead?
      ensures Called(After(m, s, a), all[c].id, c)
    {
      if c < |acts| {
        assert all[c] == acts[c];
        CalledKept(m, s, a, acts[c].id, c);
      }
    }
  }

  lemma ListedOnceKept(m: Mode, acts: seq<Action>, s: State, a: Action)
    requires m.Listing? && Inv(m, s) && ListedOnce(acts, s) && s.now == |acts| && Step(m, s, a).Some?
    ensures ListedOnce(acts + [a], After(m, s, a))
  {
    var all, s' := acts + [a], After(m, s, a);
    forall c | 0 <= c < |all| && all[c].CallRead?
      ensures Full(s'.cache) || Calling(s', all[c].id, c)
    {
      if c < |acts| {
        assert all[c] == acts[c];
        ListingKept(m, s, a, acts[c].id, c);
      }
    }
  }

  lemma SnapshotKept(m: Mode, acts: seq<Action>, s: State, a: Action)
    requires Inv(m, s) && History(m, acts, s) && Snapshot(m, acts, s) && Step(m, s, a).Some?
    ensures Snapshot(m, acts + [a], After(m, s, a))
  {
    var s' := After(m, s, a);
    AllCalledKept(m, acts, s, a);
    forall g, f | InHandler(s', g) && Resulted(s', f)
      ensures s'.ops[f].at < s'.ops[g].begin
    {
      CallingKept(m, s, a, g, f);
    }
    forall c, k | 0 <= c && Fills(m, acts + [a], c, k) && NoUpdate(acts + [a], c)
      ensures var all := acts + [a];
        Kept(m, s', all[c].id, c, all[k].reply) && AllSee(s', c, OutcomeOf(m, all[k].reply))
    {
      FilledKept(m, acts, s, a, c, k);
    }
    if m.Listing? {
      ListedOnceKept(m, acts, s, a);
    }
  }

  lemma ListingKept(m: Mode, s: State, a: Action, g: Id, c: nat)
    requires m.Listing? && Inv(m, s) && Step(m, s, a).Some?
    requires Full(s.cache) || Calling(s, g, c)
    ensures Full(After(m, s, a).cache) || Calling(After(m, s, a), g, c)
  {
    if a.id in s.ops {
      assert OpOk(m, s, s.ops[a.id]);
      if HoldsWrite(s.ops[a.id]) { assert s.writer == Some(a.id); }
      if Calling(s, g, c) { assert s.writer == Some(g); }
    }
  }

  lemma FilledKept(m: Mode, acts: seq<Action>, s: State, a: Action, c: nat, k: int)
    requires Inv(m, s) && History(m, acts, s) && Snapshot(m, acts, s) && Step(m, s, a).Some?
    requires Fills(m, acts + [a], c, k) && NoUpdate(acts + [a], c)
    ensures Kept(m, After(m, s, a), (acts + [a])[c].id, c, (acts + [a])[k].reply)
    ensures AllSee(After(m, s, a), c, OutcomeOf(m, (acts + [a])[k].reply))
  {
    var all, s' := acts + [a], After(m, s, a);
    var g, reply := acts[c].id, all[k].reply;
    assert all[c] == acts[c] && all[|acts|] == a && Called(s, g, c);
    assert OpHistory(m, acts, g, s.ops[g]);
    if k == |acts| {
      assert Calling(s', g, c);
      forall f | f in s'.ops && HasResult(s'.ops[f]) ensures s'.ops[f].at < c {
        CallingKept(m, s, a, g, f);
      }
    } else {
      assert all[k] == acts[k] && Fills(m, acts, c, k);
      assert NoUpdate(acts, c) by {
        forall u | c < u < |acts| ensures !acts[u].Update? { assert all[u] == acts[u]; }
      }
      KeptKept(m, s, a, g, c, reply);
      forall f | f in s'.ops && HasResult(s'.ops[f]) && c < s'.ops[f].at ensures s'.ops[f].o == OutcomeOf(m, reply) {
        SeenKept(m, s, a, g, c, reply, f);
      }
    }
  }

  lemma {:induction false} RunSnapshot(m: Mode, acts: seq<Action>)
    requires Run(m, acts).Some?
    ensures Snapshot(m, acts, Run(m, acts).value)
  {
    if acts != [] {
      var before, a := acts[..|acts| - 1], acts[|acts| - 1];
      assert acts == before + [a];
      RunSnapshot(m, before);
      RunInv(m, before);
      SnapshotKept(m, before, Run(m, before).value, a);
    }
  }

  /** The prefixes of a run are runs. */
  lemma {:induction false} RunPrefix(m: Mode, acts: seq<Action>, n: nat)
    requires Run(m, acts).Some? && n <= |acts|
    ensures Run(m, acts[..n]).Some?
    ensures n < |acts| ==> Step(m, Run(m, acts[..n]).value, acts[n]).Some?
    decreases |acts|
  {
    if n == |acts| {
      assert acts[..n] == acts;
    } else {
      var before := acts[..|acts| - 1];
      if n < |before| {
        RunPrefix(m, before, n);
        assert before[..n] == acts[..n] && before[n] == acts[n];
      }
    }
  }

  /** While an answer is in the cache, or about to be put there, no call begins. */
  lemma NoCallOnFull(m: Mode, acts: seq<Action>, s: State, c: nat, k: int, a: Action)
    requires Inv(m, s) && Snapshot(m, acts, s) && Fills(m, acts, c, k)
    requires Step(m, s, a).Some? && a.CallRead?
    ensures !NoUpdate(acts, c)
  {
    assert OpOk(m, s, s.ops[a.id]) && HoldsWrite(s.ops[a.id]);
    assert !Calling(s, acts[c].id, c) by {
      if acts[c].id in s.ops && HoldsWrite(s.ops[acts[c].id]) {
        assert s.writer == Some(acts[c].id);
      }
    }
  }

  /** The state in which an action of a run is taken. */
  lemma StateBefore(m: Mode, acts: seq<Action>, n: nat) returns (s: State)
    requires Run(m, acts).Some? && n < |acts|
    ensures Run(m, acts[..n]) == Some(s) && Inv(m, s) && Snapshot(m, acts[..n], s) && Step(m, s, acts[n]).Some?
  {
    RunPrefix(m, acts, n);
    RunInv(m, acts[..n]);
    RunSnapshot(m, acts[..n]);
    s := Run(m, acts[..n]).value;
  }

  /** A call that is no longer under way has been answered before. */
  lemma AnsweredBefore(m: Mode, acts: seq<Action>, s: State, c: nat, k: int, n: nat)
    requires Run(m, acts).Some? && Answers(acts, c, k) && n <= |acts| && Run(m, acts[..n]) == Some(s)
    requires Called(s, acts[c].id, c) && !Calling(s, acts[c].id, c)
    ensures k < n
  {
    if n <= k {
      CalledForGood(m, acts, acts[c].id, c, n, k);
    }
  }

  /** The handler is called at most once between two cache updates, when its answer fills the cache: a
      second call is preceded by an update made after the first. */
  lemma OneCallBetweenUpdates(m: Mode, acts: seq<Action>, c: nat, k: int, c': nat) returns (u: nat)
    requires Run(m, acts).Some? && Fills(m, acts, c, k)
    requires c < c' < |acts| && acts[c'].CallRead?
    ensures c < u < c' && acts[u].Update?
  {
    var before := acts[..c'];
    var s := StateBefore(m, acts, c');
    assert before[c] == acts[c];
    assert Called(s, acts[c].id, c);
    NoOtherCall(m, s, acts[c].id, c, acts[c']);
    AnsweredBefore(m, acts, s, c, k, c');
    assert before[k] == acts[k] && Fills(m, before, c, k);
    NoCallOnFull(m, before, s, c, k, acts[c']);
    u :| c < u < |before| && before[u].Update?;
  }

  /** When a call begins no other is under way. */
  lemma NoOtherCall(m: Mode, s: State, g: Id, c: nat, a: Action)
    requires Inv(m, s) && Step(m, s, a).Some? && a.CallRead?
    ensures !Calling(s, g, c)
  {
    assert s.writer == Some(a.id) by { assert HoldsWrite(s.ops[a.id]); }
    assert g in s.ops && HoldsWrite(s.ops[g]) ==> s.writer == Some(g);
  }

  lemma AnsweredStays(m: Mode, s: State, a: Action, g: Id, c: nat)
    requires Step(m, s, a).Some? && Called(s, g, c) && !Calling(s, g, c)
    ensures Called(After(m, s, a), g, c) && !Calling(After(m, s, a), g, c)
    ensures !(a.ReplyRead? && a.id == g)
  {
  }

  /** Once an operation has its answer it is not answered again. */
  lemma {:induction false} CalledForGood(m: Mode, acts: seq<Action>, g: Id, c: nat, n: nat, k: nat)
    requires Run(m, acts).Some? && n <= k < |acts| && Run(m, acts[..n]).Some?
    requires var s := Run(m, acts[..n]).value; Called(s, g, c) && !Calling(s, g, c)
    ensures !(acts[k].ReplyRead? && acts[k].id == g)
    decreases k - n
  {
    RunPrefix(m, acts, n);
    AnsweredStays(m, Run(m, acts[..n]).value, acts[n], g, c);
    if n < k {
      RunPrefix(m, acts, n + 1);
      assert acts[..n + 1][..n] == acts[..n];
      CalledForGood(m, acts, g, c, n + 1, k);
    }
  }

  /** Until the next update, every fetch that starts after such a call began sees that one answer. */
  lemma FetchesShareOneSnapshot(m: Mode, acts: seq<Action>, c: nat, k: int, f: Id, at: nat, o: Outcome)
    requires Fetched(m, acts, f, at, o) && c < at
    requires Fills(m, acts, c, k) && NoUpdate(acts, c)
    ensures o == OutcomeOf(m, acts[k].reply)
  {
    RunSnapshot(m, acts);
    assert AllSee(Run(m, acts).value, c, OutcomeOf(m, acts[k].reply));
  }

  lemma NoCallMeanwhile(m: Mode, s: State, g: Id, c: nat, a: Action)
    requires Inv(m, s) && Step(m, s, a).Some?
    requires Full(s.cache) || Calling(s, g, c)
    ensures !a.CallRead?
  {
    assert a.id in s.ops ==> OpOk(m, s, s.ops[a.id]) && (HoldsWrite(s.ops[a.id]) ==> s.writer == Some(a.id));
    assert Calling(s, g, c) ==> HoldsWrite(s.ops[g]) && s.writer == Some(g);
  }

  /** The listing handler is called at most once in the node's lifetime, whatever it answers. */
  lemma ListingCalledOnce(acts: seq<Action>, c: nat, c': nat)
    requires Run(Listing, acts).Some?
    requires c < c' < |acts| && acts[c].CallRead?
    ensures !acts[c'].CallRead?
  {
    var before := acts[..c'];
    RunPrefix(Listing, acts, c');
    RunInv(Listing, before);
    RunSnapshot(Listing, before);
    assert before[c] == acts[c];
    NoCallMeanwhile(Listing, Run(Listing, before).value, acts[c].id, c, acts[c']);
  }
}
