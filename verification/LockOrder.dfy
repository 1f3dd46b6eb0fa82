/**
 Lock sections of the proxy module's calls: order of locking, freedom from deadlock, and which accesses can race, for
 any number of threads.
 */
module LockOrder {

  datatype Mutex = CdevMutex | KsMutex | TableMutex

  /** A thread reads or writes the data that a mutex is there for: the table, or the registration. */
  datatype Action = Lock(m: Mutex) | Unlock(m: Mutex) | Read(m: Mutex) | Write(m: Mutex)

  /** The calls, each with what decides which lock sections it goes through. */
  datatype Call =
    | PutModule(stored: bool, serverKnown: bool, seen: bool)
    | GetPending(got: bool, undone: bool)
    | Register
    | Deregister
    | GetLayout(read: bool, gotMemory: bool)
    | WritePacket(read: bool, gotMemory: bool)
    | OpenOrRelease
    | ShowProc

  function Section(m: Mutex, inner: seq<Action>): seq<Action> {
    [Lock(m)] + inner + [Unlock(m)]
  }

  /** The table is looked at and changed, or only looked at. */
  const UPDATE := Section(TableMutex, [Read(TableMutex), Write(TableMutex)])
  const LOOK := Section(TableMutex, [Read(TableMutex)])

  /** `send_event`: whether there is a server, the look into the table, and the use of the server's file. */
  function Notify(known: bool, seen: bool): seq<Action> {
    Section(KsMutex, [Read(KsMutex)] + if known then LOOK + if seen then [Read(KsMutex)] else [] else [])
  }

  /** Lock operations and accesses of a call, in program order. */
  function Script(call: Call): seq<Action> {
    match call
    case PutModule(stored, known, seen) => UPDATE + if stored then Notify(known, seen) else []
    case GetPending(got, undone) =>
      UPDATE + if got then [Read(TableMutex)] + if undone then UPDATE else [] else []
    case Register => Section(KsMutex, [Read(KsMutex), Write(KsMutex)])
    case Deregister => Section(KsMutex, [Write(KsMutex)])
    case GetLayout(read, gotMemory) => if read && gotMemory then LOOK else []
    case WritePacket(read, gotMemory) => Section(CdevMutex, []) + if read && gotMemory then LOOK else []
    case OpenOrRelease => Section(CdevMutex, [])
    case ShowProc => [Read(TableMutex)]
  }

  /** All accesses of the call are made under the mutex: so of all but a fetch that has an entry, and the /proc text. */
  predicate Tidy(call: Call) {
    !call.ShowProc? && !(call.GetPending? && call.got)
  }

  datatype Thread = Thread(call: Call, held: set<Mutex>, todo: seq<Action>)

  function Rank(m: Mutex): nat {
    match m case CdevMutex => 0 case KsMutex => 1 case TableMutex => 2
  }

  /**
   Locks are taken in increasing rank, released only when held, and all released at the end; every write is under the
   mutex, and, if `tidy`, every read.
   */
  predicate Disciplined(held: set<Mutex>, todo: seq<Action>, tidy: bool)
    decreases |todo|
  {
    if todo == [] then held == {}
    else match todo[0]
      case Lock(m) => (forall h | h in held :: Rank(h) < Rank(m)) && Disciplined(held + {m}, todo[1..], tidy)
      case Unlock(m) => m in held && Disciplined(held - {m}, todo[1..], tidy)
      case Read(m) => (tidy ==> m in held) && Disciplined(held, todo[1..], tidy)
      case Write(m) => m in held && Disciplined(held, todo[1..], tidy)
  }

  /** A part of a script after which things are as before, so that the discipline of the whole depends on the rest. */
  ghost predicate Neutral(held: set<Mutex>, part: seq<Action>, tidy: bool) {
    forall rest :: Disciplined(held, part + rest, tidy) <==> Disciplined(held, rest, tidy)
  }

  lemma NothingIsNeutral(held: set<Mutex>, tidy: bool)
    ensures Neutral(held, [], tidy)
  {
    forall rest ensures Disciplined(held, [] + rest, tidy) <==> Disciplined(held, rest, tidy) {
      assert [] + rest == rest;
    }
  }

  lemma AccessIsNeutral(held: set<Mutex>, a: Action, tidy: bool)
    requires a.Read? || a.Write?
    requires a.m in held || (a.Read? && !tidy)
    ensures Neutral(held, [a], tidy)
  {
    forall rest ensures Disciplined(held, [a] + rest, tidy) <==> Disciplined(held, rest, tidy) {
      assert ([a] + rest)[1..] == rest;
    }
  }

  lemma TogetherNeutral(held: set<Mutex>, a: seq<Action>, b: seq<Action>, tidy: bool)
    requires Neutral(held, a, tidy) && Neutral(held, b, tidy)
    ensures Neutral(held, a + b, tidy)
  {
    forall rest ensures Disciplined(held, a + b + rest, tidy) <==> Disciplined(held, rest, tidy) {
      assert a + b + rest == a + (b + rest);
    }
  }

  lemma SectionIsNeutral(held: set<Mutex>, m: Mutex, inner: seq<Action>, tidy: bool)
    requires forall h | h in held :: Rank(h) < Rank(m)
    requires Neutral(held + {m}, inner, tidy)
    ensures Neutral(held, Section(m, inner), tidy)
  {
    assert m !in held && held + {m} - {m} == held;
    forall rest ensures Disciplined(held, Section(m, inner) + rest, tidy) <==> Disciplined(held, rest, tidy) {
      var after := [Unlock(m)] + rest;
      assert (Section(m, inner) + rest)[1..] == inner + after;
      assert after[1..] == rest;
    }
  }

  lemma TableSectionsAreNeutral(held: set<Mutex>, tidy: bool)
    requires held == {} || held == {KsMutex}
    ensures Neutral(held, UPDATE, tidy) && Neutral(held, LOOK, tidy)
  {
    var read, write := [Read(TableMutex)], [Write(TableMutex)];
    AccessIsNeutral(held + {TableMutex}, Read(TableMutex), tidy);
    AccessIsNeutral(held + {TableMutex}, Write(TableMutex), tidy);
    TogetherNeutral(held + {TableMutex}, read, write, tidy);
    assert read + write == [Read(TableMutex), Write(TableMutex)];
    SectionIsNeutral(held, TableMutex, read + write, tidy);
    SectionIsNeutral(held, TableMutex, read, tidy);
  }

  lemma NotifyIsNeutral(known: bool, seen: bool, tidy: bool)
    ensures Neutral({}, Notify(known, seen), tidy)
  {
    var ks, read := {KsMutex}, [Read(KsMutex)];
    assert {} + ks == ks;
    AccessIsNeutral(ks, Read(KsMutex), tidy);
    NothingIsNeutral(ks, tidy);
    TableSectionsAreNeutral(ks, tidy);
    var use := if seen then read else [];
    TogetherNeutral(ks, LOOK, use, tidy);
    var inner := if known then LOOK + use else [];
    TogetherNeutral(ks, read, inner, tidy);
    SectionIsNeutral({}, KsMutex, read + inner, tidy);
  }

  lemma RegistrationIsNeutral(tidy: bool)
    ensures Neutral({}, Script(Register), tidy) && Neutral({}, Script(Deregister), tidy)
  {
    var ks, read, write := {KsMutex}, [Read(KsMutex)], [Write(KsMutex)];
    assert {} + ks == ks;
    AccessIsNeutral(ks, Read(KsMutex), tidy);
    AccessIsNeutral(ks, Write(KsMutex), tidy);
    TogetherNeutral(ks, read, write, tidy);
    assert read + write == [Read(KsMutex), Write(KsMutex)];
    SectionIsNeutral({}, KsMutex, read + write, tidy);
    SectionIsNeutral({}, KsMutex, write, tidy);
  }

  lemma ScriptIsNeutral(call: Call, tidy: bool)
    requires tidy ==> Tidy(call)
    ensures Neutral({}, Script(call), tidy)
  {
    NothingIsNeutral({}, tidy);
    NothingIsNeutral({CdevMutex}, tidy);
    TableSectionsAreNeutral({}, tidy);
    RegistrationIsNeutral(tidy);
    assert {} + {CdevMutex} == {CdevMutex};
    SectionIsNeutral({}, CdevMutex, [], tidy);
    hide Neutral;
    match call
    case PutModule(stored, known, seen) =>
      NotifyIsNeutral(known, seen, tidy);
      TogetherNeutral({}, UPDATE, if stored then Notify(known, seen) else [], tidy);
    case GetPending(got, undone) =>
      var undo := if undone then UPDATE else [];
      if got {
        AccessIsNeutral({}, Read(TableMutex), tidy);
        TogetherNeutral({}, [Read(TableMutex)], undo, tidy);
      }
      TogetherNeutral({}, UPDATE, if got then [Read(TableMutex)] + undo else [], tidy);
    case WritePacket(read, gotMemory) =>
      TogetherNeutral({}, Section(CdevMutex, []), if read && gotMemory then LOOK else [], tidy);
    case ShowProc => AccessIsNeutral({}, Read(TableMutex), tidy);
    case _ =>
  }

  /**
   Every path of every call keeps the lock order and writes under the mutex only; and it reads under the mutex only,
   too, exactly if it is neither the /proc text nor a fetch that reads the uuid through the popped pointer.
   */
  lemma ScriptsAreDisciplined(call: Call)
    ensures Disciplined({}, Script(call), false)
    ensures Disciplined({}, Script(call), true) <==> Tidy(call)
  {
    ScriptIsNeutral(call, false);
    assert Script(call) + [] == Script(call);
    if Tidy(call) {
      ScriptIsNeutral(call, true);
    } else if call.GetPending? {
      TableSectionsAreNeutral({}, true);
      assert Script(call) == UPDATE + ([Read(TableMutex)] + if call.undone then UPDATE else []);
    }
  }

  lemma Parts()
    ensures UPDATE == [Lock(TableMutex), Read(TableMutex), Write(TableMutex), Unlock(TableMutex)]
    ensures LOOK == [Lock(TableMutex), Read(TableMutex), Unlock(TableMutex)]
    ensures Section(CdevMutex, []) == [Lock(CdevMutex), Unlock(CdevMutex)]
    ensures UPDATE[0] == LOOK[0] == Lock(TableMutex) && UPDATE[2] == Write(TableMutex)
    ensures Section(CdevMutex, [])[0] == Lock(CdevMutex)
  {
  }

  /** Which mutexes a call takes. */
  lemma LocksExactly(call: Call)
    ensures Lock(TableMutex) in Script(call) <==>
              call.PutModule? || call.GetPending?
              || (call.GetLayout? && call.read && call.gotMemory) || (call.WritePacket? && call.read && call.gotMemory)
    ensures Lock(KsMutex) in Script(call) <==> call.Register? || call.Deregister? || (call.PutModule? && call.stored)
    ensures Lock(CdevMutex) in Script(call) <==> call.WritePacket? || call.OpenOrRelease?
  {
    Parts();
    if call.PutModule? && call.stored {
      NotifyParts(call.serverKnown, call.seen);
      hide Notify;
    }
  }

  /** Who changes what: the table, or the registration; and who looks at the registration. */
  lemma WritersExactly(call: Call)
    ensures Write(TableMutex) in Script(call) <==> call.PutModule? || call.GetPending?
    ensures Write(KsMutex) in Script(call) <==> call.Register? || call.Deregister?
    ensures Read(KsMutex) in Script(call) <==> call.Register? || (call.PutModule? && call.stored)
  {
    Parts();
    if call.PutModule? && call.stored {
      NotifyParts(call.serverKnown, call.seen);
      hide Notify;
    }
  }

  /** A notification keeps the registration's mutex all the time, and takes the table's inside if there is a server. */
  lemma NotifyParts(known: bool, seen: bool)
    ensures var part := Notify(known, seen);
            && |part| >= 3 && part[0] == Lock(KsMutex) && part[1] == Read(KsMutex)
            && part[|part| - 1] == Unlock(KsMutex)
            && (forall k :: 0 < k < |part| - 1 ==> part[k].m == TableMutex || part[k] == Read(KsMutex))
            && (forall k :: 0 <= k < |part| ==> !part[k].Write?)
            && (known <==> |part| > 3) && (known ==> part[2..5] == LOOK)
  {
    var inner := [Read(KsMutex)] + if known then LOOK + if seen then [Read(KsMutex)] else [] else [];
    assert LOOK == [Lock(TableMutex), Read(TableMutex), Unlock(TableMutex)];
    assert Notify(known, seen) == [Lock(KsMutex)] + inner + [Unlock(KsMutex)];
    if known {
      assert Notify(known, seen)[2..5] == LOOK;
    }
  }

  type System = seq<Thread>

  datatype Move = Start(call: Call) | Advance(i: nat)

  predicate CanAdvance(sys: System, i: nat) {
    && i < |sys| && sys[i].todo != []
    && (sys[i].todo[0].Lock? ==> forall j | 0 <= j < |sys| :: sys[i].todo[0].m !in sys[j].held)
  }

  predicate CanMove(sys: System, mv: Move) {
    mv.Start? || CanAdvance(sys, mv.i)
  }

  function Moved(sys: System, mv: Move): System
    requires CanMove(sys, mv)
  {
    match mv
    case Start(call) => sys + [Thread(call, {}, Script(call))]
    case Advance(i) =>
      var t := sys[i];
      var held := match t.todo[0]
        case Lock(m) => t.held + {m}
        case Unlock(m) => t.held - {m}
        case _ => t.held;
      sys[i := Thread(t.call, held, t.todo[1..])]
  }

  predicate AllEnabled(sys: System, moves: seq<Move>)
    decreases |moves|
  {
    moves == [] || (CanMove(sys, moves[0]) && AllEnabled(Moved(sys, moves[0]), moves[1..]))
  }

  function After(sys: System, moves: seq<Move>): System
    requires AllEnabled(sys, moves)
    decreases |moves|
  {
    if moves == [] then sys else After(Moved(sys, moves[0]), moves[1..])
  }

  ghost predicate Inv(sys: System) {
    && (forall i | 0 <= i < |sys| :: Disciplined(sys[i].held, sys[i].todo, false))
    && (forall i | 0 <= i < |sys| && Tidy(sys[i].call) :: Disciplined(sys[i].held, sys[i].todo, true))
    && (forall i, j, m | 0 <= i < j < |sys| :: !(m in sys[i].held && m in sys[j].held))
  }

  lemma InvKept(sys: System, mv: Move)
    requires Inv(sys) && CanMove(sys, mv)
    ensures Inv(Moved(sys, mv))
  {
    if mv.Start? {
      ScriptsAreDisciplined(mv.call);
    }
  }

  lemma {:induction false} InvOverRun(sys: System, moves: seq<Move>)
    requires Inv(sys) && AllEnabled(sys, moves)
    ensures Inv(After(sys, moves))
    decreases |moves|
  {
    if moves != [] {
      InvKept(sys, moves[0]);
      InvOverRun(Moved(sys, moves[0]), moves[1..]);
    }
  }

  /** A thread that holds a mutex of the highest rank held by anyone can go on. */
  lemma TopHolderCanAdvance(sys: System, i: nat, m: Mutex)
    requires Inv(sys) && i < |sys| && m in sys[i].held
    requires forall j, h | 0 <= j < |sys| && h in sys[j].held :: Rank(h) <= Rank(m)
    ensures CanAdvance(sys, i)
  {
    assert Disciplined(sys[i].held, sys[i].todo, false);
  }

  /** Whatever threads are doing, as long as one is unfinished some thread can go on. */
  lemma NoDeadlock(moves: seq<Move>)
    requires AllEnabled([], moves)
    ensures var sys := After([], moves);
            (exists i :: 0 <= i < |sys| && sys[i].todo != []) ==> exists i :: CanAdvance(sys, i)
  {
    InvOverRun([], moves);
    var sys := After([], moves);
    if exists i :: 0 <= i < |sys| && sys[i].todo != [] {
      var _ := SomeoneCanAdvance(sys);
    }
  }

  lemma SomeoneCanAdvance(sys: System) returns (i: nat)
    requires Inv(sys)
    requires exists i :: 0 <= i < |sys| && sys[i].todo != []
    ensures CanAdvance(sys, i)
  {
    if j :| 0 <= j < |sys| && TableMutex in sys[j].held {
      TopHolderCanAdvance(sys, j, TableMutex);
      i := j;
    } else if j :| 0 <= j < |sys| && KsMutex in sys[j].held {
      TopHolderCanAdvance(sys, j, KsMutex);
      i := j;
    } else if j :| 0 <= j < |sys| && CdevMutex in sys[j].held {
      TopHolderCanAdvance(sys, j, CdevMutex);
      i := j;
    } else {
      i :| 0 <= i < |sys| && sys[i].todo != [];
      if sys[i].todo[0].Lock? {
        match sys[i].todo[0].m
        case CdevMutex =>
        case KsMutex =>
        case TableMutex =>
      }
    }
  }

  /** Work left in all threads together. */
  function Remaining(sys: System): nat {
    if sys == [] then 0 else |sys[0].todo| + Remaining(sys[1..])
  }

  lemma {:induction false} AdvanceUsesUpWork(sys: System, i: nat)
    requires CanAdvance(sys, i)
    ensures Remaining(Moved(sys, Advance(i))) == Remaining(sys) - 1
  {
    UpdateRemaining(sys, i, Moved(sys, Advance(i))[i]);
  }

  predicate NoNewCalls(moves: seq<Move>) {
    forall k :: 0 <= k < |moves| ==> moves[k].Advance?
  }

  /** Without new calls the threads can go on for exactly as many moves as there is work. */
  lemma {:induction false} AdvancesAreBounded(sys: System, moves: seq<Move>)
    requires AllEnabled(sys, moves) && NoNewCalls(moves)
    ensures |moves| == Remaining(sys) - Remaining(After(sys, moves))
    ensures |moves| <= Remaining(sys)
    decreases |moves|
  {
    if moves != [] {
      AdvanceUsesUpWork(sys, moves[0].i);
      AdvancesAreBounded(Moved(sys, moves[0]), moves[1..]);
    }
  }

  lemma {:induction false} NothingRemains(sys: System)
    ensures Remaining(sys) == 0 <==> forall i :: 0 <= i < |sys| ==> sys[i].todo == []
  {
    if sys != [] {
      NothingRemains(sys[1..]);
      assert forall i :: 1 <= i < |sys| ==> sys[i] == sys[1..][i - 1];
    }
  }

  lemma {:induction false} FinishFrom(sys: System) returns (moves: seq<Move>)
    requires Inv(sys)
    ensures AllEnabled(sys, moves) && NoNewCalls(moves) && |moves| == Remaining(sys)
    ensures Remaining(After(sys, moves)) == 0
    decreases Remaining(sys)
  {
    NothingRemains(sys);
    if Remaining(sys) == 0 {
      moves := [];
    } else {
      var i := SomeoneCanAdvance(sys);
      InvKept(sys, Advance(i));
      AdvanceUsesUpWork(sys, i);
      var rest := FinishFrom(Moved(sys, Advance(i)));
      moves := [Advance(i)] + rest;
      assert moves[1..] == rest;
    }
  }

  /**
   Whatever threads have done so far, some list of moves without new calls brings all of them to their end, no such list
   is longer, and one is as long exactly if it leaves every thread finished.
   */
  lemma AllFinish(past: seq<Move>) returns (moves: seq<Move>)
    requires AllEnabled([], past)
    ensures var sys := After([], past);
            && AllEnabled(sys, moves) && NoNewCalls(moves) && |moves| == Remaining(sys)
            && (forall i :: 0 <= i < |After(sys, moves)| ==> After(sys, moves)[i].todo == [])
            && (forall other :: AllEnabled(sys, other) && NoNewCalls(other) ==>
                  && |other| <= |moves|
                  && (|other| == |moves| <==>
                        forall i :: 0 <= i < |After(sys, other)| ==> After(sys, other)[i].todo == []))
  {
    InvOverRun([], past);
    hide Inv, CanMove, Moved;
    var sys := After([], past);
    moves := FinishFrom(sys);
    NothingRemains(After(sys, moves));
    forall other | AllEnabled(sys, other) && NoNewCalls(other)
      ensures |other| <= |moves|
      ensures |other| == |moves| <==> forall i :: 0 <= i < |After(sys, other)| ==> After(sys, other)[i].todo == []
    {
      AdvancesAreBounded(sys, other);
      NothingRemains(After(sys, other));
    }
  }

  lemma {:induction false} UpdateRemaining(sys: System, i: nat, t: Thread)
    requires i < |sys|
    ensures Remaining(sys[i := t]) == Remaining(sys) - |sys[i].todo| + |t.todo|
  {
    if i == 0 {
      assert sys[i := t][1..] == sys[1..];
    } else {
      UpdateRemaining(sys[1..], i - 1, t);
      assert sys[i := t][1..] == sys[1..][i - 1 := t];
    }
  }

  // ---------------------------------------------------------------- races

  /** Two threads are about to use the same data, and the second is about to write it. */
  predicate Races(sys: System, i: nat, j: nat) {
    && i < |sys| && j < |sys| && i != j && sys[i].todo != [] && sys[j].todo != []
    && (sys[i].todo[0].Read? || sys[i].todo[0].Write?) && sys[j].todo[0].Write?
    && sys[i].todo[0].m == sys[j].todo[0].m
  }

  /**
   No two threads ever write at once, and a thread that reads while another writes is in one of the two places that take
   no mutex: a fetch that reads through the popped pointer, or the /proc text.
   */
  lemma OnlyUnlockedReadsRace(moves: seq<Move>, i: nat, j: nat)
    requires AllEnabled([], moves) && Races(After([], moves), i, j)
    ensures var t := After([], moves)[i];
            t.todo[0].Read? && t.todo[0].m !in t.held && !Tidy(t.call)
    ensures After([], moves)[j].todo[0].m in After([], moves)[j].held
  {
    InvOverRun([], moves);
    var sys := After([], moves);
    assert Disciplined(sys[i].held, sys[i].todo, false) && Disciplined(sys[j].held, sys[j].todo, false);
    assert sys[j].todo[0].m !in sys[i].held;
  }

  ghost predicate Arises(sys: System) {
    exists moves :: AllEnabled([], moves) && After([], moves) == sys
  }

  lemma {:induction false} OneMoreMove(sys: System, moves: seq<Move>, mv: Move)
    requires AllEnabled(sys, moves) && CanMove(After(sys, moves), mv)
    ensures AllEnabled(sys, moves + [mv]) && After(sys, moves + [mv]) == Moved(After(sys, moves), mv)
    decreases |moves|
  {
    if moves == [] {
      assert [] + [mv] == [mv];
    } else {
      OneMoreMove(Moved(sys, moves[0]), moves[1..], mv);
      assert (moves + [mv])[1..] == moves[1..] + [mv];
    }
  }

  lemma Then(sys: System, mv: Move) returns (sys': System)
    requires Arises(sys) && CanMove(sys, mv)
    ensures Arises(sys') && sys' == Moved(sys, mv)
  {
    sys' := Moved(sys, mv);
    var moves :| AllEnabled([], moves) && After([], moves) == sys;
    OneMoreMove([], moves, mv);
  }

  lemma BothStart(fetch: Call, insert: Call) returns (sys: System)
    ensures Arises(sys) && sys == [Thread(fetch, {}, Script(fetch)), Thread(insert, {}, Script(insert))]
  {
    assert After([], []) == [] && AllEnabled([], []);
    sys := Then([], Start(fetch));
    sys := Then(sys, Start(insert));
  }

  /** The first thread, with no mutex taken by the other, goes through an update of the table. */
  lemma UpdateDone(sys0: System, rest: seq<Action>) returns (sys: System)
    requires Arises(sys0) && |sys0| == 2 && sys0[0].held == sys0[1].held == {} && sys0[0].todo == UPDATE + rest
    ensures Arises(sys) && sys == [Thread(sys0[0].call, {}, rest), sys0[1]]
  {
    hide Arises;
    var t := TableMutex;
    assert UPDATE + rest == [Lock(t), Read(t), Write(t), Unlock(t)] + rest;
    sys := Then(sys0, Advance(0));
    assert sys[0].todo == [Read(t), Write(t), Unlock(t)] + rest && sys[0].held == {t};
    sys := Then(sys, Advance(0));
    assert sys[0].todo == [Write(t), Unlock(t)] + rest;
    sys := Then(sys, Advance(0));
    assert sys[0].todo == [Unlock(t)] + rest;
    sys := Then(sys, Advance(0));
    assert sys[0].todo == rest && sys[0].held == {};
  }

  /** The second thread comes to the point where it writes the table. */
  lemma AboutToWrite(sys0: System, rest: seq<Action>) returns (sys: System)
    requires Arises(sys0) && |sys0| == 2 && sys0[0].held == sys0[1].held == {} && sys0[1].todo == UPDATE + rest
    ensures Arises(sys) && |sys| == 2 && sys[0] == sys0[0] && sys[1].call == sys0[1].call
    ensures sys[1].todo != [] && sys[1].todo[0] == Write(TableMutex)
  {
    hide Arises;
    var t := TableMutex;
    assert UPDATE + rest == [Lock(t), Read(t), Write(t), Unlock(t)] + rest;
    sys := Then(sys0, Advance(1));
    sys := Then(sys, Advance(1));
  }

  /**
   Threads can get to where an insertion is about to write the table while a fetch is about to read an entry of it.
   */
  lemma FetchRacesInsertion() returns (sys: System)
    ensures Arises(sys) && Races(sys, 0, 1)
    ensures sys[0].call.GetPending? && sys[1].call.PutModule?
  {
    hide Arises;
    sys := BothStart(GetPending(true, false), PutModule(true, true, true));
    assert Script(GetPending(true, false)) == UPDATE + [Read(TableMutex)];
    sys := UpdateDone(sys, [Read(TableMutex)]);
    sys := AboutToWrite(sys, Notify(true, true));
  }
}
