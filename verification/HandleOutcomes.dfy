/**
 What the operations of the handle protocol achieve: under every interleaving they leave no handle behind in
 an object that nobody else has, and when nothing fails they do exactly the native calls they are for and end
 with the new handle in its place.
 */
module HandleOutcomes {
  import opened Outcomes
  import opened HandleProtocol

  // ---- Nothing is left behind ----

  /** What is in the handle variable of a thread. */
  datatype Hand = Nothing | Zero | Holding | Watching

  function HandOf(local: Local): Hand {
    match local
    case Empty => Nothing
    case Owned(handle) => if handle.Some? then Holding else Zero
    case Borrowed(_) => Watching
  }

  /**
   Every way to the end of a program leaves nothing in hand, drops no handle, overwrites none, and of the
   fields that nobody else touches (`mine`) fills at most `allowed`. `full` are those of them that are full.
   */
  predicate LeavesNothing(code: Code, hand: Hand, full: set<ObjectId>, mine: set<ObjectId>, allowed: set<ObjectId>) {
    match code
    case Done => hand.Nothing? && full <= allowed
    case Acquire(_, _, next) => LeavesNothing(next, hand, full, mine, allowed)
    case Release(_, _, next) => LeavesNothing(next, hand, full, mine, allowed)
    case StartNative(next) =>
      && hand.Nothing?
      && LeavesNothing(next, Holding, full, mine, allowed) && LeavesNothing(next, Zero, full, mine, allowed)
    case CallNative(next) => LeavesNothing(next, hand, full, mine, allowed)
    case FreeNative(next) => (hand.Zero? || hand.Holding?) && LeavesNothing(next, Nothing, full, mine, allowed)
    case LoadHandle(_, next) => hand.Nothing? && LeavesNothing(next, Watching, full, mine, allowed)
    case ForgetHandle(next) => hand.Watching? && LeavesNothing(next, Nothing, full, mine, allowed)
    case TakeHandle(o, next) =>
      && hand.Nothing?
      && (o !in mine || o in full ==> LeavesNothing(next, Holding, full - {o}, mine, allowed))
      && (o !in mine || o !in full ==> LeavesNothing(next, Zero, full - {o}, mine, allowed))
    case Publish(o, next) =>
      && (hand.Zero? || hand.Holding?) && o !in full
      && LeavesNothing(next, Nothing, Filled(o, hand, full, mine), mine, allowed)
    case StoreHandle(o, next) =>
      && (hand.Zero? || hand.Holding?) && o !in full
      && LeavesNothing(next, Nothing, Filled(o, hand, full, mine), mine, allowed)
    case ReturnIfNull(onNull, next) =>
      if hand.Zero? then LeavesNothing(onNull, Nothing, full, mine, allowed) else LeavesNothing(next, hand, full, mine, allowed)
    case ReturnUnlessStarted(o, onStopped, next) =>
      && (o !in mine || o !in full ==> LeavesNothing(onStopped, hand, full, mine, allowed))
      && (o !in mine || o in full ==> LeavesNothing(next, hand, full, mine, allowed))
    case MayReturn(onReturn, next) =>
      LeavesNothing(onReturn, hand, full, mine, allowed) && LeavesNothing(next, hand, full, mine, allowed)
  }

  function Filled(o: ObjectId, hand: Hand, full: set<ObjectId>, mine: set<ObjectId>): set<ObjectId> {
    if hand.Holding? && o in mine then full + {o} else full
  }

  lemma CloseLeavesNothing(
    o: ObjectId, isServer: bool, k: Code, full: set<ObjectId>, mine: set<ObjectId>, allowed: set<ObjectId>)
    requires LeavesNothing(k, Nothing, full - {o}, mine, allowed)
    ensures LeavesNothing(CloseCode(o, isServer, k), Nothing, full, mine, allowed)
  {
    var release := Release(FfiMu, Exclusive, Release(StateMu(o), Exclusive, k));
    assert LeavesNothing(release, Nothing, full - {o}, mine, allowed);
    forall hand | hand == Zero || hand == Holding
      ensures LeavesNothing(FreeNative(release), hand, full - {o}, mine, allowed)
      ensures LeavesNothing(CallNative(FreeNative(release)), hand, full - {o}, mine, allowed)
    {
    }
    var take := TakeHandle(o, if isServer then CallNative(FreeNative(release)) else FreeNative(release));
    assert LeavesNothing(take, Nothing, full, mine, allowed);
  }

  lemma UseLeavesNothing(o: ObjectId, k: Code, full: set<ObjectId>, mine: set<ObjectId>, allowed: set<ObjectId>)
    requires LeavesNothing(k, Nothing, full, mine, allowed)
    ensures LeavesNothing(UseCode(o, k), Nothing, full, mine, allowed)
  {
    var release := Release(FfiMu, Exclusive, k);
    assert LeavesNothing(ForgetHandle(release), Watching, full, mine, allowed);
    assert LeavesNothing(LoadHandle(o, CallNative(ForgetHandle(release))), Nothing, full, mine, allowed);
  }

  lemma StartServerLeavesNothing(
    r: ObjectId, onError: Code, k: Code, full: set<ObjectId>, mine: set<ObjectId>, allowed: set<ObjectId>)
    requires r in mine && r !in full
    requires LeavesNothing(onError, Nothing, full, mine, allowed) && LeavesNothing(k, Nothing, full + {r}, mine, allowed)
    ensures LeavesNothing(StartServerCode(r, onError, k), Nothing, full, mine, allowed)
  {
    var release := Release(FfiMu, Exclusive, onError);
    var cleanUp := Acquire(FfiMu, Exclusive, CallNative(FreeNative(release)));
    assert LeavesNothing(FreeNative(release), Holding, full, mine, allowed);
    assert LeavesNothing(cleanUp, Holding, full, mine, allowed);
    assert LeavesNothing(Publish(r, k), Holding, full, mine, allowed);
    var publish := MayReturn(cleanUp, Publish(r, k));
    assert LeavesNothing(publish, Holding, full, mine, allowed);
    var query := Acquire(FfiMu, Exclusive, CallNative(Release(FfiMu, Exclusive, publish)));
    assert LeavesNothing(CallNative(Release(FfiMu, Exclusive, publish)), Holding, full, mine, allowed);
    assert LeavesNothing(query, Holding, full, mine, allowed);
    var check := ReturnIfNull(onError, query);
    assert LeavesNothing(check, Holding, full, mine, allowed) && LeavesNothing(check, Zero, full, mine, allowed);
    var start := StartNative(Release(FfiMu, Exclusive, check));
    assert LeavesNothing(start, Nothing, full, mine, allowed);
    assert LeavesNothing(Acquire(FfiMu, Exclusive, start), Nothing, full, mine, allowed);
  }

  lemma StartEmbeddedLeavesNothing(
    r: ObjectId, onError: Code, k: Code, full: set<ObjectId>, mine: set<ObjectId>, allowed: set<ObjectId>)
    requires r in mine && r !in full
    requires LeavesNothing(onError, Nothing, full, mine, allowed) && LeavesNothing(k, Nothing, full + {r}, mine, allowed)
    ensures LeavesNothing(StartEmbeddedCode(r, onError, k), Nothing, full, mine, allowed)
  {
    var unlock := Release(FfiMu, Exclusive, onError);
    assert LeavesNothing(unlock, Nothing, full, mine, allowed);
    var publish := Publish(r, Release(FfiMu, Exclusive, k));
    assert LeavesNothing(Release(FfiMu, Exclusive, k), Nothing, full + {r}, mine, allowed);
    assert LeavesNothing(publish, Holding, full, mine, allowed);
    assert LeavesNothing(FreeNative(unlock), Holding, full, mine, allowed);
    var query := CallNative(MayReturn(FreeNative(unlock), publish));
    assert LeavesNothing(MayReturn(FreeNative(unlock), publish), Holding, full, mine, allowed);
    var check := ReturnIfNull(unlock, query);
    assert LeavesNothing(check, Holding, full, mine, allowed) && LeavesNothing(check, Zero, full, mine, allowed);
    var start := MayReturn(unlock, StartNative(check));
    assert LeavesNothing(StartNative(check), Nothing, full, mine, allowed);
    assert LeavesNothing(start, Nothing, full, mine, allowed);
    assert LeavesNothing(Acquire(FfiMu, Exclusive, start), Nothing, full, mine, allowed);
  }

  lemma StartLeavesNothing(
    r: ObjectId, isServer: bool, onError: Code, k: Code, full: set<ObjectId>, mine: set<ObjectId>, allowed: set<ObjectId>)
    requires r in mine && r !in full
    requires LeavesNothing(onError, Nothing, full, mine, allowed) && LeavesNothing(k, Nothing, full + {r}, mine, allowed)
    ensures LeavesNothing(StartCode(r, isServer, onError, k), Nothing, full, mine, allowed)
  {
    if isServer {
      StartServerLeavesNothing(r, onError, k, full, mine, allowed);
    } else {
      StartEmbeddedLeavesNothing(r, onError, k, full, mine, allowed);
    }
  }

  /** A restart moves the new handle on: the object it was started in ends empty. */
  lemma RestartLeavesNothing(
    o: ObjectId, isServer: bool, r: ObjectId, k: Code, full: set<ObjectId>, mine: set<ObjectId>, allowed: set<ObjectId>)
    requires r in mine && r !in full && o !in full && o != r
    requires LeavesNothing(k, Nothing, full, mine, allowed)
    requires o in mine ==> LeavesNothing(k, Nothing, full + {o}, mine, allowed)
    ensures LeavesNothing(RestartCode(o, isServer, r, k), Nothing, full, mine, allowed)
  {
    var store := StoreHandle(o, Release(StateMu(o), Exclusive, k));
    assert LeavesNothing(Release(StateMu(o), Exclusive, k), Nothing, Filled(o, Holding, full, mine), mine, allowed);
    assert LeavesNothing(store, Holding, full, mine, allowed);
    var take := TakeHandle(r, Acquire(StateMu(o), Exclusive, store));
    assert full + {r} - {r} == full;
    assert LeavesNothing(Acquire(StateMu(o), Exclusive, store), Holding, full, mine, allowed);
    assert LeavesNothing(take, Nothing, full + {r}, mine, allowed);
    StartLeavesNothing(r, isServer, k, take, full, mine, allowed);
  }

  lemma SnapshotLeavesNothing(
    o: ObjectId, onStopped: Code, k: Code, full: set<ObjectId>, mine: set<ObjectId>, allowed: set<ObjectId>)
    requires o !in mine || o !in full ==> LeavesNothing(onStopped, Nothing, full, mine, allowed)
    requires o !in mine || o in full ==> LeavesNothing(k, Nothing, full, mine, allowed)
    ensures LeavesNothing(SnapshotCode(o, onStopped, k), Nothing, full, mine, allowed)
  {
    var stopped, going := Release(StateMu(o), Shared, onStopped), Release(StateMu(o), Shared, k);
    assert LeavesNothing(stopped, Nothing, full, mine, allowed) == LeavesNothing(onStopped, Nothing, full, mine, allowed);
    assert LeavesNothing(going, Nothing, full, mine, allowed) == LeavesNothing(k, Nothing, full, mine, allowed);
    assert LeavesNothing(ReturnUnlessStarted(o, stopped, going), Nothing, full, mine, allowed);
  }

  lemma BackupLeavesNothing(
    o: ObjectId, isServer: bool, r: ObjectId, leaveStopped: bool, full: set<ObjectId>, mine: set<ObjectId>)
    requires r in mine && r !in full && o != r && full <= mine
    ensures LeavesNothing(BackupCode(o, isServer, r, leaveStopped), Nothing, full, mine, full)
  {
    var unlock := UnlockBackup(o);
    var emptied := full - {o};
    assert forall some: set<ObjectId> | some <= full :: LeavesNothing(unlock, Nothing, some, mine, full);
    if o !in mine || o in full {
      if o in mine { assert emptied + {o} == full; }
      RestartLeavesNothing(o, isServer, r, unlock, emptied, mine, full);
      var finish := if leaveStopped then unlock else RestartCode(o, isServer, r, unlock);
      assert LeavesNothing(finish, Nothing, emptied, mine, full);
      assert LeavesNothing(MayReturn(unlock, finish), Nothing, emptied, mine, full);
      CloseLeavesNothing(o, isServer, MayReturn(unlock, finish), full, mine, full);
      var close := CloseCode(o, isServer, MayReturn(unlock, finish));
      var version := VersionCode(MayReturn(unlock, close));
      assert LeavesNothing(MayReturn(unlock, close), Nothing, full, mine, full);
      assert LeavesNothing(version, Nothing, full, mine, full);
      assert LeavesNothing(MayReturn(unlock, version), Nothing, full, mine, full);
    }
    var finish := if leaveStopped then unlock else RestartCode(o, isServer, r, unlock);
    var plan := MayReturn(unlock, VersionCode(MayReturn(unlock, CloseCode(o, isServer, MayReturn(unlock, finish)))));
    SnapshotLeavesNothing(o, unlock, plan, full, mine, full);
  }

  lemma MaintenanceLeavesNothing(o: ObjectId, e: ObjectId, r: ObjectId, full: set<ObjectId>, mine: set<ObjectId>)
    requires e in mine && r in mine && e !in full && r !in full && o != e && o != r && e != r && full <= mine
    ensures LeavesNothing(MaintenanceCode(o, e, r), Nothing, full, mine, full)
  {
    var unlock := UnlockBackup(o);
    var emptied := full - {o};
    var restart := RestartCode(o, true, r, unlock);
    var run := UseCode(e, CloseCode(e, false, restart));
    var work := MayReturn(unlock, StartEmbeddedCode(e, restart, run));
    assert forall some: set<ObjectId> | some <= full :: LeavesNothing(unlock, Nothing, some, mine, full);
    if o !in mine || o in full {
      if o in mine { assert emptied + {o} == full; }
      RestartLeavesNothing(o, true, r, unlock, emptied, mine, full);
      assert emptied + {e} - {e} == emptied;
      CloseLeavesNothing(e, false, restart, emptied + {e}, mine, full);
      UseLeavesNothing(e, CloseCode(e, false, restart), emptied + {e}, mine, full);
      StartEmbeddedLeavesNothing(e, restart, run, emptied, mine, full);
      assert LeavesNothing(work, Nothing, emptied, mine, full);
      CloseLeavesNothing(o, true, work, full, mine, full);
    }
    SnapshotLeavesNothing(o, unlock, CloseCode(o, true, work), full, mine, full);
  }

  /** What an operation may fill that was empty: a start its own object, everything else nothing. */
  function MayFill(op: Operation): set<ObjectId> {
    if op.Start? then op.Fresh() else {}
  }

  /**
   Every operation, on every way it can take: nothing is left in hand, no handle is dropped or overwritten, and
   of the objects nobody else touches none is filled that was empty, but for what a start is to fill.
   */
  lemma OperationsLeaveNothing(op: Operation, full: set<ObjectId>, mine: set<ObjectId>)
    requires op.Fresh() <= mine && full <= mine && op.Fresh() !! full && op.Fresh() !! op.Objects()
    requires op.Maintenance? ==> op.fresh0 != op.fresh1
    ensures LeavesNothing(op.Code(), Nothing, full, mine, full + MayFill(op))
  {
    match op {
      case Start(isServer, r) =>
        assert r in op.Fresh();
        StartLeavesNothing(r, isServer, Done, Done, full, mine, full + {r});
      case Close(o, isServer) => CloseLeavesNothing(o, isServer, Done, full, mine, full);
      case Use(o) => UseLeavesNothing(o, Done, full, mine, full);
      case Accessor(_) =>
      case Version =>
      case Backup(o, isServer, leaveStopped, r) =>
        assert r in op.Fresh() && o in op.Objects();
        BackupLeavesNothing(o, isServer, r, leaveStopped, full, mine);
      case Maintenance(o, e, r) =>
        assert e in op.Fresh() && r in op.Fresh() && o in op.Objects();
        MaintenanceLeavesNothing(o, e, r, full, mine);
    }
    assert full + {} == full;
  }

  // ---- In every run ----

  function FullOf(s: State, mine: set<ObjectId>): set<ObjectId> {
    set o | o in mine && o in s.fields && s.fields[o].Some?
  }

  /** Nobody but `t` knows the objects or set their names aside. */
  ghost predicate Secluded(s: State, t: ThreadId, mine: set<ObjectId>) {
    && t in s.threads && mine <= s.threads[t].reserved + s.fields.Keys
    && forall u | u in s.threads && u != t :: s.threads[u].known !! mine && s.threads[u].reserved !! mine
  }

  ghost predicate Promise(s: State, t: ThreadId, mine: set<ObjectId>, allowed: set<ObjectId>) {
    && t in s.threads
    && LeavesNothing(s.threads[t].code, HandOf(s.threads[t].local), FullOf(s, mine), mine, allowed)
  }

  lemma StepKeepsPromise(s: State, t: ThreadId, s': State, mine: set<ObjectId>, allowed: set<ObjectId>)
    requires Next(s, t, s') && Promise(s, t, mine, allowed)
    ensures Promise(s', t, mine, allowed)
  {
    var th := s.threads[t];
    var full, full' := FullOf(s, mine), FullOf(s', mine);
    StepEffect(s, t, s');
    assert th.code.TakeHandle? ==> full' == full - {th.code.obj};
    assert th.code.Publish? || th.code.StoreHandle? ==> full' == Filled(th.code.obj, HandOf(th.local), full, mine);
    assert !th.code.TakeHandle? && !th.code.Publish? && !th.code.StoreHandle? ==> full' == full;
  }

  lemma StepKeepsSeclusion(s: State, t: ThreadId, s': State, mine: set<ObjectId>)
    requires Inv(s) && Next(s, t, s') && Secluded(s, t, mine)
    ensures Secluded(s', t, mine)
  {
    StepIsLocal(s, t, s');
    StepEffect(s, t, s');
  }

  /** A step touches only what its thread knows or has set aside. */
  lemma TouchesWhatItKnows(s: State, u: ThreadId, s': State)
    requires ThreadsDisciplined(s) && Next(s, u, s')
    ensures forall o | o !in s.threads[u].known && o !in s.threads[u].reserved ::
              (o in s'.fields <==> o in s.fields) && (o in s.fields ==> s'.fields[o] == s.fields[o])
  {
    StepEffect(s, u, s');
    assert Disciplined(s.threads[u].code, s.threads[u].Now());
    hide Next;
  }

  /** The steps of others do not touch what they do not know. */
  lemma OthersKeepAway(s: State, t: ThreadId, u: ThreadId, s': State, mine: set<ObjectId>)
    requires ThreadsDisciplined(s) && Next(s, u, s') && u != t && Secluded(s, t, mine)
    ensures Secluded(s', t, mine) && FullOf(s', mine) == FullOf(s, mine) && s'.threads[t] == s.threads[t]
  {
    StepIsLocal(s, u, s');
    StepKnows(s, u, s');
    TouchesWhatItKnows(s, u, s');
    hide Next, ThreadsDisciplined;
    forall o | o in mine
      ensures (o in s'.fields <==> o in s.fields) && (o in s.fields ==> s'.fields[o] == s.fields[o])
    {
      assert o !in s.threads[u].known && o !in s.threads[u].reserved;
    }
    forall v | v in s'.threads && v != t
      ensures s'.threads[v].known !! mine && s'.threads[v].reserved !! mine
    {
      assert v != u ==> s'.threads[v] == s.threads[v];
    }
  }

  lemma StepKnows(s: State, u: ThreadId, s': State)
    requires Next(s, u, s')
    requires ThreadsDisciplined(s)
    ensures var th, th' := s.threads[u], s'.threads[u];
            th'.known <= th.known + th.reserved && th'.reserved <= th.reserved
  {
    assert Disciplined(s.threads[u].code, s.threads[u].Now());
  }

  lemma CallsKeepAway(s: State, t: ThreadId, u: ThreadId, op: Operation, s': State, mine: set<ObjectId>)
    requires Begin(s, u, op, s') && u != t && Secluded(s, t, mine) && op.Objects() !! mine
    ensures Secluded(s', t, mine) && FullOf(s', mine) == FullOf(s, mine) && s'.threads[t] == s.threads[t]
  {
    BeginStartsOver(s, u, op, s');
    assert s'.threads[u].known == op.Objects();
    hide Begin;
    assert op.Fresh() !! s.threads[t].reserved;
  }

  /** After the call that `t` made at `m`, up to `n`, others do not call anything on the objects, nor `t` anything new. */
  ghost predicate Undisturbed(events: seq<Event>, m: nat, n: nat, t: ThreadId, mine: set<ObjectId>) {
    forall i | m < i < n && i < |events| && events[i].Call? :: events[i].thread != t && events[i].op.Objects() !! mine
  }

  lemma BeginRunsCode(s: State, t: ThreadId, op: Operation, s': State)
    requires Begin(s, t, op, s')
    ensures s'.threads[t].code == op.Code() && s'.threads[t].local == Empty && s'.threads[t].reserved == op.Fresh()
    ensures s'.fields == s.fields && s'.threads.Keys == s.threads.Keys + {t}
    ensures forall u | u in s.threads && u != t :: s'.threads[u] == s.threads[u]
    ensures op.Objects() <= s.fields.Keys && op.Fresh() !! s.fields.Keys
    ensures forall u | u in s.threads :: op.Fresh() !! s.threads[u].reserved
    ensures op.Maintenance? ==> op.fresh0 != op.fresh1
  {
    hide Idle;
  }

  lemma CallMakesPromise(s: State, t: ThreadId, op: Operation, s': State, mine: set<ObjectId>)
    requires NamesReserved(s) && Begin(s, t, op, s') && op.Fresh() <= mine <= op.Fresh() + op.Objects()
    requires forall u | u in s.threads && u != t :: s.threads[u].known !! mine
    ensures Secluded(s', t, mine) && Promise(s', t, mine, FullOf(s, mine) + MayFill(op))
  {
    hide Begin, Inv;
    BeginRunsCode(s, t, op, s');
    CallSecludes(s, t, op, s', mine);
    hide Secluded;
    FullOfFields(s, s', mine, op.Fresh());
    hide FullOf, LeavesNothing;
    OperationsLeaveNothing(op, FullOf(s, mine), mine);
  }

  lemma FullOfFields(s: State, s': State, mine: set<ObjectId>, new': set<ObjectId>)
    requires s'.fields == s.fields && new' !! s.fields.Keys
    ensures FullOf(s', mine) == FullOf(s, mine) <= mine && new' !! FullOf(s, mine)
  {
  }

  lemma CallSecludes(s: State, t: ThreadId, op: Operation, s': State, mine: set<ObjectId>)
    requires NamesReserved(s) && Begin(s, t, op, s') && op.Fresh() <= mine <= op.Fresh() + op.Objects()
    requires forall u | u in s.threads && u != t :: s.threads[u].known !! mine
    ensures Secluded(s', t, mine)
  {
    hide Begin;
    BeginRunsCode(s, t, op, s');
    hide NamesReserved;
    assert mine <= op.Fresh() + s.fields.Keys by { assert forall o | o in mine :: o in op.Fresh() || o in op.Objects(); }
    forall u | u in s'.threads && u != t
      ensures s'.threads[u].known !! mine && s'.threads[u].reserved !! mine
    {
      assert s'.threads[u] == s.threads[u];
      assert s.threads[u].reserved !! s.fields.Keys by { ReservedIsNew(s, u); }
      StaysAway(s.threads[u].reserved, op.Fresh(), op.Objects(), s.fields.Keys, mine);
    }
  }

  lemma ReservedIsNew(s: State, u: ThreadId)
    requires NamesReserved(s) && u in s.threads
    ensures s.threads[u].reserved !! s.fields.Keys
  {
  }

  lemma StaysAway(reserved: set<ObjectId>, fresh0: set<ObjectId>, objects: set<ObjectId>, existing: set<ObjectId>, mine: set<ObjectId>)
    requires reserved !! existing && reserved !! fresh0 && objects <= existing && mine <= fresh0 + objects
    ensures reserved !! mine
  {
  }

  lemma {:induction false} PromiseIsKept(
    states: seq<State>, events: seq<Event>, m: nat, n: nat, t: ThreadId, op: Operation, mine: set<ObjectId>)
    requires IsRun(states, events) && m < n <= |events| && events[m] == Call(t, op)
    requires op.Fresh() <= mine <= op.Fresh() + op.Objects() && Undisturbed(events, m, n, t, mine)
    requires forall u | u in states[m].threads && u != t :: states[m].threads[u].known !! mine
    ensures Secluded(states[n], t, mine) && Promise(states[n], t, mine, FullOf(states[m], mine) + MayFill(op))
    decreases n
  {
    var allowed := FullOf(states[m], mine) + MayFill(op);
    RunsKeepInv(states, events, n - 1);
    var s, s' := states[n - 1], states[n];
    assert Occurs(states[n - 1], events[n - 1], states[n - 1 + 1]);
    hide Inv, IsRun, Begin, Next, LeavesNothing, Secluded, Undisturbed;
    if n - 1 == m {
      InvDisciplines(s);
      CallMakesPromise(s, t, op, s', mine);
    } else {
      DisturbedLess(events, m, n, t, mine);
      PromiseIsKept(states, events, m, n - 1, t, op, mine);
      match events[n - 1] {
        case Run(u) =>
          if u == t {
            StepKeepsPromise(s, t, s', mine, allowed);
            StepKeepsSeclusion(s, t, s', mine);
          } else {
            assert ThreadsDisciplined(s) by { InvDisciplines(s); }
            OthersKeepAway(s, t, u, s', mine);
            assert t in s'.threads by { SecludedIsThere(s', t, mine); }
          }
        case Call(u, other) =>
          CallsKeepAway(s, t, u, other, s', mine);
          assert t in s'.threads by { SecludedIsThere(s', t, mine); }
      }
    }
  }

  lemma InvDisciplines(s: State)
    requires Inv(s)
    ensures ThreadsDisciplined(s) && NamesReserved(s)
  {
  }

  lemma SecludedIsThere(s: State, t: ThreadId, mine: set<ObjectId>)
    requires Secluded(s, t, mine)
    ensures t in s.threads
  {
  }

  lemma DisturbedLess(events: seq<Event>, m: nat, n: nat, t: ThreadId, mine: set<ObjectId>)
    requires Undisturbed(events, m, n, t, mine) && m + 1 < n <= |events|
    ensures Undisturbed(events, m, n - 1, t, mine)
    ensures events[n - 1].Call? ==> events[n - 1].thread != t && events[n - 1].op.Objects() !! mine
  {
  }

  /**
   In every run, whatever the other threads do: when an operation is over, the objects it created along the way
   hold no handle, but for the object that a start is called for. `mine` may include the object of the operation
   itself, if nobody else uses it meanwhile; then an operation on a stopped object leaves it stopped.
   */
  lemma NothingIsLeftBehind(
    states: seq<State>, events: seq<Event>, m: nat, n: nat, t: ThreadId, op: Operation, mine: set<ObjectId>)
    requires IsRun(states, events) && m < n <= |events| && events[m] == Call(t, op)
    requires op.Fresh() <= mine <= op.Fresh() + op.Objects() && Undisturbed(events, m, n, t, mine)
    requires forall u | u in states[m].threads && u != t :: states[m].threads[u].known !! mine
    requires t in states[n].threads && states[n].threads[t].code.Done?
    ensures states[n].threads[t].local == Empty
    ensures FullOf(states[n], mine) <= FullOf(states[m], mine) + MayFill(op)
  {
    hide IsRun, Undisturbed;
    PromiseIsKept(states, events, m, n, t, op, mine);
  }

  /** The objects an operation creates are its own: nobody can know them before it is called. */
  lemma TemporaryObjectsEndEmpty(states: seq<State>, events: seq<Event>, m: nat, n: nat, t: ThreadId, op: Operation)
    requires IsRun(states, events) && m < n <= |events| && events[m] == Call(t, op) && !op.Start?
    requires Undisturbed(events, m, n, t, op.Fresh())
    requires t in states[n].threads && states[n].threads[t].code.Done?
    ensures forall r | r in op.Fresh() && r in states[n].fields :: states[n].fields[r] == None
  {
    RunsKeepInv(states, events, m);
    assert Occurs(states[m], events[m], states[m + 1]);
    forall u | u in states[m].threads
      ensures states[m].threads[u].known !! op.Fresh()
    {
      assert states[m].threads[u].known <= states[m].fields.Keys;
    }
    NothingIsLeftBehind(states, events, m, n, t, op, op.Fresh());
    assert FullOf(states[m], op.Fresh()) == {};
    forall r | r in op.Fresh() && r in states[n].fields
      ensures states[n].fields[r] == None
    {
      assert r !in FullOf(states[n], op.Fresh());
    }
  }

  // ---- Fields change under their lock ----

  /** The field may be changed: its state mutex is held, or the object is one that the operation created. */
  predicate MayChange(o: ObjectId, held: set<Hold>, own: set<ObjectId>) {
    Hold(StateMu(o), Exclusive) in held || o in own
  }

  /** A program that changes fields only then, and looks whether an object is started only under its state mutex. */
  predicate Guarded(code: Code, held: set<Hold>, own: set<ObjectId>) {
    match code
    case Done => true
    case Acquire(l, mode, next) => Guarded(next, held + {Hold(l, mode)}, own)
    case Release(l, mode, next) => Guarded(next, held - {Hold(l, mode)}, own)
    case StartNative(next) => Guarded(next, held, own)
    case CallNative(next) => Guarded(next, held, own)
    case FreeNative(next) => Guarded(next, held, own)
    case LoadHandle(_, next) => Guarded(next, held, own)
    case ForgetHandle(next) => Guarded(next, held, own)
    case TakeHandle(o, next) => MayChange(o, held, own) && Guarded(next, held, own)
    case Publish(o, next) => o in own && Guarded(next, held, own)
    case StoreHandle(o, next) => MayChange(o, held, own) && Guarded(next, held, own)
    case ReturnIfNull(onNull, next) => Guarded(onNull, held, own) && Guarded(next, held, own)
    case ReturnUnlessStarted(o, onStopped, next) =>
      && (Hold(StateMu(o), Shared) in held || Hold(StateMu(o), Exclusive) in held)
      && Guarded(onStopped, held, own) && Guarded(next, held, own)
    case MayReturn(onReturn, next) => Guarded(onReturn, held, own) && Guarded(next, held, own)
  }

  /** Locking what is not held and unlocking it again changes nothing. */
  lemma LockedAndUnlocked(held: set<Hold>, l: Lock, mode: Mode)
    requires Hold(l, mode) !in held
    ensures held + {Hold(l, mode)} - {Hold(l, mode)} == held
  {
  }

  lemma CloseIsGuarded(o: ObjectId, isServer: bool, k: Code, held: set<Hold>, own: set<ObjectId>)
    requires Hold(FfiMu, Exclusive) !in held && Hold(StateMu(o), Exclusive) !in held && Guarded(k, held, own)
    ensures Guarded(CloseCode(o, isServer, k), held, own)
  {
    var locked := held + {Hold(StateMu(o), Exclusive)};
    var both := locked + {Hold(FfiMu, Exclusive)};
    LockedAndUnlocked(held, StateMu(o), Exclusive);
    LockedAndUnlocked(locked, FfiMu, Exclusive);
    var release := Release(FfiMu, Exclusive, Release(StateMu(o), Exclusive, k));
    assert Guarded(Release(StateMu(o), Exclusive, k), locked, own);
    assert Guarded(release, both, own);
    assert Guarded(FreeNative(release), both, own) && Guarded(CallNative(FreeNative(release)), both, own);
    var take := TakeHandle(o, if isServer then CallNative(FreeNative(release)) else FreeNative(release));
    assert Guarded(take, both, own);
    assert Guarded(Acquire(FfiMu, Exclusive, take), locked, own);
  }

  lemma UseIsGuarded(o: ObjectId, k: Code, held: set<Hold>, own: set<ObjectId>)
    requires Hold(FfiMu, Exclusive) !in held && Guarded(k, held, own)
    ensures Guarded(UseCode(o, k), held, own)
  {
    var locked := held + {Hold(FfiMu, Exclusive)};
    LockedAndUnlocked(held, FfiMu, Exclusive);
    var release := Release(FfiMu, Exclusive, k);
    assert Guarded(release, locked, own);
    assert Guarded(CallNative(ForgetHandle(release)), locked, own);
    assert Guarded(LoadHandle(o, CallNative(ForgetHandle(release))), locked, own);
  }

  lemma StartIsGuarded(r: ObjectId, isServer: bool, onError: Code, k: Code, held: set<Hold>, own: set<ObjectId>)
    requires Hold(FfiMu, Exclusive) !in held && r in own && Guarded(onError, held, own) && Guarded(k, held, own)
    ensures Guarded(StartCode(r, isServer, onError, k), held, own)
  {
    var locked := held + {Hold(FfiMu, Exclusive)};
    LockedAndUnlocked(held, FfiMu, Exclusive);
    var unlock := Release(FfiMu, Exclusive, onError);
    assert Guarded(unlock, locked, own);
    assert Guarded(FreeNative(unlock), locked, own);
    if isServer {
      var cleanUp := Acquire(FfiMu, Exclusive, CallNative(FreeNative(unlock)));
      assert Guarded(CallNative(FreeNative(unlock)), locked, own);
      assert Guarded(cleanUp, held, own);
      var publish := MayReturn(cleanUp, Publish(r, k));
      assert Guarded(publish, held, own);
      var query := Acquire(FfiMu, Exclusive, CallNative(Release(FfiMu, Exclusive, publish)));
      assert Guarded(Release(FfiMu, Exclusive, publish), locked, own);
      assert Guarded(query, held, own);
      var check := Release(FfiMu, Exclusive, ReturnIfNull(onError, query));
      assert Guarded(check, locked, own);
      assert Guarded(Acquire(FfiMu, Exclusive, StartNative(check)), held, own);
    } else {
      var publish := Publish(r, Release(FfiMu, Exclusive, k));
      assert Guarded(publish, locked, own);
      var query := CallNative(MayReturn(FreeNative(unlock), publish));
      assert Guarded(query, locked, own);
      var start := MayReturn(unlock, StartNative(ReturnIfNull(unlock, query)));
      assert Guarded(ReturnIfNull(unlock, query), locked, own);
      assert Guarded(start, locked, own);
      assert Guarded(Acquire(FfiMu, Exclusive, start), held, own);
    }
  }

  lemma RestartIsGuarded(o: ObjectId, isServer: bool, r: ObjectId, k: Code, held: set<Hold>, own: set<ObjectId>)
    requires Hold(FfiMu, Exclusive) !in held && Hold(StateMu(o), Exclusive) !in held && r in own && Guarded(k, held, own)
    ensures Guarded(RestartCode(o, isServer, r, k), held, own)
  {
    var locked := held + {Hold(StateMu(o), Exclusive)};
    LockedAndUnlocked(held, StateMu(o), Exclusive);
    var store := StoreHandle(o, Release(StateMu(o), Exclusive, k));
    assert Guarded(Release(StateMu(o), Exclusive, k), locked, own);
    assert Guarded(store, locked, own);
    assert Guarded(Acquire(StateMu(o), Exclusive, store), held, own);
    StartIsGuarded(r, isServer, k, TakeHandle(r, Acquire(StateMu(o), Exclusive, store)), held, own);
  }

  lemma SnapshotIsGuarded(o: ObjectId, onStopped: Code, k: Code, held: set<Hold>, own: set<ObjectId>)
    requires Hold(StateMu(o), Shared) !in held && Guarded(onStopped, held, own) && Guarded(k, held, own)
    ensures Guarded(SnapshotCode(o, onStopped, k), held, own)
  {
    var locked := held + {Hold(StateMu(o), Shared)};
    LockedAndUnlocked(held, StateMu(o), Shared);
    var stopped, going := Release(StateMu(o), Shared, onStopped), Release(StateMu(o), Shared, k);
    assert Guarded(stopped, locked, own) && Guarded(going, locked, own);
    assert Guarded(ReturnUnlessStarted(o, stopped, going), locked, own);
  }

  lemma UnlockIsGuarded(o: ObjectId, held: set<Hold>, own: set<ObjectId>)
    ensures Guarded(UnlockBackup(o), held, own)
  {
    assert Guarded(Done, held - {Hold(BackupMu(o), Exclusive)}, own);
  }

  /** Every operation changes the field of an object that it did not create only under the state mutex of the object. */
  lemma OperationsAreGuarded(op: Operation)
    ensures Guarded(op.Code(), {}, op.Fresh())
  {
    var own := op.Fresh();
    match op {
      case Start(isServer, r) => StartIsGuarded(r, isServer, Done, Done, {}, own);
      case Close(o, isServer) => CloseIsGuarded(o, isServer, Done, {}, own);
      case Use(o) => UseIsGuarded(o, Done, {}, own);
      case Accessor(_) =>
      case Version =>
      case Backup(o, isServer, leaveStopped, r) =>
        var held := {Hold(BackupMu(o), Exclusive)};
        assert held == {} + held;
        var unlock := UnlockBackup(o);
        UnlockIsGuarded(o, held, own);
        RestartIsGuarded(o, isServer, r, unlock, held, own);
        var finish := if leaveStopped then unlock else RestartCode(o, isServer, r, unlock);
        CloseIsGuarded(o, isServer, MayReturn(unlock, finish), held, own);
        var close := MayReturn(unlock, CloseCode(o, isServer, MayReturn(unlock, finish)));
        assert Guarded(close, held, own);
        LockedAndUnlocked(held, FfiMu, Exclusive);
        assert Guarded(Release(FfiMu, Exclusive, close), held + {Hold(FfiMu, Exclusive)}, own);
        assert Guarded(VersionCode(close), held, own);
        SnapshotIsGuarded(o, unlock, MayReturn(unlock, VersionCode(close)), held, own);
      case Maintenance(o, e, r) =>
        var held := {Hold(BackupMu(o), Exclusive)};
        assert held == {} + held;
        var unlock := UnlockBackup(o);
        UnlockIsGuarded(o, held, own);
        RestartIsGuarded(o, true, r, unlock, held, own);
        var restart := RestartCode(o, true, r, unlock);
        CloseIsGuarded(e, false, restart, held, own);
        UseIsGuarded(e, CloseCode(e, false, restart), held, own);
        var run := UseCode(e, CloseCode(e, false, restart));
        StartIsGuarded(e, false, restart, run, held, own);
        var work := MayReturn(unlock, StartEmbeddedCode(e, restart, run));
        assert Guarded(work, held, own);
        CloseIsGuarded(o, true, work, held, own);
        SnapshotIsGuarded(o, unlock, CloseCode(o, true, work), held, own);
    }
  }

  ghost predicate GuardedThread(s: State, t: ThreadId, own: set<ObjectId>) {
    t in s.threads && Guarded(s.threads[t].code, s.threads[t].held, own)
  }

  lemma StepIsGuarded(s: State, t: ThreadId, s': State, own: set<ObjectId>)
    requires Next(s, t, s') && GuardedThread(s, t, own)
    ensures GuardedThread(s', t, own)
    ensures forall o | o in s'.fields && (o !in s.fields || s'.fields[o] != s.fields[o]) :: MayChange(o, s.threads[t].held, own)
    ensures s.fields.Keys <= s'.fields.Keys
  {
    StepEffect(s, t, s');
  }

  lemma {:induction false} ThreadsStayGuarded(
    states: seq<State>, events: seq<Event>, m: nat, n: nat, t: ThreadId, op: Operation)
    requires IsRun(states, events) && m < n <= |events| && events[m] == Call(t, op)
    requires forall i | m < i < n && events[i].Call? :: events[i].thread != t
    ensures GuardedThread(states[n], t, op.Fresh())
    decreases n
  {
    var s, s' := states[n - 1], states[n];
    assert Occurs(states[n - 1], events[n - 1], states[n - 1 + 1]);
    hide IsRun, Begin, Next, Guarded;
    if n - 1 == m {
      BeginRunsCode(s, t, op, s');
      BeginStartsOver(s, t, op, s');
      OperationsAreGuarded(op);
    } else {
      ThreadsStayGuarded(states, events, m, n - 1, t, op);
      match events[n - 1] {
        case Run(u) =>
          if u == t { StepIsGuarded(s, t, s', op.Fresh()); } else { StepIsLocal(s, u, s'); }
        case Call(u, other) => BeginRunsCode(s, u, other, s');
      }
    }
  }

  /**
   In every run: the field of an object changes only in a step of a thread that holds the state mutex of the
   object alone, or whose operation created the object.
   */
  lemma FieldsChangeUnderTheirLock(
    states: seq<State>, events: seq<Event>, m: nat, n: nat, t: ThreadId, op: Operation, o: ObjectId)
    requires IsRun(states, events) && m < n < |events| && events[m] == Call(t, op) && events[n] == Run(t)
    requires forall i | m < i < n && events[i].Call? :: events[i].thread != t
    requires o in states[n + 1].fields && (o !in states[n].fields || states[n + 1].fields[o] != states[n].fields[o])
    ensures o in op.Fresh() || (t in states[n].threads && Hold(StateMu(o), Exclusive) in states[n].threads[t].held)
    ensures o !in op.Fresh() ==>
              forall u, mode | u in states[n].threads && u != t :: Hold(StateMu(o), mode) !in states[n].threads[u].held
  {
    assert Occurs(states[n], events[n], states[n + 1]);
    RunsKeepInv(states, events, n);
    ThreadsStayGuarded(states, events, m, n, t, op);
    hide IsRun, Next;
    StepIsGuarded(states[n], t, states[n + 1], op.Fresh());
  }

  // ---- When nothing fails ----

  /** Native calls in the order they are made. */
  datatype Log = End | Starts(handle: Handle, rest: Log) | Calls(handle: Handle, rest: Log) | Frees(handle: Handle, rest: Log)

  /** What a program sees of the state, and the handles that native starts are going to give. */
  datatype Memory = Memory(fields: map<ObjectId, Option<Handle>>, local: Local, given: seq<Handle>) {
    function Field(o: ObjectId): Option<Handle> {
      if o in fields then fields[o] else None
    }

    function Handle(): Option<Handle> {
      if local.Empty? then None else local.handle
    }

    function Put(o: ObjectId): Memory {
      this.(fields := fields[o := Handle()], local := Empty)
    }
  }

  /** The memory and the native calls when every start gives a handle and no error return is taken. */
  function Smoothly(code: Code, m: Memory): (Memory, Log) {
    match code
    case Done => (m, End)
    case Acquire(_, _, next) => Smoothly(next, m)
    case Release(_, _, next) => Smoothly(next, m)
    case StartNative(next) =>
      if m.given == [] then Smoothly(next, m.(local := Owned(None))) else
      var r := Smoothly(next, m.(local := Owned(Some(m.given[0])), given := m.given[1..]));
      (r.0, Starts(m.given[0], r.1))
    case CallNative(next) =>
      var r := Smoothly(next, m);
      if m.Handle().Some? then (r.0, Calls(m.Handle().value, r.1)) else r
    case FreeNative(next) =>
      var r := Smoothly(next, m.(local := Empty));
      if m.Handle().Some? then (r.0, Frees(m.Handle().value, r.1)) else r
    case LoadHandle(o, next) => Smoothly(next, m.(local := Borrowed(m.Field(o))))
    case ForgetHandle(next) => Smoothly(next, m.(local := Empty))
    case TakeHandle(o, next) => Smoothly(next, m.(local := Owned(m.Field(o)), fields := m.fields[o := None]))
    case Publish(o, next) => Smoothly(next, m.Put(o))
    case StoreHandle(o, next) => Smoothly(next, m.Put(o))
    case ReturnIfNull(onNull, next) =>
      if m.local == Owned(None) then Smoothly(onNull, m.(local := Empty)) else Smoothly(next, m)
    case ReturnUnlessStarted(o, onStopped, next) => if m.Field(o).None? then Smoothly(onStopped, m) else Smoothly(next, m)
    case MayReturn(_, next) => Smoothly(next, m)
  }

  function Closing(isServer: bool, h: Handle, rest: Log): Log {
    if isServer then Calls(h, Frees(h, rest)) else Frees(h, rest)
  }

  /** Closing stops a server and frees the handle, which is gone from its field. */
  lemma SmoothClose(o: ObjectId, isServer: bool, k: Code, m: Memory, h: Handle)
    requires m.local == Empty && m.Field(o) == Some(h)
    ensures var r := Smoothly(k, m.(fields := m.fields[o := None]));
            Smoothly(CloseCode(o, isServer, k), m) == (r.0, Closing(isServer, h, r.1))
  {
    var after := m.(fields := m.fields[o := None]);
    var taken := after.(local := Owned(Some(h)));
    var r := Smoothly(k, after);
    var release := Release(FfiMu, Exclusive, Release(StateMu(o), Exclusive, k));
    assert taken.(local := Empty) == after;
    assert Smoothly(release, after) == r;
    assert Smoothly(FreeNative(release), taken) == (r.0, Frees(h, r.1));
    assert Smoothly(CallNative(FreeNative(release)), taken) == (r.0, Calls(h, Frees(h, r.1)));
    var free := if isServer then CallNative(FreeNative(release)) else FreeNative(release);
    assert Smoothly(TakeHandle(o, free), m) == Smoothly(free, taken);
  }

  /** An operation on a running object calls native code on its handle and changes nothing. */
  lemma SmoothUse(o: ObjectId, k: Code, m: Memory, h: Handle)
    requires m.local == Empty && m.Field(o) == Some(h)
    ensures var r := Smoothly(k, m);
            Smoothly(UseCode(o, k), m) == (r.0, Calls(h, r.1))
  {
    var looking := m.(local := Borrowed(Some(h)));
    var release := Release(FfiMu, Exclusive, k);
    assert looking.(local := Empty) == m;
    assert Smoothly(ForgetHandle(release), looking) == Smoothly(k, m);
    assert Smoothly(CallNative(ForgetHandle(release)), looking) == (Smoothly(k, m).0, Calls(h, Smoothly(k, m).1));
  }

  function Started(m: Memory, r: ObjectId): Memory
    requires m.given != []
  {
    m.(fields := m.fields[r := Some(m.given[0])], given := m.given[1..])
  }

  lemma SmoothStartServer(r: ObjectId, onError: Code, k: Code, m: Memory)
    requires m.local == Empty && m.given != []
    ensures var h, rest := m.given[0], Smoothly(k, Started(m, r));
            Smoothly(StartServerCode(r, onError, k), m) == (rest.0, Starts(h, Calls(h, rest.1)))
  {
    var h, rest := m.given[0], Smoothly(k, Started(m, r));
    var owning := m.(local := Owned(Some(h)), given := m.given[1..]);
    assert owning.Put(r) == Started(m, r);
    var cleanUp := Acquire(FfiMu, Exclusive, CallNative(FreeNative(Release(FfiMu, Exclusive, onError))));
    var publish := MayReturn(cleanUp, Publish(r, k));
    assert Smoothly(publish, owning) == rest;
    var query := Acquire(FfiMu, Exclusive, CallNative(Release(FfiMu, Exclusive, publish)));
    assert Smoothly(CallNative(Release(FfiMu, Exclusive, publish)), owning) == (rest.0, Calls(h, rest.1));
    var check := Release(FfiMu, Exclusive, ReturnIfNull(onError, query));
    assert Smoothly(ReturnIfNull(onError, query), owning) == (rest.0, Calls(h, rest.1));
    assert Smoothly(check, owning) == (rest.0, Calls(h, rest.1));
    assert Smoothly(StartNative(check), m) == (rest.0, Starts(h, Calls(h, rest.1)));
    assert Smoothly(Acquire(FfiMu, Exclusive, StartNative(check)), m) == Smoothly(StartNative(check), m);
  }

  lemma SmoothStartEmbedded(r: ObjectId, onError: Code, k: Code, m: Memory)
    requires m.local == Empty && m.given != []
    ensures var h, rest := m.given[0], Smoothly(k, Started(m, r));
            Smoothly(StartEmbeddedCode(r, onError, k), m) == (rest.0, Starts(h, Calls(h, rest.1)))
  {
    var h, rest := m.given[0], Smoothly(k, Started(m, r));
    var owning := m.(local := Owned(Some(h)), given := m.given[1..]);
    assert owning.Put(r) == Started(m, r);
    var unlock := Release(FfiMu, Exclusive, onError);
    var publish := Publish(r, Release(FfiMu, Exclusive, k));
    assert Smoothly(publish, owning) == rest;
    var query := CallNative(MayReturn(FreeNative(unlock), publish));
    assert Smoothly(MayReturn(FreeNative(unlock), publish), owning) == rest;
    assert Smoothly(query, owning) == (rest.0, Calls(h, rest.1));
    var check := ReturnIfNull(unlock, query);
    assert Smoothly(check, owning) == (rest.0, Calls(h, rest.1));
    assert Smoothly(StartNative(check), m) == (rest.0, Starts(h, Calls(h, rest.1)));
    assert Smoothly(MayReturn(unlock, StartNative(check)), m) == Smoothly(StartNative(check), m);
  }

  /** A start puts a handle of its own into a new object, after asking native code about it. */
  lemma SmoothStart(r: ObjectId, isServer: bool, onError: Code, k: Code, m: Memory)
    requires m.local == Empty && m.given != []
    ensures var h, rest := m.given[0], Smoothly(k, Started(m, r));
            Smoothly(StartCode(r, isServer, onError, k), m) == (rest.0, Starts(h, Calls(h, rest.1)))
  {
    if isServer { SmoothStartServer(r, onError, k, m); } else { SmoothStartEmbedded(r, onError, k, m); }
  }

  function Restarted(m: Memory, o: ObjectId, r: ObjectId): Memory
    requires m.given != []
  {
    m.(fields := m.fields[r := None][o := Some(m.given[0])], given := m.given[1..])
  }

  /** A restart puts the new handle into the old object and leaves nothing in the new one. */
  lemma SmoothRestart(o: ObjectId, isServer: bool, r: ObjectId, k: Code, m: Memory)
    requires m.local == Empty && m.given != [] && o != r
    ensures var h, rest := m.given[0], Smoothly(k, Restarted(m, o, r));
            Smoothly(RestartCode(o, isServer, r, k), m) == (rest.0, Starts(h, Calls(h, rest.1)))
  {
    var h, started, last := m.given[0], Started(m, r), Restarted(m, o, r);
    var taken := started.(local := Owned(Some(h)), fields := m.fields[r := None]);
    assert started.fields[r := None] == m.fields[r := None];
    assert taken.Put(o) == last;
    var store := StoreHandle(o, Release(StateMu(o), Exclusive, k));
    assert Smoothly(store, taken) == Smoothly(k, last);
    assert Smoothly(Acquire(StateMu(o), Exclusive, store), taken) == Smoothly(store, taken);
    assert Smoothly(TakeHandle(r, Acquire(StateMu(o), Exclusive, store)), started) == Smoothly(k, last);
    SmoothStart(r, isServer, k, TakeHandle(r, Acquire(StateMu(o), Exclusive, store)), m);
  }

  lemma SmoothSnapshot(o: ObjectId, onStopped: Code, k: Code, m: Memory)
    requires m.Field(o).Some?
    ensures Smoothly(SnapshotCode(o, onStopped, k), m) == Smoothly(k, m)
  {
    var stopped, going := Release(StateMu(o), Shared, onStopped), Release(StateMu(o), Shared, k);
    assert Smoothly(ReturnUnlessStarted(o, stopped, going), m) == Smoothly(going, m) == Smoothly(k, m);
  }

  /** How many native starts an operation makes. */
  function Needs(op: Operation): nat {
    match op
    case Start(_, _) => 1
    case Backup(_, _, leaveStopped, _) => if leaveStopped then 0 else 1
    case Maintenance(_, _, _) => 2
    case _ => 0
  }

  /** What an operation on a running object is for: the fields it leaves and the native calls it makes. */
  function Expected(op: Operation, m: Memory, h: Handle): (map<ObjectId, Option<Handle>>, Log)
    requires |m.given| >= Needs(op)
  {
    var first := if |m.given| > 0 then m.given[0] else 0;
    var second := if |m.given| > 1 then m.given[1] else 0;
    match op
    case Start(_, r) => (m.fields[r := Some(first)], Starts(first, Calls(first, End)))
    case Close(o, isServer) => (m.fields[o := None], Closing(isServer, h, End))
    case Use(_) => (m.fields, Calls(h, End))
    case Accessor(_) => (m.fields, End)
    case Version => (m.fields, End)
    case Backup(o, isServer, leaveStopped, r) =>
      if leaveStopped then (m.fields[o := None], Closing(isServer, h, End))
      else (m.fields[r := None][o := Some(first)], Closing(isServer, h, Starts(first, Calls(first, End))))
    case Maintenance(o, e, r) =>
      (m.fields[e := None][r := None][o := Some(second)],
       Calls(h, Frees(h, Starts(first, Calls(first, Calls(first, Frees(first, Starts(second, Calls(second, End)))))))))
  }

  lemma SmoothUnlock(o: ObjectId, m: Memory)
    ensures Smoothly(UnlockBackup(o), m) == (m, End)
  {
    assert Smoothly(Done, m) == (m, End);
  }

  lemma SmoothBackup(o: ObjectId, isServer: bool, leaveStopped: bool, r: ObjectId, m: Memory, h: Handle)
    requires m.local == Empty && (leaveStopped || m.given != []) && m.Field(o) == Some(h) && o != r
    ensures var result := Smoothly(BackupCode(o, isServer, r, leaveStopped), m);
            && (result.0.fields, result.1) == Expected(Backup(o, isServer, leaveStopped, r), m, h)
            && result.0.local == Empty && result.0.given == m.given[if leaveStopped then 0 else 1..]
  {
    var unlock := UnlockBackup(o);
    var finish := if leaveStopped then unlock else RestartCode(o, isServer, r, unlock);
    var closed := m.(fields := m.fields[o := None]);
    SmoothUnlock(o, closed);
    if !leaveStopped {
      SmoothUnlock(o, Restarted(closed, o, r));
      SmoothRestart(o, isServer, r, unlock, closed);
      assert closed.fields[r := None][o := Some(m.given[0])] == m.fields[r := None][o := Some(m.given[0])];
    }
    SmoothClose(o, isServer, MayReturn(unlock, finish), m, h);
    assert Smoothly(MayReturn(unlock, finish), closed) == Smoothly(finish, closed);
    var close := MayReturn(unlock, CloseCode(o, isServer, MayReturn(unlock, finish)));
    assert Smoothly(close, m) == Smoothly(close.next, m);
    assert Smoothly(Release(FfiMu, Exclusive, close), m) == Smoothly(close, m);
    assert Smoothly(VersionCode(close), m) == Smoothly(close, m);
    var plan := MayReturn(unlock, VersionCode(close));
    assert Smoothly(plan, m) == Smoothly(close, m);
    SmoothSnapshot(o, unlock, plan, m);
  }

  /** The task in the temporary runtime, its close, and the restart. */
  lemma SmoothTask(o: ObjectId, e: ObjectId, r: ObjectId, m: Memory, h: Handle)
    requires m.local == Empty && m.given != [] && m.Field(e) == Some(h) && o != r
    ensures var restart := RestartCode(o, true, r, UnlockBackup(o));
            var next := m.given[0];
            Smoothly(UseCode(e, CloseCode(e, false, restart)), m)
            == (Restarted(m.(fields := m.fields[e := None]), o, r), Calls(h, Frees(h, Starts(next, Calls(next, End)))))
  {
    var restart := RestartCode(o, true, r, UnlockBackup(o));
    var emptied := m.(fields := m.fields[e := None]);
    SmoothUnlock(o, Restarted(emptied, o, r));
    SmoothRestart(o, true, r, UnlockBackup(o), emptied);
    SmoothClose(e, false, restart, m, h);
    SmoothUse(e, CloseCode(e, false, restart), m, h);
  }

  lemma SmoothMaintenance(o: ObjectId, e: ObjectId, r: ObjectId, m: Memory, h: Handle)
    requires m.local == Empty && |m.given| >= 2 && m.Field(o) == Some(h) && o != e && e != r && o != r
    ensures var result := Smoothly(MaintenanceCode(o, e, r), m);
            && (result.0.fields, result.1) == Expected(Maintenance(o, e, r), m, h)
            && result.0.local == Empty && result.0.given == m.given[2..]
  {
    hide RestartCode, UseCode, CloseCode, StartEmbeddedCode, UnlockBackup, SnapshotCode;
    var unlock := UnlockBackup(o);
    var restart := RestartCode(o, true, r, unlock);
    var run := UseCode(e, CloseCode(e, false, restart));
    var work := MayReturn(unlock, StartEmbeddedCode(e, restart, run));
    var closed := m.(fields := m.fields[o := None]);
    var running := Started(closed, e);
    SmoothTask(o, e, r, running, m.given[0]);
    SmoothStartEmbedded(e, restart, run, closed);
    assert Smoothly(work, closed) == Smoothly(StartEmbeddedCode(e, restart, run), closed);
    SmoothClose(o, true, work, m, h);
    SmoothSnapshot(o, unlock, CloseCode(o, true, work), m);
    assert running.fields[e := None][r := None][o := Some(m.given[1])] == m.fields[e := None][r := None][o := Some(m.given[1])];
  }

  /**
   Every operation, on a running object, when nothing fails: it leaves exactly the fields and makes exactly the
   native calls that it is for, in order. A backup or a maintenance operation stops and frees the old handle and
   ends with a new one in the same object.
   */
  lemma OperationsDoWhatTheyAreFor(op: Operation, m: Memory, h: Handle)
    requires m.local == Empty && |m.given| >= Needs(op) && forall o | o in op.Objects() :: m.Field(o) == Some(h)
    requires op.Fresh() !! op.Objects() && (op.Maintenance? ==> op.fresh0 != op.fresh1)
    ensures var result := Smoothly(op.Code(), m);
            && (result.0.fields, result.1) == Expected(op, m, h)
            && result.0.local == Empty && result.0.given == m.given[Needs(op)..]
  {
    assert Smoothly(Done, m) == (m, End);
    match op {
      case Start(isServer, r) => SmoothStart(r, isServer, Done, Done, m);
      case Close(o, isServer) =>
        assert o in op.Objects();
        SmoothClose(o, isServer, Done, m, h);
      case Use(o) =>
        assert o in op.Objects();
        SmoothUse(o, Done, m, h);
      case Accessor(o) => assert Smoothly(Release(StateMu(o), Shared, Done), m) == (m, End);
      case Version => assert Smoothly(Release(FfiMu, Exclusive, Done), m) == (m, End);
      case Backup(o, isServer, leaveStopped, r) =>
        assert o in op.Objects() && r in op.Fresh();
        SmoothBackup(o, isServer, leaveStopped, r, m, h);
      case Maintenance(o, e, r) =>
        assert o in op.Objects() && e in op.Fresh() && r in op.Fresh();
        SmoothMaintenance(o, e, r, m, h);
    }
  }

  // ---- Uninterrupted runs in which nothing fails ----

  /** A step of `t` in which a start gives a handle and no error return is taken. */
  ghost predicate SmoothStep(s: State, t: ThreadId, s': State) {
    && Next(s, t, s')
    && (s.threads[t].code.StartNative? ==> s'.threads[t].local.Owned? && s'.threads[t].local.handle.Some?)
    && (s.threads[t].code.MayReturn? ==> s' == Put(s, t, s.threads[t].(code := s.threads[t].code.next)))
  }

  ghost predicate SmoothRun(states: seq<State>, t: ThreadId) {
    && states != [] && t in states[0].threads
    && forall i | 0 < i < |states| :: SmoothStep(states[i - 1], t, states[i])
  }

  /** The handles that the starts of a run gave. */
  ghost function GivenIn(states: seq<State>, t: ThreadId): seq<Handle>
    requires SmoothRun(states, t)
    decreases |states|
  {
    if |states| == 1 then [] else
    SmoothRunTail(states, t);
    var rest := GivenIn(states[1..], t);
    if states[0].threads[t].code.StartNative? then [states[1].threads[t].local.handle.value] + rest else rest
  }

  lemma SmoothRunTail(states: seq<State>, t: ThreadId)
    requires SmoothRun(states, t) && |states| > 1
    ensures SmoothRun(states[1..], t) && SmoothStep(states[0], t, states[1])
    ensures t in states[0].threads && t in states[1].threads
  {
    hide SmoothStep;
    assert SmoothStep(states[0], t, states[1]);
    forall i | 0 < i < |states[1..]|
      ensures SmoothStep(states[1..][i - 1], t, states[1..][i])
    {
      assert SmoothStep(states[i], t, states[i + 1]);
    }
    assert t in states[1].threads by { SmoothStepStays(states[0], t, states[1]); }
  }

  lemma SmoothStepStays(s: State, t: ThreadId, s': State)
    requires SmoothStep(s, t, s')
    ensures t in s'.threads
  {
    StepIsLocal(s, t, s');
  }

  function FreedIn(log: Log): set<Handle> {
    match log
    case End => {}
    case Starts(_, rest) => FreedIn(rest)
    case Calls(_, rest) => FreedIn(rest)
    case Frees(h, rest) => {h} + FreedIn(rest)
  }

  function MemoryOf(s: State, t: ThreadId, given: seq<Handle>): Memory
    requires t in s.threads
  {
    Memory(s.fields, s.threads[t].local, given)
  }

  /** One step: what remains to be computed is what was to be computed, less what the step did. */
  lemma SmoothStepComputes(s: State, t: ThreadId, s': State, given: seq<Handle>)
    requires SmoothStep(s, t, s') && t in s'.threads
    ensures var th := s.threads[t];
            var all := if th.code.StartNative? then [s'.threads[t].local.handle.value] + given else given;
            var before := Smoothly(th.code, MemoryOf(s, t, all));
            var after := Smoothly(s'.threads[t].code, MemoryOf(s', t, given));
            && before.0 == after.0
            && FreedIn(before.1) <= FreedIn(after.1) + s'.freed
            && (th.code.StartNative? ==> all[0] !in s.live && all[0] !in s.freed)
  {
    hide FreedIn;
    NoneFreed();
    var th := s.threads[t];
    if th.code.StartNative? {
      var h := s'.threads[t].local.handle.value;
      assert ([h] + given)[0] == h && ([h] + given)[1..] == given;
    }
  }

  lemma NoneFreed()
    ensures FreedIn(End) == {}
    ensures forall h, rest :: FreedIn(Starts(h, rest)) == FreedIn(rest) == FreedIn(Calls(h, rest))
    ensures forall h, rest :: FreedIn(Frees(h, rest)) == {h} + FreedIn(rest)
  {
  }

  lemma SmoothRunBegins(states: seq<State>, t: ThreadId)
    requires SmoothRun(states, t)
    ensures states != [] && t in states[0].threads
  {
  }

  lemma StartGives(s: State, t: ThreadId, s': State)
    requires SmoothStep(s, t, s')
    ensures s.threads[t].code.StartNative? ==> s'.threads[t].local.Owned? && s'.threads[t].local.handle.Some?
  {
  }

  lemma FreedIsKept(s: State, t: ThreadId, s': State)
    requires SmoothStep(s, t, s')
    ensures s.freed <= s'.freed && s.live <= s'.live + s'.freed
  {
  }

  /** From one state to another, the program did what was to be computed, and nothing is left to compute. */
  ghost predicate Computes(s: State, last: State, t: ThreadId, given: seq<Handle>, extra: seq<Handle>)
    requires t in s.threads && t in last.threads
  {
    var result := Smoothly(s.threads[t].code, MemoryOf(s, t, given + extra));
    && result.0 == MemoryOf(last, t, extra)
    && FreedIn(result.1) <= last.freed && s.freed <= last.freed && s.live <= last.live + last.freed
    && forall h | h in given :: h !in s.live && h !in s.freed
  }

  lemma ComputesFromStep(s: State, t: ThreadId, s': State, last: State, given: seq<Handle>, extra: seq<Handle>)
    requires SmoothStep(s, t, s') && t in s.threads && t in s'.threads && t in last.threads
    requires Computes(s', last, t, given, extra)
    ensures Computes(s, last, t,
              if s.threads[t].code.StartNative? then [s'.threads[t].local.handle.value] + given else given, extra)
  {
    hide SmoothStep, Smoothly, FreedIn, MemoryOf;
    SmoothStepComputes(s, t, s', given + extra);
    FreedIsKept(s, t, s');
    StartGives(s, t, s');
    if s.threads[t].code.StartNative? {
      var h := s'.threads[t].local.handle.value;
      assert [h] + given + extra == [h] + (given + extra);
      assert ([h] + (given + extra))[0] == h;
    }
  }

  /** An uninterrupted run in which nothing fails computes what the program is for. */
  lemma {:induction false} SmoothRunComputes(states: seq<State>, t: ThreadId, extra: seq<Handle>)
    requires SmoothRun(states, t)
    requires var last := states[|states| - 1]; t in last.threads && last.threads[t].code.Done?
    ensures t in states[0].threads && Computes(states[0], states[|states| - 1], t, GivenIn(states, t), extra)
    decreases |states|
  {
    SmoothRunBegins(states, t);
    hide SmoothStep, SmoothRun, Computes;
    if |states| == 1 {
      DoneComputes(states[0], t, extra);
    } else {
      SmoothRunTail(states, t);
      var rest := states[1..];
      assert rest[|rest| - 1] == states[|states| - 1];
      SmoothRunComputes(rest, t, extra);
      StartGives(states[0], t, states[1]);
      ComputesFromStep(states[0], t, states[1], states[|states| - 1], GivenIn(rest, t), extra);
    }
  }

  lemma DoneComputes(s: State, t: ThreadId, extra: seq<Handle>)
    requires t in s.threads && s.threads[t].code.Done?
    ensures Computes(s, s, t, [], extra)
  {
    assert [] + extra == extra;
    NothingToDo(MemoryOf(s, t, extra));
  }

  lemma NothingToDo(m: Memory)
    ensures Smoothly(Done, m) == (m, End) && FreedIn(End) == {}
  {
  }

  lemma {:induction false} SmoothRunKeepsInv(states: seq<State>, t: ThreadId, n: nat)
    requires SmoothRun(states, t) && Inv(states[0]) && n < |states|
    ensures Inv(states[n]) && t in states[n].threads
  {
    if n > 0 {
      SmoothRunKeepsInv(states, t, n - 1);
      assert SmoothStep(states[n - 1], t, states[n]);
      SmoothStepStays(states[n - 1], t, states[n]);
      NextKeepsInv(states[n - 1], t, states[n]);
    }
  }

  /**
   A thread that carries out an operation on running objects, uninterrupted and with nothing failing: the fields
   end as expected, with handles that are new and live; the old handle is freed by whatever closes its object.
   */
  lemma UninterruptedOperation(s: State, t: ThreadId, op: Operation, states: seq<State>, h: Handle)
    requires Inv(s) && SmoothRun(states, t) && Begin(s, t, op, states[0])
    requires forall o | o in op.Objects() && o in s.fields :: s.fields[o] == Some(h)
    requires var last := states[|states| - 1]; t in last.threads && last.threads[t].code.Done?
    ensures var given, last := GivenIn(states, t), states[|states| - 1];
            && |given| == Needs(op) && (forall g | g in given :: g !in s.live && g !in s.freed)
            && last.fields == Expected(op, Memory(s.fields, Empty, given), h).0
            && (op.Close? || op.Backup? || op.Maintenance? ==> h in last.freed && h !in last.live)
            && (op.Maintenance? || (op.Backup? && !op.leaveStopped) ==>
                  op.obj in last.fields && last.fields[op.obj].Some? && last.fields[op.obj].value in last.live
                  && last.fields[op.obj].value != h)
  {
    SmoothRunBegins(states, t);
    hide Inv, Begin, SmoothRun, Smoothly, FreedIn;
    var given, last := GivenIn(states, t), states[|states| - 1];
    BeginKeepsInv(s, t, op, states[0]);
    SmoothRunKeepsInv(states, t, |states| - 1);
    UninterruptedComputes(s, t, op, states, h);
    OldHandleIsGone(op, Memory(s.fields, Empty, given), h, last);
    hide Expected;
    if op.Maintenance? || (op.Backup? && !op.leaveStopped) {
      NewHandleIsThere(op, Memory(s.fields, Empty, given), h);
      FilledIsLive(last, op.obj);
    }
    FilledIsLive(last, 0);
  }

  lemma UninterruptedComputes(s: State, t: ThreadId, op: Operation, states: seq<State>, h: Handle)
    requires SmoothRun(states, t) && Begin(s, t, op, states[0])
    requires forall o | o in op.Objects() && o in s.fields :: s.fields[o] == Some(h)
    requires var last := states[|states| - 1]; t in last.threads && last.threads[t].code.Done?
    ensures var given, last := GivenIn(states, t), states[|states| - 1];
            && |given| == Needs(op) && (forall g | g in given :: g !in s.live && g !in s.freed)
            && last.fields == Expected(op, Memory(s.fields, Empty, given), h).0
            && FreedIn(Expected(op, Memory(s.fields, Empty, given), h).1) <= last.freed
  {
    SmoothRunBegins(states, t);
    hide SmoothRun, Smoothly, FreedIn, Expected, Begin, Needs, Computes, GivenIn;
    var given, last := GivenIn(states, t), states[|states| - 1];
    BeginIsOnObjects(s, t, op, states[0]);
    UninterruptedUsesAsManyAsNeeded(s, t, op, states, h);
    SmoothRunComputes(states, t, []);
    ComputesOperation(s, t, op, states[0], last, given, []);
    assert given + [] == given;
    OperationIsAsExpected(op, s.fields, given, h);
  }

  lemma OperationIsAsExpected(op: Operation, fields: map<ObjectId, Option<Handle>>, given: seq<Handle>, h: Handle)
    requires |given| == Needs(op) && forall o | o in op.Objects() :: o in fields && fields[o] == Some(h)
    requires op.Fresh() !! op.Objects() && (op.Maintenance? ==> op.fresh0 != op.fresh1)
    ensures var result, expected := Smoothly(op.Code(), Memory(fields, Empty, given)), Expected(op, Memory(fields, Empty, given), h);
            result.0.fields == expected.0 && result.1 == expected.1
  {
    hide Smoothly, Expected, Needs;
    OperationsDoWhatTheyAreFor(op, Memory(fields, Empty, given), h);
  }

  lemma BeginIsOnObjects(s: State, t: ThreadId, op: Operation, s': State)
    requires Begin(s, t, op, s')
    ensures op.Objects() <= s.fields.Keys && op.Fresh() !! op.Objects() && (op.Maintenance? ==> op.fresh0 != op.fresh1)
  {
    hide Idle;
  }

  lemma UninterruptedUsesAsManyAsNeeded(s: State, t: ThreadId, op: Operation, states: seq<State>, h: Handle)
    requires SmoothRun(states, t) && Begin(s, t, op, states[0])
    requires forall o | o in op.Objects() && o in s.fields :: s.fields[o] == Some(h)
    requires var last := states[|states| - 1]; t in last.threads && last.threads[t].code.Done?
    ensures |GivenIn(states, t)| == Needs(op)
  {
    SmoothRunBegins(states, t);
    hide SmoothRun, Smoothly, FreedIn, Begin, Needs, Computes, GivenIn;
    BeginRunsCode(s, t, op, states[0]);
    SmoothRunComputes(states, t, [0, 0]);
    ComputesOperation(s, t, op, states[0], states[|states| - 1], GivenIn(states, t), [0, 0]);
    GivenSuffices(op, s.fields, GivenIn(states, t), h);
  }

  lemma ComputesOperation(
    s: State, t: ThreadId, op: Operation, first: State, last: State, given: seq<Handle>, extra: seq<Handle>)
    requires Begin(s, t, op, first) && t in first.threads && t in last.threads && Computes(first, last, t, given, extra)
    ensures var result := Smoothly(op.Code(), Memory(s.fields, Empty, given + extra));
            && result.0.fields == last.fields && result.0.given == extra && FreedIn(result.1) <= last.freed
            && forall g | g in given :: g !in s.live && g !in s.freed
  {
    hide Begin, Smoothly, FreedIn;
    BeginRunsCode(s, t, op, first);
    BeginKeepsHandles(s, t, op, first);
  }

  lemma BeginKeepsHandles(s: State, t: ThreadId, op: Operation, s': State)
    requires Begin(s, t, op, s')
    ensures s'.live == s.live && s'.freed == s.freed
  {
    hide Idle;
  }

  /** A run that leaves two handles over used exactly as many as the operation needs. */
  lemma GivenSuffices(op: Operation, fields: map<ObjectId, Option<Handle>>, given: seq<Handle>, h: Handle)
    requires Smoothly(op.Code(), Memory(fields, Empty, given + [0, 0])).0.given == [0, 0]
    requires forall o | o in op.Objects() :: o in fields && fields[o] == Some(h)
    requires op.Fresh() !! op.Objects() && (op.Maintenance? ==> op.fresh0 != op.fresh1)
    ensures |given| == Needs(op)
  {
    hide Smoothly, Expected;
    OperationsDoWhatTheyAreFor(op, Memory(fields, Empty, given + [0, 0]), h);
    assert |given + [0, 0]| - Needs(op) == 2;
  }

  lemma FilledIsLive(s: State, o: ObjectId)
    requires Inv(s)
    ensures s.live !! s.freed
    ensures o in s.fields && s.fields[o].Some? ==> s.fields[o].value in s.live
  {
    if o in s.fields && s.fields[o].Some? { assert Owns(s, Field(o), s.fields[o].value); }
  }

  lemma NewHandleIsThere(op: Operation, m: Memory, h: Handle)
    requires |m.given| == Needs(op) && (op.Maintenance? || (op.Backup? && !op.leaveStopped))
    ensures var fields := Expected(op, m, h).0;
            op.obj in fields && fields[op.obj] == Some(m.given[Needs(op) - 1])
  {
  }

  lemma OldHandleIsGone(op: Operation, m: Memory, h: Handle, last: State)
    requires |m.given| == Needs(op) && FreedIn(Expected(op, m, h).1) <= last.freed
    ensures op.Close? || op.Backup? || op.Maintenance? ==> h in last.freed
  {
  }
}
