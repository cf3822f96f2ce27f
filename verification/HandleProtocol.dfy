/**
 Native handles and locks of the Go runtime, for any number of threads and objects. Every public operation
 is a small program over the instructions that touch a lock, an object's handle field or a native handle;
 threads run their programs in every possible interleaving. A thread whose operation ended early runs
 exactly the deferred unlocks.
 */
module HandleProtocol {
  import opened Outcomes

  type ThreadId = nat
  type ObjectId = nat
  type Handle = nat

  /** One backup mutex and one state mutex per object, and one mutex for all native calls. */
  datatype Lock = BackupMu(obj: ObjectId) | StateMu(obj: ObjectId) | FfiMu {
    function Rank(): nat {
      match this
      case BackupMu(_) => 0
      case StateMu(_) => 1
      case FfiMu => 2
    }
  }

  datatype Mode = Exclusive | Shared

  datatype Hold = Hold(lock: Lock, mode: Mode)

  datatype Code =
    | Done
    | Acquire(lock: Lock, mode: Mode, next: Code)
    | Release(lock: Lock, mode: Mode, next: Code)
    /** A native start: a handle of its own, or zero. */
    | StartNative(next: Code)
    /** A native call on the handle in the local variable; skipped when that is zero. */
    | CallNative(next: Code)
    /** Frees the handle in the local variable; skipped when that is zero. */
    | FreeNative(next: Code)
    /** Reads a handle field without taking the handle. */
    | LoadHandle(obj: ObjectId, next: Code)
    | ForgetHandle(next: Code)
    /** Atomically swaps a handle field with zero. */
    | TakeHandle(obj: ObjectId, next: Code)
    /** Builds a new object around the handle in the local variable. */
    | Publish(obj: ObjectId, next: Code)
    | StoreHandle(obj: ObjectId, next: Code)
    | ReturnIfNull(onNull: Code, next: Code)
    | ReturnUnlessStarted(obj: ObjectId, onStopped: Code, next: Code)
    /** An error return that may or may not happen. */
    | MayReturn(onReturn: Code, next: Code)

  /** The handle variable of a thread: unused, owning what it took or started, or just looking at a field. */
  datatype Local = Empty | Owned(handle: Option<Handle>) | Borrowed(handle: Option<Handle>)

  /**
   `known`, `reserved` and `emptied` record history: the objects the operation may touch, the names it set
   aside for objects it is going to create, and the objects it emptied under their backup mutex.
   */
  datatype Thread = Thread(
    held: set<Hold>,
    local: Local,
    code: Code,
    known: set<ObjectId>,
    reserved: set<ObjectId>,
    emptied: set<ObjectId>
  ) {
    function Now(): Situation {
      Situation(held, KindOf(local), known, reserved, emptied)
    }
  }

  datatype State = State(
    threads: map<ThreadId, Thread>,
    fields: map<ObjectId, Option<Handle>>,
    live: set<Handle>,
    freed: set<Handle>
  )

  // ---- The operations ----

  /** `Close` of a server or an embedded runtime, also run by finalizers. */
  function CloseCode(o: ObjectId, isServer: bool, k: Code): Code {
    var free := FreeNative(Release(FfiMu, Exclusive, Release(StateMu(o), Exclusive, k)));
    Acquire(StateMu(o), Exclusive, Acquire(FfiMu, Exclusive, TakeHandle(o, if isServer then CallNative(free) else free)))
  }

  /** `Stop`, and every call on an embedded runtime. */
  function UseCode(o: ObjectId, k: Code): Code {
    Acquire(FfiMu, Exclusive, LoadHandle(o, CallNative(ForgetHandle(Release(FfiMu, Exclusive, k)))))
  }

  function AccessorCode(o: ObjectId, k: Code): Code {
    Acquire(StateMu(o), Shared, Release(StateMu(o), Shared, k))
  }

  function VersionCode(k: Code): Code {
    Acquire(FfiMu, Exclusive, Release(FfiMu, Exclusive, k))
  }

  function StartServerCode(r: ObjectId, onError: Code, k: Code): Code {
    var cleanUp := Acquire(FfiMu, Exclusive, CallNative(FreeNative(Release(FfiMu, Exclusive, onError))));
    var query := Acquire(FfiMu, Exclusive, CallNative(Release(FfiMu, Exclusive, MayReturn(cleanUp, Publish(r, k)))));
    MayReturn(onError, Acquire(FfiMu, Exclusive, StartNative(Release(FfiMu, Exclusive, ReturnIfNull(onError, query)))))
  }

  function StartEmbeddedCode(r: ObjectId, onError: Code, k: Code): Code {
    var unlock := Release(FfiMu, Exclusive, onError);
    var query := CallNative(MayReturn(FreeNative(unlock), Publish(r, Release(FfiMu, Exclusive, k))));
    MayReturn(onError, Acquire(FfiMu, Exclusive, MayReturn(unlock, StartNative(ReturnIfNull(unlock, query)))))
  }

  function StartCode(r: ObjectId, isServer: bool, onError: Code, k: Code): Code {
    if isServer then StartServerCode(r, onError, k) else StartEmbeddedCode(r, onError, k)
  }

  /** `restartFromConfig` and `reopenFromConfig`: start anew and move the handle over. */
  function RestartCode(o: ObjectId, isServer: bool, r: ObjectId, k: Code): Code {
    var store := Acquire(StateMu(o), Exclusive, StoreHandle(o, Release(StateMu(o), Exclusive, k)));
    StartCode(r, isServer, k, TakeHandle(r, store))
  }

  function SnapshotCode(o: ObjectId, onStopped: Code, k: Code): Code {
    var unlock := Release(StateMu(o), Shared, onStopped);
    Acquire(StateMu(o), Shared, ReturnUnlessStarted(o, unlock, Release(StateMu(o), Shared, k)))
  }

  function UnlockBackup(o: ObjectId): Code {
    Release(BackupMu(o), Exclusive, Done)
  }

  function BackupCode(o: ObjectId, isServer: bool, r: ObjectId, leaveStopped: bool): Code {
    var unlock := UnlockBackup(o);
    var finish := if leaveStopped then unlock else RestartCode(o, isServer, r, unlock);
    var close := CloseCode(o, isServer, MayReturn(unlock, finish));
    var plan := MayReturn(unlock, VersionCode(MayReturn(unlock, close)));
    Acquire(BackupMu(o), Exclusive, SnapshotCode(o, unlock, plan))
  }

  /** The shape that WAL prune, compaction and rebuild share. */
  function MaintenanceCode(o: ObjectId, e: ObjectId, r: ObjectId): Code {
    var unlock := UnlockBackup(o);
    var restart := RestartCode(o, true, r, unlock);
    var run := UseCode(e, CloseCode(e, false, restart));
    var work := MayReturn(unlock, StartEmbeddedCode(e, restart, run));
    Acquire(BackupMu(o), Exclusive, SnapshotCode(o, unlock, CloseCode(o, true, work)))
  }

  datatype Operation =
    | Start(isServer: bool, fresh0: ObjectId)
    | Close(obj: ObjectId, isServer: bool)
    | Use(obj: ObjectId)
    | Accessor(obj: ObjectId)
    | Version
    | Backup(obj: ObjectId, isServer: bool, leaveStopped: bool, fresh0: ObjectId)
    | Maintenance(obj: ObjectId, fresh0: ObjectId, fresh1: ObjectId)
  {
    function Objects(): set<ObjectId> {
      match this
      case Start(_, _) | Version => {}
      case _ => {obj}
    }

    function Fresh(): set<ObjectId> {
      match this
      case Start(_, r) => {r}
      case Backup(_, _, _, r) => {r}
      case Maintenance(_, e, r) => {e, r}
      case _ => {}
    }

    function Code(): Code {
      match this
      case Start(isServer, r) => StartCode(r, isServer, Done, Done)
      case Close(o, isServer) => CloseCode(o, isServer, Done)
      case Use(o) => UseCode(o, Done)
      case Accessor(o) => AccessorCode(o, Done)
      case Version => VersionCode(Done)
      case Backup(o, isServer, leaveStopped, r) => BackupCode(o, isServer, r, leaveStopped)
      case Maintenance(o, e, r) => MaintenanceCode(o, e, r)
    }
  }

  // ---- Steps ----

  function Put(s: State, t: ThreadId, th: Thread): State {
    s.(threads := s.threads[t := th])
  }

  ghost predicate Free(s: State, l: Lock, mode: Mode) {
    forall u | u in s.threads ::
      Hold(l, Exclusive) !in s.threads[u].held && (mode.Exclusive? ==> Hold(l, Shared) !in s.threads[u].held)
  }

  function Opened(l: Lock): set<ObjectId> {
    if l.BackupMu? then {l.obj} else {}
  }

  /** One instruction of a thread. What no Go program can do, such as touching an object that does not exist, has no step. */
  ghost predicate Next(s: State, t: ThreadId, s': State) {
    t in s.threads &&
    var th := s.threads[t];
    match th.code
    case Done => false
    case Acquire(l, mode, next) =>
      Free(s, l, mode) && s' == Put(s, t, th.(held := th.held + {Hold(l, mode)}, code := next))
    case Release(l, mode, next) =>
      && Hold(l, mode) in th.held
      && s' == Put(s, t, th.(held := th.held - {Hold(l, mode)}, emptied := th.emptied - Opened(l), code := next))
    case StartNative(next) =>
      || s' == Put(s, t, th.(local := Owned(None), code := next))
      || exists h :: h !in s.live && h !in s.freed
                     && s' == Put(s, t, th.(local := Owned(Some(h)), code := next)).(live := s.live + {h})
    case CallNative(next) => !th.local.Empty? && s' == Put(s, t, th.(code := next))
    case FreeNative(next) =>
      && th.local.Owned?
      && var after := Put(s, t, th.(local := Empty, code := next));
         s' == if th.local.handle.None? then after
               else after.(live := s.live - {th.local.handle.value}, freed := s.freed + {th.local.handle.value})
    case LoadHandle(o, next) =>
      o in s.fields && s' == Put(s, t, th.(local := Borrowed(s.fields[o]), code := next))
    case ForgetHandle(next) => s' == Put(s, t, th.(local := Empty, code := next))
    case TakeHandle(o, next) =>
      && o in s.fields
      && var emptied := if Hold(BackupMu(o), Exclusive) in th.held then th.emptied + {o} else th.emptied;
         s' == Put(s, t, th.(local := Owned(s.fields[o]), emptied := emptied, code := next)).(fields := s.fields[o := None])
    case Publish(o, next) =>
      && th.local.Owned?
      && s' == Put(s, t, th.(local := Empty, reserved := th.reserved - {o}, known := th.known + {o}, code := next))
               .(fields := s.fields[o := th.local.handle])
    case StoreHandle(o, next) =>
      && th.local.Owned? && o in s.fields
      && s' == Put(s, t, th.(local := Empty, emptied := th.emptied - {o}, code := next)).(fields := s.fields[o := th.local.handle])
    case ReturnIfNull(onNull, next) =>
      s' == Put(s, t, if th.local == Owned(None) then th.(local := Empty, code := onNull) else th.(code := next))
    case ReturnUnlessStarted(o, onStopped, next) =>
      o in s.fields && s' == Put(s, t, th.(code := if s.fields[o].None? then onStopped else next))
    case MayReturn(onReturn, next) =>
      s' == Put(s, t, th.(code := onReturn)) || s' == Put(s, t, th.(code := next))
  }

  ghost predicate Idle(s: State, t: ThreadId) {
    t in s.threads ==> s.threads[t].code.Done?
  }

  /** A thread calls an operation on existing objects; names for the objects it may create are new. */
  ghost predicate Begin(s: State, t: ThreadId, op: Operation, s': State) {
    && Idle(s, t)
    && op.Objects() <= s.fields.Keys
    && op.Fresh() !! s.fields.Keys
    && (op.Maintenance? ==> op.fresh0 != op.fresh1)
    && (forall u | u in s.threads :: op.Fresh() !! s.threads[u].reserved)
    && s' == Put(s, t, Thread({}, Empty, op.Code(), op.Objects(), op.Fresh(), {}))
  }

  ghost predicate Init(s: State) {
    s == State(map[], map[], {}, {})
  }

  datatype Event = Run(thread: ThreadId) | Call(thread: ThreadId, op: Operation)

  ghost predicate Occurs(s: State, event: Event, s': State) {
    match event
    case Run(t) => Next(s, t, s')
    case Call(t, op) => Begin(s, t, op, s')
  }

  /** A run: each state follows from the one before by the event at the same position. */
  ghost predicate IsRun(states: seq<State>, events: seq<Event>) {
    && |states| == |events| + 1 && Init(states[0])
    && forall i | 0 <= i < |events| :: Occurs(states[i], events[i], states[i + 1])
  }

  // ---- The discipline of a program ----

  datatype Kind = NoHandle | Owning | Looking

  function KindOf(local: Local): Kind {
    match local
    case Empty => NoHandle
    case Owned(_) => Owning
    case Borrowed(_) => Looking
  }

  const FFI := Hold(FfiMu, Exclusive)

  /** What is known of a thread before it runs: everything but the value of its handle variable. */
  datatype Situation = Situation(
    held: set<Hold>, kind: Kind, known: set<ObjectId>, reserved: set<ObjectId>, emptied: set<ObjectId>)
  {
    function Lock(l: Lock, mode: Mode): Situation {
      this.(held := held + {Hold(l, mode)})
    }

    function Unlock(l: Lock, mode: Mode): Situation {
      this.(held := held - {Hold(l, mode)}, emptied := emptied - Opened(l))
    }

    function Take(o: ObjectId): Situation {
      this.(kind := Owning, emptied := if Hold(BackupMu(o), Exclusive) in held then emptied + {o} else emptied)
    }

    function Publish(o: ObjectId): Situation {
      this.(kind := NoHandle, known := known + {o}, reserved := reserved - {o})
    }

    function Store(o: ObjectId): Situation {
      this.(kind := NoHandle, emptied := emptied - {o})
    }

    predicate MayLock(l: Lock) {
      && (forall h | h in held :: h.lock.Rank() < l.Rank())
      && (!l.FfiMu? ==> l.obj in known)
    }
  }

  /**
   What a program may do from a given situation: locks are taken in strictly increasing rank and all given
   back; native calls happen under the native mutex; a field is looked at only while that is held; a handle
   is stored only into an object emptied under its backup mutex.
   */
  predicate Disciplined(code: Code, c: Situation) {
    match code
    case Done => c.held == {} && c.kind == NoHandle && c.emptied == {}
    case Acquire(l, mode, next) => c.MayLock(l) && Disciplined(next, c.Lock(l, mode))
    case Release(l, mode, next) =>
      Hold(l, mode) in c.held && (l.FfiMu? ==> c.kind != Looking) && Disciplined(next, c.Unlock(l, mode))
    case StartNative(next) => FFI in c.held && c.kind == NoHandle && Disciplined(next, c.(kind := Owning))
    case CallNative(next) => FFI in c.held && c.kind != NoHandle && Disciplined(next, c)
    case FreeNative(next) => FFI in c.held && c.kind == Owning && Disciplined(next, c.(kind := NoHandle))
    case LoadHandle(o, next) => FFI in c.held && c.kind == NoHandle && o in c.known && Disciplined(next, c.(kind := Looking))
    case ForgetHandle(next) => c.kind == Looking && Disciplined(next, c.(kind := NoHandle))
    case TakeHandle(o, next) => c.kind == NoHandle && o in c.known && Disciplined(next, c.Take(o))
    case Publish(o, next) => c.kind == Owning && o in c.reserved && Disciplined(next, c.Publish(o))
    case StoreHandle(o, next) =>
      && c.kind == Owning && o in c.emptied && o in c.known && Hold(StateMu(o), Exclusive) in c.held
      && Disciplined(next, c.Store(o))
    case ReturnIfNull(onNull, next) =>
      c.kind == Owning && Disciplined(onNull, c.(kind := NoHandle)) && Disciplined(next, c)
    case ReturnUnlessStarted(o, onStopped, next) => o in c.known && Disciplined(onStopped, c) && Disciplined(next, c)
    case MayReturn(onReturn, next) => Disciplined(onReturn, c) && Disciplined(next, c)
  }

  // ---- Every operation keeps the discipline ----

  lemma LockThenUnlock(c: Situation, l: Lock, mode: Mode)
    requires c.MayLock(l) && !l.BackupMu?
    ensures c.Lock(l, mode).Unlock(l, mode) == c
  {
    assert Hold(l, mode) !in c.held;
    assert c.held + {Hold(l, mode)} - {Hold(l, mode)} == c.held;
    assert c.emptied - {} == c.emptied;
  }

  lemma CloseIsDisciplined(o: ObjectId, isServer: bool, k: Code, c: Situation)
    requires c.kind == NoHandle && c.MayLock(StateMu(o)) && Disciplined(k, c.Take(o).(kind := NoHandle))
    ensures Disciplined(CloseCode(o, isServer, k), c)
  {
    var c1 := c.Lock(StateMu(o), Exclusive);
    var c2 := c1.Lock(FfiMu, Exclusive);
    var c3 := c2.Take(o);
    var done := c.Take(o).(kind := NoHandle);
    LockThenUnlock(done, StateMu(o), Exclusive);
    LockThenUnlock(done.Lock(StateMu(o), Exclusive), FfiMu, Exclusive);
    var release := Release(FfiMu, Exclusive, Release(StateMu(o), Exclusive, k));
    assert c3.(kind := NoHandle) == done.Lock(StateMu(o), Exclusive).Lock(FfiMu, Exclusive);
    assert Disciplined(Release(StateMu(o), Exclusive, k), done.Lock(StateMu(o), Exclusive));
    assert Disciplined(release, c3.(kind := NoHandle));
    assert Disciplined(FreeNative(release), c3);
    assert Disciplined(CallNative(FreeNative(release)), c3);
    var take := TakeHandle(o, if isServer then CallNative(FreeNative(release)) else FreeNative(release));
    assert Disciplined(take, c2);
    assert Disciplined(Acquire(FfiMu, Exclusive, take), c1);
  }

  lemma UseIsDisciplined(o: ObjectId, k: Code, c: Situation)
    requires c.kind == NoHandle && c.MayLock(FfiMu) && o in c.known && Disciplined(k, c)
    ensures Disciplined(UseCode(o, k), c)
  {
    var locked := c.Lock(FfiMu, Exclusive);
    LockThenUnlock(c, FfiMu, Exclusive);
    var release := Release(FfiMu, Exclusive, k);
    assert Disciplined(release, locked);
    assert Disciplined(ForgetHandle(release), locked.(kind := Looking));
    assert Disciplined(CallNative(ForgetHandle(release)), locked.(kind := Looking));
  }

  lemma LockedSectionIsDisciplined(l: Lock, mode: Mode, k: Code, c: Situation)
    requires c.MayLock(l) && !l.BackupMu? && (l.FfiMu? ==> c.kind != Looking) && Disciplined(k, c)
    ensures Disciplined(Acquire(l, mode, Release(l, mode, k)), c)
  {
    LockThenUnlock(c, l, mode);
  }

  lemma CleanUpIsDisciplined(onError: Code, c: Situation)
    requires c.kind == NoHandle && c.MayLock(FfiMu) && Disciplined(onError, c)
    ensures Disciplined(Acquire(FfiMu, Exclusive, CallNative(FreeNative(Release(FfiMu, Exclusive, onError)))), c.(kind := Owning))
  {
    var locked := c.Lock(FfiMu, Exclusive);
    var both := c.(kind := Owning).Lock(FfiMu, Exclusive);
    LockThenUnlock(c, FfiMu, Exclusive);
    assert both.(kind := NoHandle) == locked;
    assert Disciplined(Release(FfiMu, Exclusive, onError), locked);
    assert Disciplined(FreeNative(Release(FfiMu, Exclusive, onError)), both);
  }

  lemma StartServerIsDisciplined(r: ObjectId, onError: Code, k: Code, c: Situation)
    requires c.kind == NoHandle && c.MayLock(FfiMu) && r in c.reserved
    requires Disciplined(onError, c) && Disciplined(k, c.Publish(r))
    ensures Disciplined(StartServerCode(r, onError, k), c)
  {
    var owning := c.(kind := Owning);
    var locked := c.Lock(FfiMu, Exclusive);
    var both := owning.Lock(FfiMu, Exclusive);
    LockThenUnlock(c, FfiMu, Exclusive);
    LockThenUnlock(owning, FfiMu, Exclusive);
    assert c.MayLock(FfiMu) && owning.MayLock(FfiMu);
    var cleanUp := Acquire(FfiMu, Exclusive, CallNative(FreeNative(Release(FfiMu, Exclusive, onError))));
    CleanUpIsDisciplined(onError, c);
    assert owning.Publish(r) == c.Publish(r);
    var publish := MayReturn(cleanUp, Publish(r, k));
    assert Disciplined(Publish(r, k), owning);
    assert Disciplined(publish, owning);
    var query := Acquire(FfiMu, Exclusive, CallNative(Release(FfiMu, Exclusive, publish)));
    assert Disciplined(Release(FfiMu, Exclusive, publish), both);
    assert Disciplined(CallNative(Release(FfiMu, Exclusive, publish)), both);
    assert Disciplined(query, owning);
    assert owning.(kind := NoHandle) == c;
    var check := ReturnIfNull(onError, query);
    assert Disciplined(check, owning);
    assert Disciplined(Release(FfiMu, Exclusive, check), both);
    assert Disciplined(StartNative(Release(FfiMu, Exclusive, check)), locked);
  }

  lemma EmbeddedQueryIsDisciplined(r: ObjectId, onError: Code, k: Code, c: Situation)
    requires c.kind == NoHandle && c.MayLock(FfiMu) && r in c.reserved
    requires Disciplined(Release(FfiMu, Exclusive, onError), c.Lock(FfiMu, Exclusive)) && Disciplined(k, c.Publish(r))
    ensures var unlock := Release(FfiMu, Exclusive, onError);
            Disciplined(CallNative(MayReturn(FreeNative(unlock), Publish(r, Release(FfiMu, Exclusive, k)))),
                        c.Lock(FfiMu, Exclusive).(kind := Owning))
  {
    var locked := c.Lock(FfiMu, Exclusive);
    var both := locked.(kind := Owning);
    var unlock := Release(FfiMu, Exclusive, onError);
    LockThenUnlock(c.Publish(r), FfiMu, Exclusive);
    assert both.Publish(r) == c.Publish(r).Lock(FfiMu, Exclusive) && both.(kind := NoHandle) == locked;
    assert Disciplined(Release(FfiMu, Exclusive, k), both.Publish(r));
    assert Disciplined(FreeNative(unlock), both);
    assert Disciplined(Publish(r, Release(FfiMu, Exclusive, k)), both);
    assert Disciplined(MayReturn(FreeNative(unlock), Publish(r, Release(FfiMu, Exclusive, k))), both);
  }

  lemma StartEmbeddedIsDisciplined(r: ObjectId, onError: Code, k: Code, c: Situation)
    requires c.kind == NoHandle && c.MayLock(FfiMu) && r in c.reserved
    requires Disciplined(onError, c) && Disciplined(k, c.Publish(r))
    ensures Disciplined(StartEmbeddedCode(r, onError, k), c)
  {
    var locked := c.Lock(FfiMu, Exclusive);
    var both := locked.(kind := Owning);
    LockThenUnlock(c, FfiMu, Exclusive);
    var unlock := Release(FfiMu, Exclusive, onError);
    assert Disciplined(unlock, locked);
    EmbeddedQueryIsDisciplined(r, onError, k, c);
    var query := CallNative(MayReturn(FreeNative(unlock), Publish(r, Release(FfiMu, Exclusive, k))));
    assert both.(kind := NoHandle) == locked;
    assert Disciplined(ReturnIfNull(unlock, query), both);
    assert Disciplined(StartNative(ReturnIfNull(unlock, query)), locked);
    assert Disciplined(MayReturn(unlock, StartNative(ReturnIfNull(unlock, query))), locked);
  }

  lemma StartIsDisciplined(r: ObjectId, isServer: bool, onError: Code, k: Code, c: Situation)
    requires c.kind == NoHandle && c.MayLock(FfiMu) && r in c.reserved
    requires Disciplined(onError, c) && Disciplined(k, c.Publish(r))
    ensures Disciplined(StartCode(r, isServer, onError, k), c)
  {
    if isServer { StartServerIsDisciplined(r, onError, k, c); } else { StartEmbeddedIsDisciplined(r, onError, k, c); }
  }

  /** The situation inside a backup or a maintenance operation on `o`. */
  predicate InBackup(c: Situation, o: ObjectId) {
    c.held == {Hold(BackupMu(o), Exclusive)} && c.kind == NoHandle && o in c.known && c.emptied <= {o}
  }

  lemma UnlockBackupIsDisciplined(o: ObjectId, c: Situation)
    requires InBackup(c, o)
    ensures Disciplined(UnlockBackup(o), c)
  {
    assert c.held - {Hold(BackupMu(o), Exclusive)} == {} && c.emptied - {o} == {};
  }

  lemma RestartIsDisciplined(o: ObjectId, isServer: bool, r: ObjectId, c: Situation)
    requires InBackup(c, o) && o in c.emptied && r in c.reserved && r != o
    ensures Disciplined(RestartCode(o, isServer, r, UnlockBackup(o)), c)
  {
    var k := UnlockBackup(o);
    var published := c.Publish(r);
    var taken := published.Take(r);
    var locked := taken.Lock(StateMu(o), Exclusive);
    var stored := published.Store(o);
    assert Hold(BackupMu(r), Exclusive) !in c.held;
    UnlockBackupIsDisciplined(o, c);
    UnlockBackupIsDisciplined(o, stored);
    LockThenUnlock(stored, StateMu(o), Exclusive);
    assert locked.Store(o) == stored.Lock(StateMu(o), Exclusive);
    assert Disciplined(Release(StateMu(o), Exclusive, k), locked.Store(o));
    var store := StoreHandle(o, Release(StateMu(o), Exclusive, k));
    assert Disciplined(store, locked);
    assert Disciplined(Acquire(StateMu(o), Exclusive, store), taken);
    StartIsDisciplined(r, isServer, k, TakeHandle(r, Acquire(StateMu(o), Exclusive, store)), c);
  }

  lemma SnapshotIsDisciplined(o: ObjectId, onStopped: Code, k: Code, c: Situation)
    requires InBackup(c, o) && Disciplined(onStopped, c) && Disciplined(k, c)
    ensures Disciplined(SnapshotCode(o, onStopped, k), c)
  {
    LockThenUnlock(c, StateMu(o), Shared);
    var locked := c.Lock(StateMu(o), Shared);
    assert Disciplined(Release(StateMu(o), Shared, onStopped), locked);
    assert Disciplined(Release(StateMu(o), Shared, k), locked);
    assert c.MayLock(StateMu(o));
    assert Disciplined(
        ReturnUnlessStarted(o, Release(StateMu(o), Shared, onStopped), Release(StateMu(o), Shared, k)), locked);
  }

  lemma BackupIsDisciplined(o: ObjectId, isServer: bool, r: ObjectId, leaveStopped: bool)
    requires r != o
    ensures Disciplined(BackupCode(o, isServer, r, leaveStopped), Situation({}, NoHandle, {o}, {r}, {}))
  {
    var start := Situation({}, NoHandle, {o}, {r}, {});
    var c := start.Lock(BackupMu(o), Exclusive);
    var closed := c.Take(o).(kind := NoHandle);
    var unlock := UnlockBackup(o);
    assert InBackup(c, o);
    UnlockBackupIsDisciplined(o, c);
    UnlockBackupIsDisciplined(o, closed);
    RestartIsDisciplined(o, isServer, r, closed);
    var finish := if leaveStopped then unlock else RestartCode(o, isServer, r, unlock);
    CloseIsDisciplined(o, isServer, MayReturn(unlock, finish), c);
    var close := CloseCode(o, isServer, MayReturn(unlock, finish));
    LockedSectionIsDisciplined(FfiMu, Exclusive, MayReturn(unlock, close), c);
    SnapshotIsDisciplined(o, unlock, MayReturn(unlock, VersionCode(MayReturn(unlock, close))), c);
  }

  lemma MaintenanceIsDisciplined(o: ObjectId, e: ObjectId, r: ObjectId)
    requires o != e && e != r && o != r
    ensures Disciplined(MaintenanceCode(o, e, r), Situation({}, NoHandle, {o}, {e, r}, {}))
  {
    var start := Situation({}, NoHandle, {o}, {e, r}, {});
    var c := start.Lock(BackupMu(o), Exclusive);
    var closed := c.Take(o).(kind := NoHandle);
    var open := closed.Publish(e);
    var unlock := UnlockBackup(o);
    assert InBackup(c, o);
    UnlockBackupIsDisciplined(o, c);
    UnlockBackupIsDisciplined(o, closed);
    RestartIsDisciplined(o, true, r, closed);
    RestartIsDisciplined(o, true, r, open);
    var restart := RestartCode(o, true, r, unlock);
    assert open.Take(e).(kind := NoHandle) == open;
    CloseIsDisciplined(e, false, restart, open);
    UseIsDisciplined(e, CloseCode(e, false, restart), open);
    var run := UseCode(e, CloseCode(e, false, restart));
    StartEmbeddedIsDisciplined(e, restart, run, closed);
    CloseIsDisciplined(o, true, MayReturn(unlock, StartEmbeddedCode(e, restart, run)), c);
    SnapshotIsDisciplined(o, unlock, CloseCode(o, true, MayReturn(unlock, StartEmbeddedCode(e, restart, run))), c);
  }

  /** Every public operation, started with no lock held on an existing object, keeps the discipline. */
  lemma OperationsAreDisciplined(op: Operation)
    requires op.Objects() !! op.Fresh() && (op.Maintenance? ==> op.fresh0 != op.fresh1)
    ensures Disciplined(op.Code(), Situation({}, NoHandle, op.Objects(), op.Fresh(), {}))
  {
    var c := Situation({}, NoHandle, op.Objects(), op.Fresh(), {});
    match op
    case Start(isServer, r) => StartIsDisciplined(r, isServer, Done, Done, c);
    case Close(o, isServer) => CloseIsDisciplined(o, isServer, Done, c);
    case Use(o) => UseIsDisciplined(o, Done, c);
    case Accessor(o) => LockedSectionIsDisciplined(StateMu(o), Shared, Done, c);
    case Version => LockedSectionIsDisciplined(FfiMu, Exclusive, Done, c);
    case Backup(o, isServer, leaveStopped, r) =>
      assert o in op.Objects() && r in op.Fresh();
      BackupIsDisciplined(o, isServer, r, leaveStopped);
    case Maintenance(o, e, r) =>
      assert o in op.Objects() && e in op.Fresh() && r in op.Fresh();
      MaintenanceIsDisciplined(o, e, r);
  }

  // ---- The invariant ----

  datatype Owner = Field(obj: ObjectId) | Variable(thread: ThreadId)

  ghost predicate Owns(s: State, w: Owner, h: Handle) {
    match w
    case Field(o) => o in s.fields && s.fields[o] == Some(h)
    case Variable(t) => t in s.threads && s.threads[t].local == Owned(Some(h))
  }

  /** Every live handle has exactly one owner, and what is owned is live. */
  ghost predicate OneOwnerEach(s: State) {
    && (forall w, h :: Owns(s, w, h) ==> h in s.live)
    && (forall v, w, h :: Owns(s, v, h) && Owns(s, w, h) ==> v == w)
    && (forall h | h in s.live :: exists w :: Owns(s, w, h))
    && s.live !! s.freed
  }

  ghost predicate ThreadsDisciplined(s: State) {
    forall t | t in s.threads ::
      Disciplined(s.threads[t].code, s.threads[t].Now()) && s.threads[t].known <= s.fields.Keys
  }

  ghost predicate MutualExclusion(s: State) {
    forall t, u, l, mode | t in s.threads && u in s.threads && t != u && Hold(l, Exclusive) in s.threads[t].held ::
      Hold(l, mode) !in s.threads[u].held
  }

  /** A thread that looks at a handle holds the native mutex, so nobody can free it meanwhile. */
  ghost predicate LooksAreSafe(s: State) {
    forall t | t in s.threads && s.threads[t].local.Borrowed? ::
      && FFI in s.threads[t].held
      && (s.threads[t].local.handle.Some? ==> s.threads[t].local.handle.value in s.live)
  }

  ghost predicate EmptiedStayEmpty(s: State) {
    forall t, o | t in s.threads && o in s.threads[t].emptied ::
      Hold(BackupMu(o), Exclusive) in s.threads[t].held && o in s.fields && s.fields[o] == None
  }

  ghost predicate NamesReserved(s: State) {
    && (forall t | t in s.threads :: s.threads[t].reserved !! s.fields.Keys)
    && (forall t, u | t in s.threads && u in s.threads && t != u :: s.threads[t].reserved !! s.threads[u].reserved)
  }

  ghost predicate Inv(s: State) {
    && ThreadsDisciplined(s) && MutualExclusion(s) && OneOwnerEach(s)
    && LooksAreSafe(s) && EmptiedStayEmpty(s) && NamesReserved(s)
  }

  // ---- Preservation ----

  lemma NextKeepsDiscipline(s: State, t: ThreadId, s': State)
    requires Inv(s) && Next(s, t, s')
    ensures ThreadsDisciplined(s')
  {
    assert Disciplined(s.threads[t].code, s.threads[t].Now());
    assert s.fields.Keys <= s'.fields.Keys;
    forall u | u in s'.threads
      ensures Disciplined(s'.threads[u].code, s'.threads[u].Now()) && s'.threads[u].known <= s'.fields.Keys
    {
      if u == t {
        assert s'.threads[t].known <= s'.fields.Keys;
      } else {
        assert s'.threads[u] == s.threads[u];
      }
    }
  }

  /** A step changes one thread, and it gains a lock only when that is free. */
  lemma StepIsLocal(s: State, t: ThreadId, s': State)
    requires Next(s, t, s')
    ensures s'.threads.Keys == s.threads.Keys && forall u | u in s.threads && u != t :: s'.threads[u] == s.threads[u]
    ensures forall l, mode | Hold(l, mode) in s'.threads[t].held :: Hold(l, mode) in s.threads[t].held || Free(s, l, mode)
  {
    hide Free;
  }

  lemma NextKeepsExclusion(s: State, t: ThreadId, s': State)
    requires MutualExclusion(s) && Next(s, t, s')
    ensures MutualExclusion(s')
  {
    StepIsLocal(s, t, s');
    hide Next;
    forall u, v, l, mode | u in s'.threads && v in s'.threads && u != v && Hold(l, Exclusive) in s'.threads[u].held
      ensures Hold(l, mode) !in s'.threads[v].held
    {
      assert mode == Exclusive || mode == Shared;
      if Hold(l, Exclusive) in s.threads[u].held {
        assert Hold(l, mode) !in s.threads[v].held;
      } else {
        assert u == t && Free(s, l, Exclusive);
      }
    }
  }

  /** What a step does to the fields and to the bookkeeping of its thread. */
  lemma StepEffect(s: State, t: ThreadId, s': State)
    requires Next(s, t, s')
    ensures var th, th' := s.threads[t], s'.threads[t];
            && s'.fields == (match th.code
                             case TakeHandle(o, _) => s.fields[o := None]
                             case Publish(o, _) => s.fields[o := th.local.handle]
                             case StoreHandle(o, _) => s.fields[o := th.local.handle]
                             case _ => s.fields)
            && (th.code.TakeHandle? || th.code.StoreHandle? ==> th.code.obj in s.fields)
            && th'.reserved == (if th.code.Publish? then th.reserved - {th.code.obj} else th.reserved)
            && th'.emptied == (match th.code
                               case TakeHandle(o, _) => th.Now().Take(o).emptied
                               case StoreHandle(o, _) => th.emptied - {o}
                               case Release(l, _, _) => th.emptied - Opened(l)
                               case _ => th.emptied)
            && (forall h | h in th.held :: h in th'.held || (th.code.Release? && h == Hold(th.code.lock, th.code.mode)))
  {
  }

  /** Where a handle is about to go there is none, and a thread that frees owns what it frees. */
  lemma HandlesHaveRoom(s: State, t: ThreadId)
    requires Inv(s) && t in s.threads
    ensures var th := s.threads[t];
            && (th.code.StartNative? || th.code.LoadHandle? || th.code.TakeHandle? ==> th.local == Empty)
            && (th.code.ForgetHandle? ==> th.local.Borrowed?)
            && (th.code.Publish? ==> th.code.obj !in s.fields)
            && (th.code.StoreHandle? ==>
                  th.code.obj in th.emptied && th.code.obj in s.fields && s.fields[th.code.obj] == None)
  {
    assert Disciplined(s.threads[t].code, s.threads[t].Now());
  }

  lemma NextKeepsNames(s: State, t: ThreadId, s': State)
    requires Inv(s) && Next(s, t, s')
    ensures NamesReserved(s')
  {
    assert Disciplined(s.threads[t].code, s.threads[t].Now());
    StepIsLocal(s, t, s');
    StepEffect(s, t, s');
    hide Next;
    var th := s.threads[t];
    assert th.code.Publish? ==> th.code.obj in th.reserved;
    hide Disciplined, ThreadsDisciplined, MutualExclusion, OneOwnerEach, LooksAreSafe, EmptiedStayEmpty;
    assert s'.threads[t].reserved <= th.reserved;
  }

  lemma NextKeepsEmptied(s: State, t: ThreadId, s': State)
    requires EmptiedStayEmpty(s) && MutualExclusion(s) && Next(s, t, s')
    requires s.threads[t].code.StoreHandle? ==> s.threads[t].code.obj in s.threads[t].emptied
    requires s.threads[t].code.Publish? ==> s.threads[t].code.obj !in s.fields
    ensures EmptiedStayEmpty(s')
  {
    StepIsLocal(s, t, s');
    StepEffect(s, t, s');
    hide Next;
    var th := s.threads[t];
    forall u, o | u in s'.threads && o in s'.threads[u].emptied
      ensures Hold(BackupMu(o), Exclusive) in s'.threads[u].held && o in s'.fields && s'.fields[o] == None
    {
      if u != t {
        assert o in s.threads[u].emptied;
        if th.code.StoreHandle? {
          assert Hold(BackupMu(th.code.obj), Exclusive) in th.held;
          assert Hold(BackupMu(th.code.obj), Exclusive) !in s.threads[u].held;
        }
      }
    }
  }

  lemma NextKeepsLooks(s: State, t: ThreadId, s': State)
    requires Inv(s) && Next(s, t, s')
    ensures LooksAreSafe(s')
  {
    StepIsLocal(s, t, s');
    var th := s.threads[t];
    assert Disciplined(th.code, th.Now());
    forall u | u in s'.threads && s'.threads[u].local.Borrowed?
      ensures FFI in s'.threads[u].held
      ensures s'.threads[u].local.handle.Some? ==> s'.threads[u].local.handle.value in s'.live
    {
      if u != t {
        assert s'.threads[u] == s.threads[u];
        assert Hold(FfiMu, Exclusive) !in th.held;
      } else if th.code.LoadHandle? && s.fields[th.code.obj].Some? {
        assert Owns(s, Field(th.code.obj), s.fields[th.code.obj].value);
      }
    }
  }

  /** Steps that touch no handle change no owner. */
  lemma SameOwners(s: State, s': State)
    requires OneOwnerEach(s) && s'.live == s.live && s'.freed == s.freed
    requires forall w, h :: Owns(s', w, h) <==> Owns(s, w, h)
    ensures OneOwnerEach(s')
  {
    forall h | h in s'.live
      ensures exists w :: Owns(s', w, h)
    {
      var w :| Owns(s, w, h);
      assert Owns(s', w, h);
    }
  }

  /** Handles move from one owner to another that had none. */
  lemma OwnershipMoves(s: State, s': State, origin: Owner, dest: Owner)
    requires OneOwnerEach(s) && s'.live == s.live && s'.freed == s.freed && origin != dest
    requires forall h :: !Owns(s, dest, h) && !Owns(s', origin, h) && (Owns(s', dest, h) <==> Owns(s, origin, h))
    requires forall w, h | w != origin && w != dest :: Owns(s', w, h) <==> Owns(s, w, h)
    ensures OneOwnerEach(s')
  {
    forall h | h in s'.live
      ensures exists w :: Owns(s', w, h)
    {
      var w :| Owns(s, w, h);
      assert Owns(s', if w == origin then dest else w, h);
    }
    forall v, w, h | Owns(s', v, h) && Owns(s', w, h)
      ensures v == w
    {
      assert Owns(s, if v == dest then origin else v, h) && Owns(s, if w == dest then origin else w, h);
    }
    forall w, h | Owns(s', w, h)
      ensures h in s'.live
    {
      assert Owns(s, if w == dest then origin else w, h);
    }
  }

  lemma OwnershipBegins(s: State, s': State, owner: Owner, h: Handle)
    requires OneOwnerEach(s) && h !in s.live && h !in s.freed && s'.live == s.live + {h} && s'.freed == s.freed
    requires forall g :: !Owns(s, owner, g) && (Owns(s', owner, g) <==> g == h)
    requires forall w, g | w != owner :: Owns(s', w, g) <==> Owns(s, w, g)
    ensures OneOwnerEach(s')
  {
    forall g | g in s'.live
      ensures exists w :: Owns(s', w, g)
    {
      if g == h {
        assert Owns(s', owner, h);
      } else {
        var w :| Owns(s, w, g);
        assert Owns(s', w, g);
      }
    }
  }

  lemma OwnershipEnds(s: State, s': State, owner: Owner, h: Handle)
    requires OneOwnerEach(s) && Owns(s, owner, h) && s'.live == s.live - {h} && s'.freed == s.freed + {h}
    requires forall g :: !Owns(s', owner, g)
    requires forall w, g | w != owner :: Owns(s', w, g) <==> Owns(s, w, g)
    ensures OneOwnerEach(s')
  {
    forall g | g in s'.live
      ensures exists w :: Owns(s', w, g)
    {
      var w :| Owns(s, w, g);
      if w == owner {
        assert false by { OwnsOne(s, owner, g, h); }
      }
      assert Owns(s', w, g);
    }
  }

  lemma OwnsOne(s: State, w: Owner, g: Handle, h: Handle)
    requires Owns(s, w, g) && Owns(s, w, h)
    ensures g == h
  {
  }

  lemma StartKeepsOwners(s: State, t: ThreadId, s': State)
    requires OneOwnerEach(s) && Next(s, t, s') && s.threads[t].code.StartNative? && s.threads[t].local == Empty
    ensures OneOwnerEach(s')
  {
    hide OneOwnerEach;
    if s'.threads[t].local.handle.Some? {
      OwnershipBegins(s, s', Variable(t), s'.threads[t].local.handle.value);
    } else {
      SameOwners(s, s');
    }
  }

  lemma FreeKeepsOwners(s: State, t: ThreadId, s': State)
    requires OneOwnerEach(s) && Next(s, t, s') && s.threads[t].code.FreeNative?
    ensures OneOwnerEach(s')
  {
    hide OneOwnerEach;
    if s.threads[t].local.handle.Some? {
      OwnershipEnds(s, s', Variable(t), s.threads[t].local.handle.value);
    } else {
      SameOwners(s, s');
    }
  }

  lemma TakeKeepsOwners(s: State, t: ThreadId, s': State)
    requires OneOwnerEach(s) && Next(s, t, s') && s.threads[t].code.TakeHandle? && s.threads[t].local == Empty
    ensures OneOwnerEach(s')
  {
    hide OneOwnerEach;
    OwnershipMoves(s, s', Field(s.threads[t].code.obj), Variable(t));
  }

  lemma GiveKeepsOwners(s: State, t: ThreadId, s': State)
    requires OneOwnerEach(s) && Next(s, t, s') && (s.threads[t].code.Publish? || s.threads[t].code.StoreHandle?)
    requires s.threads[t].code.obj in s.fields ==> s.fields[s.threads[t].code.obj] == None
    ensures OneOwnerEach(s')
  {
    hide OneOwnerEach;
    OwnershipMoves(s, s', Variable(t), Field(s.threads[t].code.obj));
  }

  lemma OtherStepsKeepOwners(s: State, t: ThreadId, s': State)
    requires OneOwnerEach(s) && Next(s, t, s')
    requires var code := s.threads[t].code;
             !(code.StartNative? || code.FreeNative? || code.TakeHandle? || code.Publish? || code.StoreHandle?)
    requires s.threads[t].code.LoadHandle? ==> s.threads[t].local == Empty
    requires s.threads[t].code.ForgetHandle? ==> s.threads[t].local.Borrowed?
    ensures OneOwnerEach(s')
  {
    hide OneOwnerEach;
    assert s'.fields == s.fields && s'.live == s.live && s'.freed == s.freed;
    assert forall u | u in s.threads && u != t :: u in s'.threads && s'.threads[u] == s.threads[u];
    assert forall u | u in s'.threads :: u in s.threads;
    assert forall h :: s'.threads[t].local == Owned(Some(h)) <==> s.threads[t].local == Owned(Some(h));
    hide Next;
    SameOwners(s, s');
  }

  lemma NextKeepsOwners(s: State, t: ThreadId, s': State)
    requires Inv(s) && Next(s, t, s')
    ensures OneOwnerEach(s')
  {
    HandlesHaveRoom(s, t);
    assert OneOwnerEach(s);
    hide Inv, OneOwnerEach, Next;
    var code := s.threads[t].code;
    if code.StartNative? {
      StartKeepsOwners(s, t, s');
    } else if code.FreeNative? {
      FreeKeepsOwners(s, t, s');
    } else if code.TakeHandle? {
      TakeKeepsOwners(s, t, s');
    } else if code.Publish? || code.StoreHandle? {
      GiveKeepsOwners(s, t, s');
    } else {
      OtherStepsKeepOwners(s, t, s');
    }
  }

  lemma NextKeepsInv(s: State, t: ThreadId, s': State)
    requires Inv(s) && Next(s, t, s')
    ensures Inv(s')
  {
    NextKeepsDiscipline(s, t, s');
    NextKeepsExclusion(s, t, s');
    NextKeepsNames(s, t, s');
    HandlesHaveRoom(s, t);
    NextKeepsEmptied(s, t, s');
    NextKeepsLooks(s, t, s');
    NextKeepsOwners(s, t, s');
    hide *;
  }

  lemma BeginKeepsInv(s: State, t: ThreadId, op: Operation, s': State)
    requires Inv(s) && Begin(s, t, op, s')
    ensures Inv(s')
  {
    BeginKeepsThreads(s, t, op, s');
    BeginKeepsNames(s, t, op, s');
    BeginStartsOver(s, t, op, s');
    StartingOverKeepsExclusion(s, t, s');
    StartingOverKeepsLooks(s, t, s');
    StartingOverKeepsEmptied(s, t, s');
    if t in s.threads { IdleIsEmptyHanded(s, t); }
    StartingOverKeepsOwners(s, t, s');
    hide *;
  }

  lemma BeginKeepsThreads(s: State, t: ThreadId, op: Operation, s': State)
    requires ThreadsDisciplined(s) && Begin(s, t, op, s')
    ensures ThreadsDisciplined(s')
  {
    assert op.Objects() !! op.Fresh();
    OperationsAreDisciplined(op);
    hide Disciplined;
    forall u | u in s'.threads
      ensures Disciplined(s'.threads[u].code, s'.threads[u].Now()) && s'.threads[u].known <= s'.fields.Keys
    {
      if u != t {
        assert s'.threads[u] == s.threads[u];
      }
    }
  }

  /** One thread starts over, with no lock and no handle; the rest is as it was. */
  ghost predicate StartsOver(s: State, t: ThreadId, s': State) {
    && s'.fields == s.fields && s'.live == s.live && s'.freed == s.freed
    && s'.threads.Keys == s.threads.Keys + {t}
    && (forall u | u in s.threads && u != t :: s'.threads[u] == s.threads[u])
    && s'.threads[t].held == {} && s'.threads[t].local == Empty && s'.threads[t].emptied == {}
  }

  lemma BeginStartsOver(s: State, t: ThreadId, op: Operation, s': State)
    requires Begin(s, t, op, s')
    ensures StartsOver(s, t, s') && s'.threads[t].reserved == op.Fresh()
    ensures op.Fresh() !! s.fields.Keys && forall u | u in s.threads :: op.Fresh() !! s.threads[u].reserved
  {
    hide Idle;
  }

  lemma IdleIsEmptyHanded(s: State, t: ThreadId)
    requires ThreadsDisciplined(s) && Idle(s, t) && t in s.threads
    ensures s.threads[t].local == Empty
  {
    assert Disciplined(s.threads[t].code, s.threads[t].Now());
  }

  lemma StartingOverKeepsExclusion(s: State, t: ThreadId, s': State)
    requires MutualExclusion(s) && StartsOver(s, t, s')
    ensures MutualExclusion(s')
  {
    forall u, v, l, mode | u in s'.threads && v in s'.threads && u != v && Hold(l, Exclusive) in s'.threads[u].held
      ensures Hold(l, mode) !in s'.threads[v].held
    {
      assert u != t;
      assert v != t ==> s'.threads[v] == s.threads[v];
    }
  }

  lemma StartingOverKeepsLooks(s: State, t: ThreadId, s': State)
    requires LooksAreSafe(s) && StartsOver(s, t, s')
    ensures LooksAreSafe(s')
  {
    forall u | u in s'.threads && s'.threads[u].local.Borrowed?
      ensures FFI in s'.threads[u].held
      ensures s'.threads[u].local.handle.Some? ==> s'.threads[u].local.handle.value in s'.live
    {
      assert s'.threads[u] == s.threads[u];
    }
  }

  lemma StartingOverKeepsEmptied(s: State, t: ThreadId, s': State)
    requires EmptiedStayEmpty(s) && StartsOver(s, t, s')
    ensures EmptiedStayEmpty(s')
  {
    forall u, o | u in s'.threads && o in s'.threads[u].emptied
      ensures Hold(BackupMu(o), Exclusive) in s'.threads[u].held && o in s'.fields && s'.fields[o] == None
    {
      assert s'.threads[u] == s.threads[u];
    }
  }

  lemma BeginKeepsNames(s: State, t: ThreadId, op: Operation, s': State)
    requires NamesReserved(s) && Begin(s, t, op, s')
    ensures NamesReserved(s')
  {
    BeginStartsOver(s, t, op, s');
    hide Begin;
    forall u | u in s'.threads
      ensures s'.threads[u].reserved !! s'.fields.Keys
    {
      assert u != t ==> s'.threads[u] == s.threads[u];
    }
    forall u, v | u in s'.threads && v in s'.threads && u != v
      ensures s'.threads[u].reserved !! s'.threads[v].reserved
    {
      assert u != t ==> s'.threads[u] == s.threads[u];
      assert v != t ==> s'.threads[v] == s.threads[v];
    }
  }

  lemma StartingOverKeepsOwners(s: State, t: ThreadId, s': State)
    requires OneOwnerEach(s) && StartsOver(s, t, s') && (t in s.threads ==> s.threads[t].local == Empty)
    ensures OneOwnerEach(s')
  {
    hide OneOwnerEach;
    forall w, h
      ensures Owns(s', w, h) <==> Owns(s, w, h)
    {
      assert w.Variable? && w.thread in s.threads && w.thread != t ==> s'.threads[w.thread] == s.threads[w.thread];
    }
    hide Owns, StartsOver;
    SameOwners(s, s') by { assert s'.live == s.live && s'.freed == s.freed; }
  }

  lemma {:induction false} RunsKeepInv(states: seq<State>, events: seq<Event>, n: nat)
    requires IsRun(states, events) && n <= |events|
    ensures Inv(states[n])
  {
    if n > 0 {
      RunsKeepInv(states, events, n - 1);
      assert Occurs(states[n - 1], events[n - 1], states[n - 1 + 1]);
      match events[n - 1]
      case Run(t) => NextKeepsInv(states[n - 1], t, states[n]);
      case Call(t, op) => BeginKeepsInv(states[n - 1], t, op, states[n]);
    }
  }

  // ---- Ownership: the main result ----

  /** What goes wrong when a handle is misused. */
  ghost predicate MisusesHandle(s: State, t: ThreadId) {
    t in s.threads &&
    var th := s.threads[t];
    var handle := if th.local.Empty? then None else th.local.handle;
    match th.code
    case CallNative(_) => handle.Some? && handle.value !in s.live
    case FreeNative(_) => handle.Some? && (handle.value !in s.live || handle.value in s.freed)
    case StoreHandle(o, _) => o in s.fields && s.fields[o].Some?
    case Publish(o, _) => o in s.fields
    case _ => false
  }

  /**
   In every state of every run, each live handle has exactly one owner, a field or a local variable; no
   thread is about to call or free a handle that was freed, nor to overwrite a handle with another one.
   */
  lemma HandlesAreNeverMisused(states: seq<State>, events: seq<Event>, n: nat, t: ThreadId)
    requires IsRun(states, events) && n <= |events|
    ensures OneOwnerEach(states[n]) && !MisusesHandle(states[n], t)
  {
    RunsKeepInv(states, events, n);
    var s := states[n];
    if t in s.threads {
      var th := s.threads[t];
      assert Disciplined(th.code, th.Now());
      HandlesHaveRoom(s, t);
      if th.local.Owned? && th.local.handle.Some? {
        assert Owns(s, Variable(t), th.local.handle.value);
      }
    }
  }

  /** A handle that was freed stays freed and is never live again: every handle is freed at most once. */
  lemma {:induction false} FreedStaysFreed(states: seq<State>, events: seq<Event>, m: nat, n: nat)
    requires IsRun(states, events) && m <= n <= |events|
    ensures states[m].freed <= states[n].freed && states[m].freed !! states[n].live
    decreases n
  {
    RunsKeepInv(states, events, n);
    if m < n {
      FreedStaysFreed(states, events, m, n - 1);
      assert Occurs(states[n - 1], events[n - 1], states[n - 1 + 1]);
    }
  }

  // ---- Locks: no deadlock ----

  ghost predicate Busy(s: State, t: ThreadId) {
    t in s.threads && !s.threads[t].code.Done?
  }

  ghost predicate Awaits(s: State, t: ThreadId, l: Lock, mode: Mode) {
    t in s.threads && s.threads[t].code.Acquire? && s.threads[t].code.lock == l && s.threads[t].code.mode == mode
  }

  ghost predicate Conflicts(s: State, u: ThreadId, l: Lock, mode: Mode) {
    u in s.threads && (Hold(l, Exclusive) in s.threads[u].held || (mode.Exclusive? && Hold(l, Shared) in s.threads[u].held))
  }

  /**
   `t` cannot go on before `u` does: `u` holds the lock in a conflicting mode, or `t` wants to read and `u`
   waits to write, since a waiting writer keeps new readers out.
   */
  ghost predicate WaitsFor(s: State, t: ThreadId, u: ThreadId) {
    exists l, mode :: Awaits(s, t, l, mode) && (Conflicts(s, u, l, mode) || (mode.Shared? && t != u && Awaits(s, u, l, Exclusive)))
  }

  /** Nobody keeps the thread from taking its next step. */
  ghost predicate CanRun(s: State, t: ThreadId) {
    Busy(s, t) && forall u :: !WaitsFor(s, t, u)
  }

  /** A thread that nobody holds up has a next step. */
  lemma RunnableSteps(s: State, t: ThreadId)
    requires Inv(s) && CanRun(s, t)
    ensures exists s' :: Next(s, t, s')
  {
    var th := s.threads[t];
    assert Disciplined(th.code, th.Now());
    assert th.known <= s.fields.Keys;
    match th.code {
      case Acquire(l, mode, next) =>
        assert Awaits(s, t, l, mode);
        forall u | u in s.threads
          ensures Hold(l, Exclusive) !in s.threads[u].held && (mode.Exclusive? ==> Hold(l, Shared) !in s.threads[u].held)
        {
          assert !WaitsFor(s, t, u);
          assert !Conflicts(s, u, l, mode);
        }
        assert Next(s, t, Put(s, t, th.(held := th.held + {Hold(l, mode)}, code := next)));
      case Release(l, mode, next) =>
        assert Next(s, t, Put(s, t, th.(held := th.held - {Hold(l, mode)}, emptied := th.emptied - Opened(l), code := next)));
      case StartNative(next) => assert Next(s, t, Put(s, t, th.(local := Owned(None), code := next)));
      case CallNative(next) => assert Next(s, t, Put(s, t, th.(code := next)));
      case FreeNative(next) =>
        var after := Put(s, t, th.(local := Empty, code := next));
        assert Next(s, t, if th.local.handle.None? then after
                          else after.(live := s.live - {th.local.handle.value}, freed := s.freed + {th.local.handle.value}));
      case LoadHandle(o, next) => assert Next(s, t, Put(s, t, th.(local := Borrowed(s.fields[o]), code := next)));
      case ForgetHandle(next) => assert Next(s, t, Put(s, t, th.(local := Empty, code := next)));
      case TakeHandle(o, next) =>
        var emptied := if Hold(BackupMu(o), Exclusive) in th.held then th.emptied + {o} else th.emptied;
        assert Next(s, t, Put(s, t, th.(local := Owned(s.fields[o]), emptied := emptied, code := next)).(fields := s.fields[o := None]));
      case Publish(o, next) =>
        assert Next(s, t, Put(s, t, th.(local := Empty, reserved := th.reserved - {o}, known := th.known + {o}, code := next))
                          .(fields := s.fields[o := th.local.handle]));
      case StoreHandle(o, next) =>
        assert Next(s, t, Put(s, t, th.(local := Empty, emptied := th.emptied - {o}, code := next)).(fields := s.fields[o := th.local.handle]));
      case ReturnIfNull(onNull, next) =>
        assert Next(s, t, Put(s, t, if th.local == Owned(None) then th.(local := Empty, code := onNull) else th.(code := next)));
      case ReturnUnlessStarted(o, onStopped, next) =>
        assert Next(s, t, Put(s, t, th.(code := if s.fields[o].None? then onStopped else next)));
      case MayReturn(onReturn, next) => assert Next(s, t, Put(s, t, th.(code := next)));
    }
  }

  /** How high in the lock order a waiting thread waits; writers above readers. */
  ghost function Level(s: State, t: ThreadId): nat
    requires t in s.threads && s.threads[t].code.Acquire?
  {
    2 * s.threads[t].code.lock.Rank() + (if s.threads[t].code.mode.Exclusive? then 1 else 0)
  }

  /** Whoever holds a thread up either runs or waits strictly higher in the lock order, and is in an operation. */
  lemma WaitingClimbs(s: State, t: ThreadId, u: ThreadId)
    requires Inv(s) && WaitsFor(s, t, u)
    ensures s.threads[t].code.Acquire? && Busy(s, u)
    ensures s.threads[u].code.Acquire? ==> Level(s, t) < Level(s, u)
  {
    var l, mode :| Awaits(s, t, l, mode) && (Conflicts(s, u, l, mode) || (mode.Shared? && t != u && Awaits(s, u, l, Exclusive)));
    if Conflicts(s, u, l, mode) {
      var h :| h in s.threads[u].held && h.lock == l;
      assert Disciplined(s.threads[u].code, s.threads[u].Now());
    }
  }

  /** No wait cycle: along any chain of waiting threads the level strictly increases. */
  lemma {:induction false} NoWaitCycle(s: State, chain: seq<ThreadId>)
    requires Inv(s) && |chain| >= 2
    requires forall i | 0 <= i < |chain| - 1 :: WaitsFor(s, chain[i], chain[i + 1])
    ensures chain[0] != chain[|chain| - 1]
  {
    var last := chain[|chain| - 1];
    WaitingClimbs(s, chain[0], chain[1]);
    if last in s.threads && s.threads[last].code.Acquire? {
      ChainClimbs(s, chain);
    }
  }

  lemma {:induction false} ChainClimbs(s: State, chain: seq<ThreadId>)
    requires Inv(s) && |chain| >= 2
    requires forall i | 0 <= i < |chain| - 1 :: WaitsFor(s, chain[i], chain[i + 1])
    requires var last := chain[|chain| - 1]; last in s.threads && s.threads[last].code.Acquire?
    ensures chain[0] in s.threads && s.threads[chain[0]].code.Acquire?
    ensures Level(s, chain[0]) < Level(s, chain[|chain| - 1])
  {
    WaitingClimbs(s, chain[0], chain[1]);
    if |chain| > 2 {
      var rest := chain[1..];
      forall i | 0 <= i < |rest| - 1
        ensures WaitsFor(s, rest[i], rest[i + 1])
      {
        assert WaitsFor(s, chain[i + 1], chain[i + 1 + 1]);
      }
      ChainClimbs(s, rest);
    }
  }

  lemma {:induction false} SomeoneRunsAbove(s: State, t: ThreadId) returns (u: ThreadId)
    requires Inv(s) && Busy(s, t)
    ensures CanRun(s, u)
    decreases if s.threads[t].code.Acquire? then 6 - Level(s, t) else 0
  {
    if forall u :: !WaitsFor(s, t, u) {
      u := t;
    } else {
      var v :| WaitsFor(s, t, v);
      WaitingClimbs(s, t, v);
      u := SomeoneRunsAbove(s, v);
    }
  }

  /**
   Freedom from deadlock: in every state of every run in which some operation is under way, some thread
   that nobody holds up has a next step, and no threads wait for each other in a circle.
   */
  lemma NeverDeadlocked(states: seq<State>, events: seq<Event>, n: nat, t: ThreadId, chain: seq<ThreadId>)
    requires IsRun(states, events) && n <= |events|
    ensures Busy(states[n], t) ==> exists u, s' :: CanRun(states[n], u) && Next(states[n], u, s')
    ensures |chain| >= 2 && (forall i | 0 <= i < |chain| - 1 :: WaitsFor(states[n], chain[i], chain[i + 1])) ==>
              chain[0] != chain[|chain| - 1]
  {
    RunsKeepInv(states, events, n);
    if Busy(states[n], t) {
      var u := SomeoneRunsAbove(states[n], t);
      RunnableSteps(states[n], u);
      var s' :| Next(states[n], u, s');
      assert CanRun(states[n], u) && Next(states[n], u, s');
    }
    if |chain| >= 2 && (forall i | 0 <= i < |chain| - 1 :: WaitsFor(states[n], chain[i], chain[i + 1])) {
      NoWaitCycle(states[n], chain);
    }
  }

  // ---- Termination ----

  function Size(code: Code): nat {
    match code
    case Done => 0
    case Acquire(_, _, next) => 1 + Size(next)
    case Release(_, _, next) => 1 + Size(next)
    case StartNative(next) => 1 + Size(next)
    case CallNative(next) => 1 + Size(next)
    case FreeNative(next) => 1 + Size(next)
    case LoadHandle(_, next) => 1 + Size(next)
    case ForgetHandle(next) => 1 + Size(next)
    case TakeHandle(_, next) => 1 + Size(next)
    case Publish(_, next) => 1 + Size(next)
    case StoreHandle(_, next) => 1 + Size(next)
    case ReturnIfNull(onNull, next) => 1 + Size(onNull) + Size(next)
    case ReturnUnlessStarted(_, onStopped, next) => 1 + Size(onStopped) + Size(next)
    case MayReturn(onReturn, next) => 1 + Size(onReturn) + Size(next)
  }

  ghost function Work(threads: map<ThreadId, Thread>): nat
    decreases |threads|
  {
    if threads == map[] then 0 else
    var t :| t in threads;
    Size(threads[t].code) + Work(threads - {t})
  }

  lemma {:induction false} WorkSplits(threads: map<ThreadId, Thread>, t: ThreadId)
    requires t in threads
    ensures Work(threads) == Size(threads[t].code) + Work(threads - {t})
    decreases |threads|
  {
    var u :| u in threads && Work(threads) == Size(threads[u].code) + Work(threads - {u});
    if u != t {
      WorkSplits(threads - {u}, t);
      WorkSplits(threads - {t}, u);
      assert threads - {u} - {t} == threads - {t} - {u};
    }
  }

  /** Every step uses up some of the work under way, so operations finish once no new ones are called. */
  lemma StepsUseUpWork(s: State, t: ThreadId, s': State)
    requires Next(s, t, s')
    ensures Work(s'.threads) < Work(s.threads)
  {
    StepIsLocal(s, t, s');
    assert Size(s'.threads[t].code) < Size(s.threads[t].code);
    WorkSplits(s.threads, t);
    WorkSplits(s'.threads, t);
    assert s'.threads - {t} == s.threads - {t};
  }

  /** One step of a thread that nobody holds up. */
  ghost predicate Progresses(s: State, s': State) {
    exists t :: CanRun(s, t) && Next(s, t, s')
  }

  ghost predicate AllIdle(s: State) {
    forall t | t in s.threads :: s.threads[t].code.Done?
  }

  lemma BusyMeansProgress(s: State) returns (s': State)
    requires Inv(s) && !AllIdle(s)
    ensures Progresses(s, s') && Inv(s') && Work(s'.threads) < Work(s.threads)
  {
    var t :| t in s.threads && !s.threads[t].code.Done?;
    var u := SomeoneRunsAbove(s, t);
    RunnableSteps(s, u);
    s' :| Next(s, u, s');
    NextKeepsInv(s, u, s');
    StepsUseUpWork(s, u, s');
  }

  /** Steps of threads that nobody holds up, until no operation is under way. */
  ghost predicate EndsIdle(states: seq<State>) {
    && states != [] && AllIdle(states[|states| - 1])
    && forall i | 0 < i < |states| :: Progresses(states[i - 1], states[i])
  }

  lemma ProgressExtends(s: State, states: seq<State>)
    requires EndsIdle(states) && Progresses(s, states[0])
    ensures EndsIdle([s] + states)
  {
    hide Progresses, AllIdle;
    var longer := [s] + states;
    forall i | 0 < i < |longer|
      ensures Progresses(longer[i - 1], longer[i])
    {
      if i > 1 {
        assert Progresses(states[i - 2], states[i - 1]);
      }
    }
  }

  /** From any reachable state, letting threads that can run do so ends every operation under way. */
  lemma {:induction false} OperationsFinish(s: State) returns (states: seq<State>)
    requires Inv(s)
    ensures EndsIdle(states) && states[0] == s
    decreases Work(s.threads)
  {
    if AllIdle(s) {
      states := [s];
    } else {
      var s' := BusyMeansProgress(s);
      hide *;
      states := OperationsFinish(s');
      ProgressExtends(s, states);
      states := [s] + states;
    }
  }

  /** Whatever happened so far, the operations under way can all be brought to their end. */
  lemma EveryRunCanFinish(states: seq<State>, events: seq<Event>, n: nat) returns (rest: seq<State>)
    requires IsRun(states, events) && n <= |events|
    ensures EndsIdle(rest) && rest[0] == states[n]
  {
    RunsKeepInv(states, events, n);
    rest := OperationsFinish(states[n]);
  }
}
