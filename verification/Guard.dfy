/** The cross-process protocol around the lockfile: an exclusively created guard file, a temporary file that
    is renamed into place, and readers that take no guard. Every file operation is one atomic step; any
    process may crash between two of them. Inode numbers may be reused once nothing links or opens them. */
module Guard {
  import opened Wrappers
  import opened PackLock
  import opened PackSteps
  import Graph

  type Pid = nat
  type Ino = nat
  type Bytes = seq<nat>

  /** The mutation an operation performs on a lock, and the file format. */
  datatype System = System(
    apply: (Op, Lock) -> Option<Lock>,
    dump: Lock -> Bytes,
    load: Bytes -> Option<Lock>,
    initial: Lock)

  /** Of every lock that the schema accepts, parsing gives back what was serialized. */
  ghost predicate Parses(sys: System) { forall l | WellNamed(l) :: sys.load(sys.dump(l)) == Some(l) }

  /** Mutations keep to locks that the schema accepts. */
  ghost predicate KeepsNames(sys: System) {
    && WellNamed(sys.initial)
    && forall op, l {:trigger sys.apply(op, l)} | WellNamed(l) && sys.apply(op, l).Some? ::
         WellNamed(sys.apply(op, l).value)
  }

  ghost predicate Sound(sys: System) { Parses(sys) && KeepsNames(sys) }

  datatype Reader =
    | NotReading
    | Statted(seen: Option<Ino>)
    | Opened(ino: Ino)
    | Loaded(lock: Lock)

  datatype Phase =
    | Idle
    | Waiting(op: Op)
    | Held(op: Op, fd: Ino)
    | Read(op: Op, fd: Ino, seen: Lock)
    | Ready(op: Op, fd: Ino, seen: Lock, next: Lock)
    | Asserted(op: Op, fd: Ino, seen: Lock, next: Lock)
    | Writing(op: Op, fd: Ino, seen: Lock, next: Lock, tmp: Ino, rest: Bytes)
    | Written(op: Op, fd: Ino, seen: Lock, next: Lock, tmp: Ino)
    | Checked(op: Op, fd: Ino, seen: Lock, next: Lock, tmp: Ino)
    | Cleaning(fd: Ino, tmp: Ino)
    | Leaving(fd: Ino)
    | Closed(fd: Ino)
    | Unlinking(fd: Ino)
    | Crashed

  datatype Proc = Proc(phase: Phase, reader: Reader)

  datatype Commit = Commit(op: Op, before: Lock, after: Lock)

  /** `guard` and `lockFile` are the inodes at the two paths, `temps` those at the temporary paths. */
  datatype State = State(
    guard: Option<Ino>, lockFile: Option<Ino>, temps: map<Pid, Ino>, content: map<Ino, Bytes>,
    procs: map<Pid, Proc>, history: seq<Commit>)

  datatype Action =
    | Begin(op: Op) | GiveUp | OpenExclusive(ino: Ino)
    | StatLock | OpenLock | LoadLock
    | Mutate | Assert | OpenTemp(ino: Ino) | Write(count: nat) | CloseTemp | Rename | Fail
    | RemoveTemp | CloseGuard | StatGuard | UnlinkGuard
    | Crash | Drop

  // ---- who holds what ----

  predicate HasGuard(p: Phase) { !(p.Idle? || p.Waiting? || p.Crashed?) }

  predicate HasPlan(p: Phase) { p.Ready? || p.Asserted? || p.Writing? || p.Written? || p.Checked? }

  predicate HasTemp(p: Phase) { p.Writing? || p.Written? || p.Checked? || p.Cleaning? }

  predicate Free(s: State, ino: Ino) {
    && s.guard != Some(ino)
    && s.lockFile != Some(ino)
    && (forall p | p in s.temps :: s.temps[p] != ino)
    && (forall p | p in s.procs :: s.procs[p].reader != Opened(ino))
    && (forall p | p in s.procs && HasGuard(s.procs[p].phase) :: s.procs[p].phase.fd != ino)
  }

  /** The k-th committed lock, the initial one first. */
  function Committed(sys: System, history: seq<Commit>, k: nat): Lock
    requires k <= |history|
  {
    if k == 0 then sys.initial else history[k - 1].after
  }

  function Latest(sys: System, s: State): Lock { Committed(sys, s.history, |s.history|) }

  // ---- the steps ----

  function With(s: State, pid: Pid, phase: Phase, reader: Reader): State {
    s.(procs := s.procs[pid := Proc(phase, reader)])
  }

  /** What `loadPackLock` of a process ends with: the guarded mutation goes on, others just have their lock. */
  function Finish(s: State, pid: Pid, phase: Phase, l: Lock): State {
    if phase.Held? then With(s, pid, Read(phase.op, phase.fd, l), NotReading) else With(s, pid, phase, Loaded(l))
  }

  function Throw(s: State, pid: Pid, phase: Phase): State {
    if HasTemp(phase) then With(s, pid, Cleaning(phase.fd, phase.tmp), NotReading)
    else if HasGuard(phase) then With(s, pid, Leaving(phase.fd), NotReading)
    else With(s, pid, phase, NotReading)
  }

  /** One step of process `pid`, if it is enabled. */
  function Do(sys: System, s: State, pid: Pid, a: Action): Option<State> {
    if pid !in s.procs || s.procs[pid].phase.Crashed? then None else
    var phase, reader := s.procs[pid].phase, s.procs[pid].reader;
    match a
    case Begin(op) => if phase.Idle? then Some(With(s, pid, Waiting(op), NotReading)) else None
    case GiveUp => if phase.Waiting? then Some(With(s, pid, Idle, NotReading)) else None
    case OpenExclusive(ino) =>
      if phase.Waiting? && s.guard.None? && Free(s, ino)
      then Some(With(s, pid, Held(phase.op, ino), NotReading).(guard := Some(ino))) else None
    case StatLock =>
      if phase.Idle? || phase.Held? then Some(With(s, pid, phase, Statted(s.lockFile))) else None
    case OpenLock =>
      if !reader.Statted? then None
      else if reader.seen.None? then Some(Finish(s, pid, phase, EMPTY_LOCK))
      else if s.lockFile == reader.seen then Some(With(s, pid, phase, Opened(reader.seen.value)))
      else Some(Throw(s, pid, phase))
    case LoadLock =>
      if !reader.Opened? then None
      else
        var bytes := if reader.ino in s.content then s.content[reader.ino] else [];
        var parsed := sys.load(bytes);
        if parsed.None? then Some(Throw(s, pid, phase)) else Some(Finish(s, pid, phase, parsed.value))
    case Mutate =>
      if !phase.Read? then None
      else
        var next := sys.apply(phase.op, phase.seen);
        if next.None? then Some(Throw(s, pid, phase))
        else Some(With(s, pid, Ready(phase.op, phase.fd, phase.seen, next.value), NotReading))
    case Assert =>
      if phase.Ready? then
        if s.guard == Some(phase.fd)
        then Some(With(s, pid, Asserted(phase.op, phase.fd, phase.seen, phase.next), NotReading))
        else Some(Throw(s, pid, phase))
      else if phase.Written? then
        if s.guard == Some(phase.fd)
        then Some(With(s, pid, Checked(phase.op, phase.fd, phase.seen, phase.next, phase.tmp), NotReading))
        else Some(Throw(s, pid, phase))
      else None
    case OpenTemp(ino) =>
      if phase.Asserted? && pid !in s.temps && Free(s, ino)
      then
        var p := Writing(phase.op, phase.fd, phase.seen, phase.next, ino, sys.dump(phase.next));
        Some(With(s, pid, p, NotReading).(temps := s.temps[pid := ino], content := s.content[ino := []]))
      else None
    case Write(count) =>
      if phase.Writing? && count <= |phase.rest|
      then
        var bytes := if phase.tmp in s.content then s.content[phase.tmp] else [];
        Some(With(s, pid, phase.(rest := phase.rest[count..]), NotReading)
             .(content := s.content[phase.tmp := bytes + phase.rest[..count]]))
      else None
    case CloseTemp =>
      if phase.Writing? && phase.rest == []
      then Some(With(s, pid, Written(phase.op, phase.fd, phase.seen, phase.next, phase.tmp), NotReading)) else None
    case Rename =>
      if phase.Checked?
      then Some(With(s, pid, Leaving(phase.fd), NotReading)
                .(lockFile := Some(phase.tmp), temps := s.temps - {pid},
                  history := s.history + [Commit(phase.op, phase.seen, phase.next)]))
      else None
    case Fail =>
      if phase.Held? || phase.Read? || HasPlan(phase) then Some(Throw(s, pid, phase)) else None
    case RemoveTemp =>
      if phase.Cleaning?
      then Some(With(s, pid, Leaving(phase.fd), NotReading)
                .(temps := if pid in s.temps && s.temps[pid] == phase.tmp then s.temps - {pid} else s.temps))
      else None
    case CloseGuard => if phase.Leaving? then Some(With(s, pid, Closed(phase.fd), NotReading)) else None
    case StatGuard =>
      if !phase.Closed? then None
      else if s.guard == Some(phase.fd) then Some(With(s, pid, Unlinking(phase.fd), NotReading))
      else Some(With(s, pid, Idle, NotReading))
    case UnlinkGuard =>
      if phase.Unlinking? then Some(With(s, pid, Idle, NotReading).(guard := None)) else None
    case Crash => Some(With(s, pid, Phase.Crashed, NotReading))
    case Drop =>
      // An error of `fstat` right after the guard was created, or of any step of its release.
      if (phase.Held? && reader.NotReading?) || phase.Leaving? || phase.Closed? || phase.Unlinking?
      then Some(With(s, pid, Idle, NotReading)) else None
  }

  ghost predicate Init(sys: System, s: State) {
    && s.guard.None? && s.temps == map[] && s.history == []
    && (forall p | p in s.procs :: s.procs[p] == Proc(Idle, NotReading))
    && (s.lockFile.None? ==> sys.initial == EMPTY_LOCK)
    && (s.lockFile.Some? ==> s.lockFile.value in s.content && s.content[s.lockFile.value] == sys.dump(sys.initial))
  }

  /** Any interleaving of any processes' steps; a step that is not enabled changes nothing. */
  function Run(sys: System, s: State, schedule: seq<(Pid, Action)>): State
    decreases |schedule|
  {
    if |schedule| == 0 then s else
    var n := |schedule| - 1;
    var before := Run(sys, s, schedule[..n]);
    var step := Do(sys, before, schedule[n].0, schedule[n].1);
    if step.Some? then step.value else before
  }

  // ---- what every reachable state keeps ----

  ghost predicate WasCommitted(sys: System, history: seq<Commit>, l: Lock) {
    exists k :: 0 <= k <= |history| && l == Committed(sys, history, k)
  }

  /** A file that is a committed lock, whole. */
  ghost predicate Whole(sys: System, s: State, ino: Ino) {
    ino in s.content && exists l :: WasCommitted(sys, s.history, l) && s.content[ino] == sys.dump(l)
  }

  /** The file at the lock path is the latest committed lock, whole. */
  ghost predicate LockFileOk(sys: System, s: State) {
    && (s.lockFile.None? ==> s.history == [] && sys.initial == EMPTY_LOCK)
    && (s.lockFile.Some? ==>
          s.lockFile.value in s.content && s.content[s.lockFile.value] == sys.dump(Latest(sys, s)))
  }

  /** Each commit applied its operation to the immediately preceding committed lock. */
  ghost predicate Serial(sys: System, history: seq<Commit>) {
    forall k {:trigger SerialAt(sys, history, k)} | 0 <= k < |history| :: SerialAt(sys, history, k)
  }

  predicate SerialAt(sys: System, history: seq<Commit>, k: nat)
    requires k < |history|
  {
    && history[k].before == Committed(sys, history, k)
    && sys.apply(history[k].op, history[k].before) == Some(history[k].after)
  }

  ghost predicate ReaderOk(sys: System, s: State, reader: Reader) {
    && (reader.Statted? && reader.seen.None? ==> sys.initial == EMPTY_LOCK)
    && (reader.Opened? ==> Whole(sys, s, reader.ino))
    && (reader.Loaded? ==> WasCommitted(sys, s.history, reader.lock))
  }

  ghost predicate PhaseOk(sys: System, s: State, pid: Pid, phase: Phase, reader: Reader) {
    && (HasGuard(phase) ==> s.guard == Some(phase.fd))
    && (!phase.Idle? && !phase.Held? ==> reader.NotReading?)
    && (phase.Held? && reader.Statted? ==> reader.seen == s.lockFile)
    && (phase.Held? && reader.Opened? ==> s.lockFile == Some(reader.ino))
    && (phase.Held? ==> !reader.Loaded?)
    && (phase.Read? || HasPlan(phase) ==> phase.seen == Latest(sys, s))
    && (HasPlan(phase) ==> sys.apply(phase.op, phase.seen) == Some(phase.next))
    && (HasTemp(phase) ==> pid in s.temps && s.temps[pid] == phase.tmp)
    && (!HasTemp(phase) && !phase.Crashed? ==> pid !in s.temps)
    && (phase.Writing? ==> phase.tmp in s.content && s.content[phase.tmp] + phase.rest == sys.dump(phase.next))
    && (phase.Written? || phase.Checked? ==> phase.tmp in s.content && s.content[phase.tmp] == sys.dump(phase.next))
  }

  ghost predicate ProcOk(sys: System, s: State, pid: Pid)
    requires pid in s.procs
  {
    PhaseOk(sys, s, pid, s.procs[pid].phase, s.procs[pid].reader) && ReaderOk(sys, s, s.procs[pid].reader)
  }

  ghost predicate ProcsOk(sys: System, s: State) {
    forall p | p in s.procs :: ProcOk(sys, s, p)
  }

  /** At most one process holds the guard. */
  ghost predicate OneHolder(s: State) {
    forall p, q | p in s.procs && q in s.procs && HasGuard(s.procs[p].phase) && HasGuard(s.procs[q].phase) :: p == q
  }

  /** The temporary files are their own inodes: not the lock file, and not what a reader has open. */
  ghost predicate TempsApart(s: State) {
    && (forall p | p in s.temps :: s.lockFile != Some(s.temps[p]))
    && (forall p, q | p in s.temps && q in s.procs :: s.procs[q].reader != Opened(s.temps[p]))
    && (forall p, q | p in s.temps && q in s.temps && p != q :: s.temps[p] != s.temps[q])
  }

  ghost predicate Inv(sys: System, s: State) {
    LockFileOk(sys, s) && Serial(sys, s.history) && TempsApart(s) && ProcsOk(sys, s) && OneHolder(s)
  }

  // ---- each kind of step keeps it ----

  lemma StillCommitted(sys: System, history: seq<Commit>, longer: seq<Commit>, l: Lock)
    requires WasCommitted(sys, history, l) && history <= longer
    ensures WasCommitted(sys, longer, l)
  {
    var k :| 0 <= k <= |history| && l == Committed(sys, history, k);
    assert l == Committed(sys, longer, k);
  }

  /** What is true of process `q` survives a step of another that leaves its files alone. */
  lemma OtherProcess(sys: System, s: State, s': State, q: Pid)
    requires q in s.procs && q in s'.procs && s'.procs[q] == s.procs[q] && ProcOk(sys, s, q)
    requires s.history <= s'.history && (q in s'.temps ==> q in s.temps)
    requires HasGuard(s.procs[q].phase) ==>
      s'.guard == s.guard && s'.lockFile == s.lockFile && s'.history == s.history && s'.temps == s.temps && s'.content == s.content
    requires var r := s.procs[q].reader;
      r.Opened? && r.ino in s.content ==> r.ino in s'.content && s'.content[r.ino] == s.content[r.ino]
    ensures ProcOk(sys, s', q)
  {
    var r := s.procs[q].reader;
    if r.Opened? {
      var l :| WasCommitted(sys, s.history, l) && s.content[r.ino] == sys.dump(l);
      StillCommitted(sys, s.history, s'.history, l);
    }
    if r.Loaded? { StillCommitted(sys, s.history, s'.history, r.lock); }
  }

  /** A step of the guard holder on its own temporary file or on the paths. */
  lemma HolderStep(sys: System, s: State, s': State, pid: Pid, tmp: Ino)
    requires Inv(sys, s) && pid in s.procs && HasGuard(s.procs[pid].phase)
    requires pid in s'.procs && s'.procs == s.procs[pid := s'.procs[pid]]
    requires s.history <= s'.history && forall q | q in s'.temps && q != pid :: q in s.temps
    requires forall q | q in s.procs :: s.procs[q].reader != Opened(tmp)
    requires forall i | i in s.content && i != tmp :: i in s'.content && s'.content[i] == s.content[i]
    ensures forall q | q in s'.procs && q != pid :: ProcOk(sys, s', q)
    ensures OneHolder(s')
  {
    forall q | q in s'.procs && q != pid ensures ProcOk(sys, s', q) && !HasGuard(s'.procs[q].phase) {
      assert ProcOk(sys, s, q);
      OtherProcess(sys, s, s', q);
    }
  }

  /** A step that changes only the process itself. */
  lemma LocalStep(sys: System, s: State, pid: Pid, phase: Phase, reader: Reader)
    requires Inv(sys, s) && pid in s.procs
    requires HasGuard(phase) ==> HasGuard(s.procs[pid].phase)
    requires PhaseOk(sys, s, pid, phase, reader) && ReaderOk(sys, s, reader)
    requires forall p | p in s.temps :: reader != Opened(s.temps[p])
    ensures Inv(sys, With(s, pid, phase, reader))
  {
    var s' := With(s, pid, phase, reader);
    forall q | q in s'.procs ensures ProcOk(sys, s', q) {
      if q != pid {
        assert ProcOk(sys, s, q);
        OtherProcess(sys, s, s', q);
      } else if reader.Opened? {
        var l :| WasCommitted(sys, s.history, l) && s.content[reader.ino] == sys.dump(l);
        assert WasCommitted(sys, s'.history, l);
      }
    }
  }

  lemma FinishKeeps(sys: System, s: State, pid: Pid, l: Lock)
    requires Inv(sys, s) && pid in s.procs
    requires s.procs[pid].phase.Held? || s.procs[pid].phase.Idle?
    requires WasCommitted(sys, s.history, l)
    requires s.procs[pid].phase.Held? ==> l == Latest(sys, s)
    ensures Inv(sys, Finish(s, pid, s.procs[pid].phase, l))
  {
    assert ProcOk(sys, s, pid);
    var phase := s.procs[pid].phase;
    if phase.Held? {
      LocalStep(sys, s, pid, Read(phase.op, phase.fd, l), NotReading);
    } else {
      LocalStep(sys, s, pid, phase, Loaded(l));
    }
  }

  lemma ThrowKeeps(sys: System, s: State, pid: Pid)
    requires Inv(sys, s) && pid in s.procs && !s.procs[pid].phase.Crashed?
    ensures Inv(sys, Throw(s, pid, s.procs[pid].phase))
  {
    assert ProcOk(sys, s, pid);
    var phase := s.procs[pid].phase;
    if HasTemp(phase) { LocalStep(sys, s, pid, Cleaning(phase.fd, phase.tmp), NotReading); }
    else if HasGuard(phase) { LocalStep(sys, s, pid, Leaving(phase.fd), NotReading); }
    else { LocalStep(sys, s, pid, phase, NotReading); }
  }

  lemma LatestWasCommitted(sys: System, s: State)
    ensures WasCommitted(sys, s.history, Latest(sys, s))
  {
    assert Latest(sys, s) == Committed(sys, s.history, |s.history|);
  }

  lemma OpenLockKeeps(sys: System, s: State, pid: Pid)
    requires Inv(sys, s) && Do(sys, s, pid, OpenLock).Some?
    ensures Inv(sys, Do(sys, s, pid, OpenLock).value)
  {
    assert ProcOk(sys, s, pid);
    var phase, reader := s.procs[pid].phase, s.procs[pid].reader;
    LatestWasCommitted(sys, s);
    if reader.seen.None? {
      assert EMPTY_LOCK == Committed(sys, s.history, 0);
      FinishKeeps(sys, s, pid, EMPTY_LOCK);
    } else if s.lockFile == reader.seen {
      LocalStep(sys, s, pid, phase, Opened(reader.seen.value));
    } else {
      ThrowKeeps(sys, s, pid);
    }
  }

  lemma {:induction false} CommittedNames(sys: System, history: seq<Commit>, k: nat)
    requires KeepsNames(sys) && Serial(sys, history) && k <= |history|
    ensures WellNamed(Committed(sys, history, k))
  {
    if k > 0 {
      CommittedNames(sys, history, k - 1);
      assert SerialAt(sys, history, k - 1);
    }
  }

  /** A whole file parses to the committed lock that it is. */
  lemma WholeParses(sys: System, s: State, l: Lock)
    requires Sound(sys) && Serial(sys, s.history) && WasCommitted(sys, s.history, l)
    ensures sys.load(sys.dump(l)) == Some(l)
  {
    var k :| 0 <= k <= |s.history| && l == Committed(sys, s.history, k);
    CommittedNames(sys, s.history, k);
  }

  lemma LoadLockKeeps(sys: System, s: State, pid: Pid)
    requires Sound(sys) && Inv(sys, s) && Do(sys, s, pid, LoadLock).Some?
    ensures Inv(sys, Do(sys, s, pid, LoadLock).value)
  {
    assert ProcOk(sys, s, pid);
    var ino := s.procs[pid].reader.ino;
    if s.procs[pid].phase.Held? {
      LatestWasCommitted(sys, s);
      HolderLoads(sys, s, pid);
      FinishKeeps(sys, s, pid, Latest(sys, s));
    } else {
      var l :| WasCommitted(sys, s.history, l) && s.content[ino] == sys.dump(l);
      WholeParses(sys, s, l);
      FinishKeeps(sys, s, pid, l);
    }
  }

  lemma MutateKeeps(sys: System, s: State, pid: Pid)
    requires Inv(sys, s) && Do(sys, s, pid, Mutate).Some?
    ensures Inv(sys, Do(sys, s, pid, Mutate).value)
  {
    assert ProcOk(sys, s, pid);
    var phase := s.procs[pid].phase;
    var next := sys.apply(phase.op, phase.seen);
    if next.None? { ThrowKeeps(sys, s, pid); }
    else { LocalStep(sys, s, pid, Ready(phase.op, phase.fd, phase.seen, next.value), NotReading); }
  }

  /** A process between its own open and unlink always finds its guard file unchanged. */
  lemma AssertKeeps(sys: System, s: State, pid: Pid)
    requires Inv(sys, s) && Do(sys, s, pid, Assert).Some?
    ensures Inv(sys, Do(sys, s, pid, Assert).value)
    ensures var phase := Do(sys, s, pid, Assert).value.procs[pid].phase; phase.Asserted? || phase.Checked?
  {
    assert ProcOk(sys, s, pid);
    var phase := s.procs[pid].phase;
    if phase.Ready? {
      LocalStep(sys, s, pid, Asserted(phase.op, phase.fd, phase.seen, phase.next), NotReading);
    } else {
      LocalStep(sys, s, pid, Checked(phase.op, phase.fd, phase.seen, phase.next, phase.tmp), NotReading);
    }
  }

  lemma PrivateStepKeeps(sys: System, s: State, pid: Pid, a: Action)
    requires Inv(sys, s) && Do(sys, s, pid, a).Some?
    requires a.Begin? || a.GiveUp? || a.StatLock? || a.CloseTemp? || a.CloseGuard? || a.StatGuard? || a.Crash?
          || a.Drop?
    ensures Inv(sys, Do(sys, s, pid, a).value)
  {
    assert ProcOk(sys, s, pid);
    var s' := Do(sys, s, pid, a).value;
    LocalStep(sys, s, pid, s'.procs[pid].phase, s'.procs[pid].reader);
  }

  /** Taking or giving back the guard leaves the other processes as they were: none of them holds it. */
  lemma GuardStepOthers(sys: System, s: State, s': State, pid: Pid)
    requires Inv(sys, s) && pid in s.procs && pid in s'.procs && s'.procs == s.procs[pid := s'.procs[pid]]
    requires s'.history == s.history && s'.content == s.content && s'.temps == s.temps
    requires forall q | q in s.procs && q != pid :: !HasGuard(s.procs[q].phase)
    ensures forall q | q in s'.procs && q != pid :: ProcOk(sys, s', q) && !HasGuard(s'.procs[q].phase)
  {
    forall q | q in s'.procs && q != pid ensures ProcOk(sys, s', q) && !HasGuard(s'.procs[q].phase) {
      assert ProcOk(sys, s, q);
      OtherProcess(sys, s, s', q);
    }
  }

  lemma OpenGuardKeeps(sys: System, s: State, pid: Pid, ino: Ino)
    requires Inv(sys, s) && Do(sys, s, pid, OpenExclusive(ino)).Some?
    ensures Inv(sys, Do(sys, s, pid, OpenExclusive(ino)).value)
  {
    var s' := Do(sys, s, pid, OpenExclusive(ino)).value;
    assert ProcOk(sys, s, pid);
    forall q | q in s.procs ensures !HasGuard(s.procs[q].phase) {
      assert ProcOk(sys, s, q);
    }
    GuardStepOthers(sys, s, s', pid);
    assert ProcOk(sys, s', pid);
  }

  lemma UnlinkGuardKeeps(sys: System, s: State, pid: Pid)
    requires Inv(sys, s) && Do(sys, s, pid, UnlinkGuard).Some?
    ensures Inv(sys, Do(sys, s, pid, UnlinkGuard).value)
  {
    var s' := Do(sys, s, pid, UnlinkGuard).value;
    assert ProcOk(sys, s, pid);
    GuardStepOthers(sys, s, s', pid);
    assert ProcOk(sys, s', pid);
  }

  /** The state once the holder has created its temporary file. */
  function TempOpened(sys: System, s: State, pid: Pid, ino: Ino): State
    requires pid in s.procs && s.procs[pid].phase.Asserted?
  {
    var phase := s.procs[pid].phase;
    With(s, pid, Writing(phase.op, phase.fd, phase.seen, phase.next, ino, sys.dump(phase.next)), NotReading)
      .(temps := s.temps[pid := ino], content := s.content[ino := []])
  }

  lemma TempOpenedKeeps(sys: System, s: State, pid: Pid, ino: Ino)
    requires Inv(sys, s) && pid in s.procs && s.procs[pid].phase.Asserted? && pid !in s.temps && Free(s, ino)
    ensures Inv(sys, TempOpened(sys, s, pid, ino))
  {
    var s' := TempOpened(sys, s, pid, ino);
    assert ProcOk(sys, s, pid);
    assert [] + sys.dump(s.procs[pid].phase.next) == sys.dump(s.procs[pid].phase.next);
    HolderStep(sys, s, s', pid, ino);
    assert ProcOk(sys, s', pid);
    assert LockFileOk(sys, s') && TempsApart(s');
  }

  lemma OpenTempKeeps(sys: System, s: State, pid: Pid, ino: Ino)
    requires Inv(sys, s) && Do(sys, s, pid, OpenTemp(ino)).Some?
    ensures Inv(sys, Do(sys, s, pid, OpenTemp(ino)).value)
  {
    TempOpenedKeeps(sys, s, pid, ino);
  }

  lemma WriteKeeps(sys: System, s: State, pid: Pid, count: nat)
    requires Inv(sys, s) && Do(sys, s, pid, Write(count)).Some?
    ensures Inv(sys, Do(sys, s, pid, Write(count)).value)
  {
    var s' := Do(sys, s, pid, Write(count)).value;
    assert ProcOk(sys, s, pid);
    var phase := s.procs[pid].phase;
    Appended(s.content[phase.tmp], phase.rest, count);
    HolderStep(sys, s, s', pid, phase.tmp);
  }

  lemma Appended(done: Bytes, rest: Bytes, count: nat)
    requires count <= |rest|
    ensures done + rest[..count] + rest[count..] == done + rest
  {
    assert rest[..count] + rest[count..] == rest;
  }

  lemma RemoveTempKeeps(sys: System, s: State, pid: Pid)
    requires Inv(sys, s) && Do(sys, s, pid, RemoveTemp).Some?
    ensures Inv(sys, Do(sys, s, pid, RemoveTemp).value)
  {
    var s' := Do(sys, s, pid, RemoveTemp).value;
    assert ProcOk(sys, s, pid);
    HolderStep(sys, s, s', pid, s.procs[pid].phase.tmp);
  }

  lemma SerialExtends(sys: System, history: seq<Commit>, c: Commit)
    requires Serial(sys, history) && c.before == Committed(sys, history, |history|)
    requires sys.apply(c.op, c.before) == Some(c.after)
    ensures Serial(sys, history + [c])
  {
    var longer := history + [c];
    assert longer[|history|] == c;
    forall k | 0 <= k < |longer| ensures SerialAt(sys, longer, k) {
      assert Committed(sys, longer, k) == Committed(sys, history, k);
      if k < |history| { assert SerialAt(sys, history, k) && longer[k] == history[k]; }
    }
  }

  /** The commit point: the renamed file is the next lock, whole, and it follows the latest one. */
  lemma RenameKeeps(sys: System, s: State, pid: Pid)
    requires Inv(sys, s) && Do(sys, s, pid, Rename).Some?
    ensures Inv(sys, Do(sys, s, pid, Rename).value)
  {
    var s' := Do(sys, s, pid, Rename).value;
    var phase := s.procs[pid].phase;
    assert ProcOk(sys, s, pid);
    SerialExtends(sys, s.history, Commit(phase.op, phase.seen, phase.next));
    assert LockFileOk(sys, s');
    RenameApart(sys, s, pid);
    HolderStep(sys, s, s', pid, phase.tmp);
    assert ProcOk(sys, s', pid);
  }

  lemma RenameApart(sys: System, s: State, pid: Pid)
    requires Inv(sys, s) && Do(sys, s, pid, Rename).Some?
    ensures TempsApart(Do(sys, s, pid, Rename).value)
  {
    var s' := Do(sys, s, pid, Rename).value;
    assert ProcOk(sys, s, pid);
    assert forall p | p in s'.temps :: p in s.temps && p != pid && s'.temps[p] == s.temps[p];
    assert forall q | q in s'.procs :: s'.procs[q].reader == s.procs[q].reader || s'.procs[q].reader.NotReading?;
  }

  lemma StepKeepsInv(sys: System, s: State, pid: Pid, a: Action)
    requires Sound(sys) && Inv(sys, s) && Do(sys, s, pid, a).Some?
    ensures Inv(sys, Do(sys, s, pid, a).value)
  {
    match a
    case OpenExclusive(ino) => OpenGuardKeeps(sys, s, pid, ino);
    case UnlinkGuard => UnlinkGuardKeeps(sys, s, pid);
    case OpenLock => OpenLockKeeps(sys, s, pid);
    case LoadLock => LoadLockKeeps(sys, s, pid);
    case Mutate => MutateKeeps(sys, s, pid);
    case Assert => AssertKeeps(sys, s, pid);
    case Fail => ThrowKeeps(sys, s, pid);
    case OpenTemp(ino) => OpenTempKeeps(sys, s, pid, ino);
    case Write(count) => WriteKeeps(sys, s, pid, count);
    case Rename => RenameKeeps(sys, s, pid);
    case RemoveTemp => RemoveTempKeeps(sys, s, pid);
    case _ => PrivateStepKeeps(sys, s, pid, a);
  }

  // ---- every run ----

  lemma InitIsInv(sys: System, s: State)
    requires Init(sys, s)
    ensures Inv(sys, s)
  {
    forall p | p in s.procs ensures ProcOk(sys, s, p) {
      assert s.procs[p] == Proc(Idle, NotReading);
    }
  }

  lemma {:induction false} RunKeepsInv(sys: System, s: State, schedule: seq<(Pid, Action)>)
    requires Sound(sys) && Inv(sys, s)
    ensures Inv(sys, Run(sys, s, schedule))
    decreases |schedule|
  {
    if |schedule| > 0 {
      var n := |schedule| - 1;
      RunKeepsInv(sys, s, schedule[..n]);
      var before := Run(sys, s, schedule[..n]);
      if Do(sys, before, schedule[n].0, schedule[n].1).Some? {
        StepKeepsInv(sys, before, schedule[n].0, schedule[n].1);
      }
    }
  }

  /** Every finished read is one of the committed locks. */
  ghost predicate ReadsCommitted(sys: System, s: State) {
    forall p | p in s.procs && s.procs[p].reader.Loaded? :: WasCommitted(sys, s.history, s.procs[p].reader.lock)
  }

  /** Over every interleaving and every crash: one holder at most, no lost update, the lock path always holds
      the latest committed lock, and a finished read is a whole committed lock. */
  lemma EveryRunIsSerial(sys: System, s: State, schedule: seq<(Pid, Action)>)
    requires Sound(sys) && Init(sys, s)
    ensures OneHolder(Run(sys, s, schedule))
    ensures Serial(sys, Run(sys, s, schedule).history)
    ensures LockFileOk(sys, Run(sys, s, schedule))
    ensures ReadsCommitted(sys, Run(sys, s, schedule))
  {
    InitIsInv(sys, s);
    RunKeepsInv(sys, s, schedule);
    ReadersHaveCommitted(sys, Run(sys, s, schedule));
  }

  lemma ReadersHaveCommitted(sys: System, s: State)
    requires Inv(sys, s)
    ensures ReadsCommitted(sys, s)
  {
    forall p | p in s.procs && s.procs[p].reader.Loaded?
      ensures WasCommitted(sys, s.history, s.procs[p].reader.lock)
    {
      assert ProcOk(sys, s, p);
    }
  }

  /** No read is torn: whenever a process parses the file it opened, the parse succeeds. */
  lemma ReadsAreWhole(sys: System, s: State, schedule: seq<(Pid, Action)>, pid: Pid)
    requires Sound(sys) && Init(sys, s)
    requires Do(sys, Run(sys, s, schedule), pid, LoadLock).Some?
    ensures var p := Do(sys, Run(sys, s, schedule), pid, LoadLock).value.procs[pid];
            p.reader.Loaded? || p.phase.Read?
  {
    InitIsInv(sys, s);
    RunKeepsInv(sys, s, schedule);
    LoadSucceeds(sys, Run(sys, s, schedule), pid);
  }

  lemma LoadSucceeds(sys: System, s: State, pid: Pid)
    requires Sound(sys) && Inv(sys, s) && Do(sys, s, pid, LoadLock).Some?
    ensures var p := Do(sys, s, pid, LoadLock).value.procs[pid]; p.reader.Loaded? || p.phase.Read?
  {
    assert ProcOk(sys, s, pid);
    var ino := s.procs[pid].reader.ino;
    var l :| WasCommitted(sys, s.history, l) && s.content[ino] == sys.dump(l);
    WholeParses(sys, s, l);
  }

  /** The guard check never fires: only an outside hand can change the guard while it is held. */
  lemma AssertsNeverFail(sys: System, s: State, schedule: seq<(Pid, Action)>, pid: Pid)
    requires Sound(sys) && Init(sys, s)
    requires Do(sys, Run(sys, s, schedule), pid, Assert).Some?
    ensures var phase := Do(sys, Run(sys, s, schedule), pid, Assert).value.procs[pid].phase;
            phase.Asserted? || phase.Checked?
  {
    InitIsInv(sys, s);
    RunKeepsInv(sys, s, schedule);
    AssertKeeps(sys, Run(sys, s, schedule), pid);
  }

  /** A guard file that no process holds any more. */
  ghost predicate Stale(s: State) {
    s.guard.Some? && forall p | p in s.procs :: !HasGuard(s.procs[p].phase)
  }

  /** Without the guard a process can only wait for it, read, or crash. */
  lemma StaleStep(sys: System, s: State, pid: Pid, a: Action)
    requires Stale(s) && Do(sys, s, pid, a).Some?
    ensures var t := Do(sys, s, pid, a).value; Stale(t) && t.history == s.history && t.lockFile == s.lockFile
  {
    assert !HasGuard(s.procs[pid].phase);
    match a
    case OpenLock =>
    case LoadLock =>
    case _ =>
  }

  /** A stale guard stops every later commit: the lockfile stays at its latest committed lock until somebody removes
      the guard by hand. */
  lemma {:induction false} StaleGuardBlocks(sys: System, s: State, schedule: seq<(Pid, Action)>)
    requires Stale(s)
    ensures var t := Run(sys, s, schedule); Stale(t) && t.history == s.history && t.lockFile == s.lockFile
    decreases |schedule|
  {
    if |schedule| > 0 {
      var n := |schedule| - 1;
      StaleGuardBlocks(sys, s, schedule[..n]);
      var before := Run(sys, s, schedule[..n]);
      if Do(sys, before, schedule[n].0, schedule[n].1).Some? {
        StaleStep(sys, before, schedule[n].0, schedule[n].1);
      }
    }
  }

  /** A crash of the holder leaves the guard stale, and so does an I/O error while it takes or releases it; no other
      step of any process does. */
  lemma LeftStaleExactly(sys: System, s: State, schedule: seq<(Pid, Action)>, pid: Pid, a: Action)
    requires Sound(sys) && Init(sys, s)
    requires !Stale(Run(sys, s, schedule)) && Do(sys, Run(sys, s, schedule), pid, a).Some?
    ensures Stale(Do(sys, Run(sys, s, schedule), pid, a).value)
       <==> Holds(Run(sys, s, schedule), pid) && (a.Crash? || a.Drop?)
  {
    InitIsInv(sys, s);
    RunKeepsInv(sys, s, schedule);
    StepLeavesStale(sys, Run(sys, s, schedule), pid, a);
  }

  predicate Holds(s: State, pid: Pid) { pid in s.procs && HasGuard(s.procs[pid].phase) }

  lemma StepLeavesStale(sys: System, s: State, pid: Pid, a: Action)
    requires Inv(sys, s) && !Stale(s) && Do(sys, s, pid, a).Some?
    ensures Stale(Do(sys, s, pid, a).value) <==> Holds(s, pid) && (a.Crash? || a.Drop?)
  {
    var s' := Do(sys, s, pid, a).value;
    StepIsOwn(sys, s, pid, a);
    if Holds(s, pid) {
      if a.Crash? || a.Drop? {
        HolderLeaves(sys, s, pid, a);
      } else if Reads(a) {
        ReaderStays(sys, s, pid, a);
      } else {
        WriterStays(sys, s, pid, a);
      }
    } else {
      OutsiderTakesNothing(sys, s, pid, a);
      if s.guard.Some? {
        var h :| h in s.procs && HasGuard(s.procs[h].phase);
        assert SameProcess(s, s', h);
        assert Holds(s', h);
      }
    }
  }

  /** A step changes one process. */
  lemma StepIsOwn(sys: System, s: State, pid: Pid, a: Action)
    requires Do(sys, s, pid, a).Some?
    ensures var s' := Do(sys, s, pid, a).value; pid in s.procs && forall q :: q != pid ==> SameProcess(s, s', q)
  {
  }

  predicate SameProcess(s: State, s': State, q: Pid) {
    (q in s.procs <==> q in s'.procs) && (q in s.procs ==> s'.procs[q] == s.procs[q])
  }

  lemma HolderLeaves(sys: System, s: State, pid: Pid, a: Action)
    requires Inv(sys, s) && Do(sys, s, pid, a).Some? && Holds(s, pid) && (a.Crash? || a.Drop?)
    ensures Stale(Do(sys, s, pid, a).value)
  {
    assert ProcOk(sys, s, pid);
  }

  predicate Reads(a: Action) { a.StatLock? || a.OpenLock? || a.LoadLock? || a.Mutate? || a.Assert? || a.Fail? }

  /** Reading, planning or failing, the holder keeps the guard. */
  lemma ReaderStays(sys: System, s: State, pid: Pid, a: Action)
    requires Do(sys, s, pid, a).Some? && Holds(s, pid) && Reads(a)
    ensures Holds(Do(sys, s, pid, a).value, pid)
  {
    ThrowStays(s, pid);
  }

  lemma ThrowStays(s: State, pid: Pid)
    requires Holds(s, pid)
    ensures Holds(Throw(s, pid, s.procs[pid].phase), pid)
  {
  }

  /** Writing, committing and releasing, the holder keeps the guard or removes the file. */
  lemma WriterStays(sys: System, s: State, pid: Pid, a: Action)
    requires Inv(sys, s) && Do(sys, s, pid, a).Some? && Holds(s, pid) && !Reads(a) && !a.Crash? && !a.Drop?
    ensures Do(sys, s, pid, a).value.guard.None? || Holds(Do(sys, s, pid, a).value, pid)
  {
    assert ProcOk(sys, s, pid);
  }

  /** A process without the guard leaves it alone, unless it takes it. */
  lemma OutsiderTakesNothing(sys: System, s: State, pid: Pid, a: Action)
    requires Do(sys, s, pid, a).Some? && !Holds(s, pid)
    ensures var s' := Do(sys, s, pid, a).value; s'.guard == s.guard || Holds(s', pid)
  {
  }

  // ---- a guard that is not stale lets the next mutation through ----

  /** More steps of one process, each of them enabled. */
  ghost predicate Leads(sys: System, s: State, s': State) { exists more :: Run(sys, s, more) == s' }

  lemma LeadsStep(sys: System, s: State, s': State, pid: Pid, a: Action)
    requires Leads(sys, s, s') && Do(sys, s', pid, a).Some?
    ensures Leads(sys, s, Do(sys, s', pid, a).value)
  {
    var more :| Run(sys, s, more) == s';
    var longer := more + [(pid, a)];
    assert longer[..|more|] == more;
    assert Run(sys, s, longer) == Do(sys, s', pid, a).value;
  }

  lemma LeadsNowhere(sys: System, s: State)
    ensures Leads(sys, s, s)
  {
    assert Run(sys, s, []) == s;
  }

  /** No process has an inode beyond this one open, and no path leads there. */
  lemma FreshInode(s: State) returns (ino: Ino)
    ensures Free(s, ino)
  {
    var guard := if s.guard.Some? then {s.guard.value} else {};
    var file := if s.lockFile.Some? then {s.lockFile.value} else {};
    var temps := set p | p in s.temps :: s.temps[p];
    var readers := set p | p in s.procs && s.procs[p].reader.Opened? :: s.procs[p].reader.ino;
    var holders := set p | p in s.procs && HasGuard(s.procs[p].phase) :: s.procs[p].phase.fd;
    ino := Above(guard + file + temps + readers + holders);
    assert forall p | p in s.temps :: s.temps[p] in temps;
    assert forall p | p in s.procs && s.procs[p].reader.Opened? :: s.procs[p].reader.ino in readers;
    assert forall p | p in s.procs && HasGuard(s.procs[p].phase) :: s.procs[p].phase.fd in holders;
  }

  lemma Above(used: set<Ino>) returns (ino: Ino)
    ensures forall i | i in used :: i < ino
    decreases used
  {
    if used == {} { ino := 0; } else {
      var i :| i in used;
      var rest := Above(used - {i});
      ino := if i < rest then rest else i + 1;
      forall j | j in used ensures j < ino {
        if j != i { assert j in used - {i}; }
      }
    }
  }

  /** What releasing the guard leaves as it was. */
  ghost predicate SameButHolder(s: State, s': State, holder: Pid) {
    && s'.lockFile == s.lockFile && s'.history == s.history
    && s'.procs.Keys == s.procs.Keys
    && forall q | q in s.procs && q != holder :: s'.procs[q] == s.procs[q]
  }

  lemma HolderFails(sys: System, s: State, h: Pid) returns (s': State)
    requires Sound(sys) && Inv(sys, s) && h in s.procs && HasGuard(s.procs[h].phase)
    ensures Leads(sys, s, s') && Inv(sys, s') && SameButHolder(s, s', h)
    ensures s'.procs[h].phase.Cleaning? || s'.procs[h].phase.Leaving? || s'.procs[h].phase.Closed? || s'.procs[h].phase.Unlinking?
  {
    LeadsNowhere(sys, s);
    s' := s;
    var phase := s.procs[h].phase;
    if phase.Held? || phase.Read? || HasPlan(phase) {
      LeadsStep(sys, s, s, h, Fail);
      StepKeepsInv(sys, s, h, Fail);
      s' := Throw(s, h, phase);
    }
  }

  lemma TempRemoved(sys: System, s: State, s1: State, h: Pid) returns (s': State)
    requires Sound(sys) && Leads(sys, s, s1) && Inv(sys, s1) && SameButHolder(s, s1, h)
    requires h in s.procs && s1.procs[h].phase.Cleaning?
    ensures Leads(sys, s, s') && Inv(sys, s') && SameButHolder(s, s', h) && s'.procs[h].phase.Leaving?
  {
    LeadsStep(sys, s, s1, h, RemoveTemp);
    StepKeepsInv(sys, s1, h, RemoveTemp);
    s' := Do(sys, s1, h, RemoveTemp).value;
  }

  /** A live holder can always fail, clean up and release the guard. */
  lemma HolderReleases(sys: System, s: State, h: Pid) returns (s': State)
    requires Sound(sys) && Inv(sys, s) && h in s.procs && HasGuard(s.procs[h].phase)
    ensures Leads(sys, s, s') && Inv(sys, s') && SameButHolder(s, s', h) && s'.guard.None?
  {
    s' := HolderFails(sys, s, h);
    if s'.procs[h].phase.Cleaning? { s' := TempRemoved(sys, s, s', h); }
    if s'.procs[h].phase.Leaving? { s' := ReleaseStep(sys, s, s', h, CloseGuard); }
    if s'.procs[h].phase.Closed? {
      assert ProcOk(sys, s', h);
      s' := ReleaseStep(sys, s, s', h, StatGuard);
    }
    s' := ReleaseStep(sys, s, s', h, UnlinkGuard);
  }

  lemma ReleaseStep(sys: System, s: State, s': State, h: Pid, a: Action) returns (s'': State)
    requires Sound(sys) && Leads(sys, s, s') && Inv(sys, s') && SameButHolder(s, s', h) && h in s.procs
    requires (a.CloseGuard? && s'.procs[h].phase.Leaving?) || (a.StatGuard? && s'.procs[h].phase.Closed?)
          || (a.UnlinkGuard? && s'.procs[h].phase.Unlinking?)
    ensures Leads(sys, s, s'') && Inv(sys, s'') && SameButHolder(s, s'', h)
    ensures a.CloseGuard? ==> s''.procs[h].phase.Closed?
    ensures a.StatGuard? ==> s''.procs[h].phase.Unlinking?
    ensures a.UnlinkGuard? ==> s''.guard.None?
  {
    assert ProcOk(sys, s', h);
    LeadsStep(sys, s, s', h, a);
    StepKeepsInv(sys, s', h, a);
    s'' := Do(sys, s', h, a).value;
  }

  /** A step of `pid` towards its commit. */
  lemma Forward(sys: System, s: State, s': State, pid: Pid, a: Action) returns (s'': State)
    requires Sound(sys) && Leads(sys, s, s') && Inv(sys, s') && Do(sys, s', pid, a).Some?
    ensures s'' == Do(sys, s', pid, a).value && Leads(sys, s, s'') && Inv(sys, s'')
  {
    LeadsStep(sys, s, s', pid, a);
    StepKeepsInv(sys, s', pid, a);
    s'' := Do(sys, s', pid, a).value;
  }

  /** `pid` has come to `phase` since `s`, and nobody has committed. */
  ghost predicate At(sys: System, s: State, s': State, pid: Pid, op: Op) {
    Leads(sys, s, s') && Inv(sys, s') && s'.history == s.history && pid in s'.procs
    && !s'.procs[pid].phase.Crashed? && (HasPlan(s'.procs[pid].phase) || s'.procs[pid].phase.Held? || s'.procs[pid].phase.Read?)
    && s'.procs[pid].phase.op == op
  }

  /** With the guard free, an idle process takes it. */
  lemma TakesGuard(sys: System, s: State, pid: Pid, op: Op) returns (s': State)
    requires Sound(sys) && Inv(sys, s) && s.guard.None? && pid in s.procs && s.procs[pid].phase.Idle?
    ensures At(sys, s, s', pid, op) && s'.procs[pid].phase.Held?
  {
    LeadsNowhere(sys, s);
    s' := Forward(sys, s, s, pid, Begin(op));
    var ino := FreshInode(s');
    s' := Forward(sys, s, s', pid, OpenExclusive(ino));
  }

  /** The holder reads the lockfile, and cannot be disturbed. */
  lemma ReadsLatest(sys: System, s: State, s1: State, pid: Pid, op: Op) returns (s': State)
    requires Sound(sys) && At(sys, s, s1, pid, op) && s1.procs[pid].phase.Held?
    ensures At(sys, s, s', pid, op) && s'.procs[pid].phase.Read?
  {
    var statted := Forward(sys, s, s1, pid, StatLock);
    assert ProcOk(sys, statted, pid);
    s' := Forward(sys, s, statted, pid, OpenLock);
    if s'.procs[pid].phase.Held? { s' := LoadsOpened(sys, s, s', pid, op); }
  }

  lemma HolderLoads(sys: System, s: State, pid: Pid)
    requires Sound(sys) && Inv(sys, s) && pid in s.procs
    requires s.procs[pid].phase.Held? && s.procs[pid].reader.Opened?
    ensures Do(sys, s, pid, LoadLock) == Some(Finish(s, pid, s.procs[pid].phase, Latest(sys, s)))
  {
    assert ProcOk(sys, s, pid);
    LatestWasCommitted(sys, s);
    WholeParses(sys, s, Latest(sys, s));
  }

  lemma LoadsOpened(sys: System, s: State, s1: State, pid: Pid, op: Op) returns (s': State)
    requires Sound(sys) && At(sys, s, s1, pid, op) && s1.procs[pid].phase.Held? && s1.procs[pid].reader.Opened?
    ensures At(sys, s, s', pid, op) && s'.procs[pid].phase.Read?
  {
    HolderLoads(sys, s1, pid);
    s' := Forward(sys, s, s1, pid, LoadLock);
  }

  /** A mutation that applies is planned, and the guard is still the holder's. */
  lemma PlansMutation(sys: System, s: State, s1: State, pid: Pid, op: Op) returns (s': State)
    requires Sound(sys) && At(sys, s, s1, pid, op) && s1.procs[pid].phase.Read?
    requires sys.apply(op, Latest(sys, s)).Some?
    ensures At(sys, s, s', pid, op) && s'.procs[pid].phase.Asserted?
  {
    assert ProcOk(sys, s1, pid);
    s' := Forward(sys, s, s1, pid, Mutate);
    s' := AssertsGuard(sys, s, s', pid, op);
  }

  lemma AssertsGuard(sys: System, s: State, s1: State, pid: Pid, op: Op) returns (s': State)
    requires Sound(sys) && At(sys, s, s1, pid, op) && (s1.procs[pid].phase.Ready? || s1.procs[pid].phase.Written?)
    ensures At(sys, s, s', pid, op)
    ensures if s1.procs[pid].phase.Ready? then s'.procs[pid].phase.Asserted? else s'.procs[pid].phase.Checked?
  {
    assert ProcOk(sys, s1, pid);
    s' := Forward(sys, s, s1, pid, Assert);
  }

  /** The new lock is written whole to a temporary file. */
  lemma WritesTemp(sys: System, s: State, s1: State, pid: Pid, op: Op) returns (s': State)
    requires Sound(sys) && At(sys, s, s1, pid, op) && s1.procs[pid].phase.Asserted?
    ensures At(sys, s, s', pid, op) && s'.procs[pid].phase.Written?
  {
    assert ProcOk(sys, s1, pid);
    var ino := FreshInode(s1);
    s' := Forward(sys, s, s1, pid, OpenTemp(ino));
    s' := FillsTemp(sys, s, s', pid, op);
  }

  lemma FillsTemp(sys: System, s: State, s1: State, pid: Pid, op: Op) returns (s': State)
    requires Sound(sys) && At(sys, s, s1, pid, op) && s1.procs[pid].phase.Writing?
    ensures At(sys, s, s', pid, op) && s'.procs[pid].phase.Written?
  {
    var full := WritesRest(sys, s, s1, pid, op);
    s' := ClosesTemp(sys, s, full, pid, op);
  }

  lemma ClosesTemp(sys: System, s: State, s1: State, pid: Pid, op: Op) returns (s': State)
    requires Sound(sys) && At(sys, s, s1, pid, op) && s1.procs[pid].phase.Writing? && s1.procs[pid].phase.rest == []
    ensures At(sys, s, s', pid, op) && s'.procs[pid].phase.Written?
  {
    s' := Forward(sys, s, s1, pid, CloseTemp);
  }

  lemma WritesRest(sys: System, s: State, s1: State, pid: Pid, op: Op) returns (s': State)
    requires Sound(sys) && At(sys, s, s1, pid, op) && s1.procs[pid].phase.Writing?
    ensures At(sys, s, s', pid, op) && s'.procs[pid].phase.Writing? && s'.procs[pid].phase.rest == []
  {
    s' := Forward(sys, s, s1, pid, Write(|s1.procs[pid].phase.rest|));
  }

  lemma CommitsMutation(sys: System, s: State, s1: State, pid: Pid, op: Op) returns (s': State)
    requires Sound(sys) && At(sys, s, s1, pid, op) && s1.procs[pid].phase.Checked?
    ensures Leads(sys, s, s') && |s'.history| == |s.history| + 1
  {
    s' := Forward(sys, s, s1, pid, Rename);
  }

  /** With the guard free, a mutation that applies goes all the way. */
  lemma IdleCommits(sys: System, s: State, pid: Pid, op: Op) returns (s': State)
    requires Sound(sys) && Inv(sys, s) && s.guard.None? && pid in s.procs && s.procs[pid].phase.Idle?
    requires sys.apply(op, Latest(sys, s)).Some?
    ensures Leads(sys, s, s') && |s'.history| == |s.history| + 1
  {
    var held := TakesGuard(sys, s, pid, op);
    var read := ReadsLatest(sys, s, held, pid, op);
    var planned := PlansMutation(sys, s, read, pid, op);
    var written := WritesTemp(sys, s, planned, pid, op);
    var checked := AssertsGuard(sys, s, written, pid, op);
    s' := CommitsMutation(sys, s, checked, pid, op);
  }

  lemma LeadsTransitive(sys: System, a: State, b: State, c: State)
    requires Leads(sys, a, b) && Leads(sys, b, c)
    ensures Leads(sys, a, c)
  {
    var first :| Run(sys, a, first) == b;
    var second :| Run(sys, b, second) == c;
    RunJoins(sys, a, first, second);
  }

  function Stepped(sys: System, s: State, step: (Pid, Action)): State {
    var next := Do(sys, s, step.0, step.1);
    if next.Some? then next.value else s
  }

  function Fold<S, A>(f: (S, A) -> S, s: S, actions: seq<A>): S
    decreases |actions|
  {
    if |actions| == 0 then s else f(Fold(f, s, actions[..|actions| - 1]), actions[|actions| - 1])
  }

  lemma {:induction false} FoldJoins<S, A>(f: (S, A) -> S, s: S, first: seq<A>, second: seq<A>)
    ensures Fold(f, s, first + second) == Fold(f, Fold(f, s, first), second)
    decreases |second|
  {
    if |second| == 0 {
      assert first + second == first;
    } else {
      var n := |second| - 1;
      FoldJoins(f, s, first, second[..n]);
      assert (first + second)[..|first| + n] == first + second[..n];
    }
  }

  lemma {:induction false} RunIsFold(sys: System, s: State, schedule: seq<(Pid, Action)>)
    ensures Run(sys, s, schedule) == Fold((t, step) => Stepped(sys, t, step), s, schedule)
    decreases |schedule|
  {
    if |schedule| > 0 { RunIsFold(sys, s, schedule[..|schedule| - 1]); }
  }

  lemma RunJoins(sys: System, s: State, first: seq<(Pid, Action)>, second: seq<(Pid, Action)>)
    ensures Run(sys, s, first + second) == Run(sys, Run(sys, s, first), second)
  {
    FoldJoins((t, step) => Stepped(sys, t, step), s, first, second);
    RunIsFold(sys, s, first + second);
    RunIsFold(sys, s, first);
    RunIsFold(sys, Run(sys, s, first), second);
  }

  /** Some continuation commits. */
  ghost predicate CanCommit(sys: System, s: State) {
    exists more :: |Run(sys, s, more).history| > |s.history|
  }

  /** After any run in which some process is idle and has a mutation that applies: a further commit is possible
      exactly if the guard is not stale. */
  lemma MutationsGoOnExactly(sys: System, start: State, schedule: seq<(Pid, Action)>, pid: Pid, op: Op)
    requires Sound(sys) && Init(sys, start)
    requires var s := Run(sys, start, schedule);
             pid in s.procs && s.procs[pid].phase.Idle? && sys.apply(op, Latest(sys, s)).Some?
    ensures CanCommit(sys, Run(sys, start, schedule)) <==> !Stale(Run(sys, start, schedule))
  {
    InitIsInv(sys, start);
    RunKeepsInv(sys, start, schedule);
    var s := Run(sys, start, schedule);
    if Stale(s) {
      forall more ensures Run(sys, s, more).history == s.history { StaleGuardBlocks(sys, s, more); }
    } else {
      NotStaleCommits(sys, s, pid, op);
    }
  }

  lemma NotStaleCommits(sys: System, s: State, pid: Pid, op: Op)
    requires Sound(sys) && Inv(sys, s) && !Stale(s)
    requires pid in s.procs && s.procs[pid].phase.Idle? && sys.apply(op, Latest(sys, s)).Some?
    ensures CanCommit(sys, s)
  {
    LeadsNowhere(sys, s);
    var free := s;
    if s.guard.Some? {
      var h :| h in s.procs && HasGuard(s.procs[h].phase);
      free := HolderReleases(sys, s, h);
    }
    var done := IdleCommits(sys, free, pid, op);
    LeadsTransitive(sys, s, free, done);
    var more :| Run(sys, s, more) == done;
    assert |Run(sys, s, more).history| > |s.history|;
  }

  /** One process that begins a mutation, and the same once it has taken the guard. */
  function Beginner(phase: Phase, guard: Option<Ino>): State {
    State(guard, None, map[], map[], map[0 := Proc(phase, NotReading)], [])
  }

  lemma BeginnerBegins(sys: System, op: Op)
    ensures Do(sys, Beginner(Idle, None), 0, Begin(op)) == Some(Beginner(Waiting(op), None))
  {
    BeginnerMoves(Idle, Waiting(op), None);
  }

  lemma BeginnerOpens(sys: System, op: Op)
    ensures Do(sys, Beginner(Waiting(op), None), 0, OpenExclusive(0)) == Some(Beginner(Held(op, 0), Some(0)))
  {
    BeginnerMoves(Waiting(op), Held(op, 0), None);
  }

  lemma BeginnerEnds(sys: System, op: Op, lives: bool)
    ensures Do(sys, Beginner(Held(op, 0), Some(0)), 0, if lives then Drop else Crash)
         == Some(Beginner(if lives then Idle else Phase.Crashed, Some(0)))
  {
    BeginnerMoves(Held(op, 0), if lives then Idle else Phase.Crashed, Some(0));
  }

  lemma BeginnerMoves(from: Phase, to: Phase, guard: Option<Ino>)
    ensures With(Beginner(from, guard), 0, to, NotReading) == Beginner(to, guard)
  {
    assert map[0 := Proc(from, NotReading)][0 := Proc(to, NotReading)] == map[0 := Proc(to, NotReading)];
  }

  lemma RunOneMore(sys: System, s: State, schedule: seq<(Pid, Action)>, pid: Pid, a: Action, s': State)
    requires Do(sys, Run(sys, s, schedule), pid, a) == Some(s')
    ensures Run(sys, s, schedule + [(pid, a)]) == s'
  {
    assert (schedule + [(pid, a)])[..|schedule|] == schedule;
  }

  /** One process, one mutation, and a crash or an error right after the guard was taken: in the second case the
      process lives on, and still nobody can commit. */
  lemma CrashedInstaller(sys: System, op: Op, lives: bool)
    requires sys.initial == EMPTY_LOCK
    ensures Init(sys, Beginner(Idle, None))
    ensures var t := Run(sys, Beginner(Idle, None),
                         [(0, Begin(op)), (0, OpenExclusive(0)), (0, if lives then Drop else Crash)]);
            Stale(t) && 0 in t.procs && (lives <==> t.procs[0].phase.Idle?)
  {
    BeginnerBegins(sys, op);
    BeginnerOpens(sys, op);
    BeginnerEnds(sys, op, lives);
    var start, last := Beginner(Idle, None), if lives then Drop else Crash;
    assert Run(sys, start, []) == start;
    RunOneMore(sys, start, [], 0, Begin(op), Beginner(Waiting(op), None));
    RunOneMore(sys, start, [] + [(0, Begin(op))], 0, OpenExclusive(0), Beginner(Held(op, 0), Some(0)));
    RunOneMore(
      sys, start, [] + [(0, Begin(op))] + [(0, OpenExclusive(0))], 0, last,
      Beginner(if lives then Idle else Phase.Crashed, Some(0)));
    assert [] + [(0, Begin(op))] + [(0, OpenExclusive(0))] + [(0, last)]
        == [(0, Begin(op)), (0, OpenExclusive(0)), (0, last)];
  }

  // ---- with the lock mutations ----

  /** `l'` is what a mutation commits on `l` with some cache. */
  ghost predicate Commits(op: Op, satisfies: Graph.Check, l: Lock, l': Lock) {
    exists cache ::
      var s' := Apply(Store(l, cache), op, satisfies);
      s'.Some? && s'.value.lock == l'
  }

  /** `sys` applies the install and uninstall steps. */
  ghost predicate Mutates(sys: System, satisfies: Graph.Check) {
    forall op, l {:trigger sys.apply(op, l)} ::
      sys.apply(op, l).Some? ==> WellFormed(op) && !op.Abandon? && Commits(op, satisfies, l, sys.apply(op, l).value)
  }

  lemma CommitKeeps(op: Op, satisfies: Graph.Check, l: Lock, l': Lock)
    requires WellFormed(op) && !op.Abandon? && Commits(op, satisfies, l, l')
    ensures ValidLock(l') && ContentKept(l.packages, l'.packages)
  {
    var cache :| var s' := Apply(Store(l, cache), op, satisfies); s'.Some? && s'.value.lock == l';
    StepKeeps(Store(l, cache), op, satisfies);
  }

  lemma MutationsKeepNames(sys: System, satisfies: Graph.Check)
    requires Mutates(sys, satisfies) && WellNamed(sys.initial)
    ensures KeepsNames(sys)
  {
    forall op, l {:trigger sys.apply(op, l)} | WellNamed(l) && sys.apply(op, l).Some?
      ensures WellNamed(sys.apply(op, l).value)
    {
      assert Commits(op, satisfies, l, sys.apply(op, l).value);
      var cache :| var s' := Apply(Store(l, cache), op, satisfies);
                   s'.Some? && s'.value.lock == sys.apply(op, l).value;
      StepKeeps(Store(l, cache), op, satisfies);
    }
  }

  /** Concurrent installs and uninstalls from a valid lock: every lock ever committed, so every lock anyone ever
      reads, is valid, and from one commit to the next no content changes under a version. */
  lemma EveryCommittedLockIsValid(sys: System, satisfies: Graph.Check, s: State, schedule: seq<(Pid, Action)>)
    requires Parses(sys) && Init(sys, s) && Mutates(sys, satisfies)
    requires ValidLock(sys.initial) && WellNamed(sys.initial)
    ensures var t := Run(sys, s, schedule);
            && (forall l | WasCommitted(sys, t.history, l) :: ValidLock(l))
            && (forall k | 0 <= k < |t.history| ::
                  ContentKept(t.history[k].before.packages, t.history[k].after.packages))
  {
    MutationsKeepNames(sys, satisfies);
    EveryRunIsSerial(sys, s, schedule);
    var t := Run(sys, s, schedule);
    forall k | 0 <= k < |t.history|
      ensures ValidLock(t.history[k].after)
      ensures ContentKept(t.history[k].before.packages, t.history[k].after.packages)
    {
      var c := t.history[k];
      assert SerialAt(sys, t.history, k);
      assert sys.apply(c.op, c.before).Some?;
      CommitKeeps(c.op, satisfies, c.before, c.after);
    }
    forall l | WasCommitted(sys, t.history, l) ensures ValidLock(l) {
      var k :| 0 <= k <= |t.history| && l == Committed(sys, t.history, k);
    }
  }
}
