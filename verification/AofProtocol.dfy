/**
 The background rewrite protocol (aof.c) as a state machine: the main process, its child and the disk, with a
 possible process crash and restart between any two steps and with the outcome of every I/O call left open.
 */
module AofProtocol {
  import opened Options

  // ------------------------------------------------------------------ manifests

  datatype File = BaseFile(n: nat) | IncrFile(n: nat)

  /** The sequence numbers of the live files, the history files, and the last numbers given out. */
  datatype Manifest = Manifest(base: Option<nat>, incrs: seq<nat>, hist: seq<File>, baseSeq: nat, incrSeq: nat)

  /** `getNewBaseFileNameAndMarkPreAsHistory` */
  function NewBase(m: Manifest): Manifest {
    m.(hist := if m.base.Some? then [BaseFile(m.base.value)] + m.hist else m.hist,
       base := Some(m.baseSeq + 1), baseSeq := m.baseSeq + 1)
  }

  /** `getNewIncrAofName` */
  function NewIncr(m: Manifest): Manifest { m.(incrs := m.incrs + [m.incrSeq + 1], incrSeq := m.incrSeq + 1) }

  function IncrFiles(ns: seq<nat>): seq<File> { seq(|ns|, i requires 0 <= i < |ns| => IncrFile(ns[i])) }

  /** `markRewrittenIncrAofAsHistory` while a log is open: all but the last. */
  function MarkRewritten(m: Manifest): Manifest {
    if |m.incrs| == 0 then m
    else
      var k := |m.incrs| - 1;
      m.(hist := IncrFiles(m.incrs[..k]) + m.hist, incrs := m.incrs[k..])
  }

  /** The manifest as another process loads it: the counters are read off the live files. */
  function Reread(m: Manifest): Manifest {
    m.(baseSeq := if m.base.Some? then m.base.value else 0,
       incrSeq := if |m.incrs| > 0 then m.incrs[|m.incrs| - 1] else 0)
  }

  // ------------------------------------------------------------------ the disk

  /** What a dataset is and what a command does to it. */
  datatype Sem<!D, !C> = Sem(empty: D, apply: (D, C) -> D)

  /**
   The manifest as last renamed into place; base files, which rebuild a dataset; incr files, which hold commands; the
   child's output; and the incr file kept aside while AOF is being switched on.
   */
  datatype Disk<D, C> = Disk(manifest: Manifest, bases: map<nat, D>, incrs: map<nat, seq<C>>,
                             childFile: Option<D>, tempIncr: Option<seq<C>>)

  function Fold<D, C>(sem: Sem<D, C>, d: D, cs: seq<C>): D {
    if |cs| == 0 then d else sem.apply(Fold(sem, d, cs[..|cs| - 1]), cs[|cs| - 1])
  }

  /** Every file the manifest calls live is there. */
  predicate Present<D, C>(disk: Disk<D, C>, m: Manifest) {
    (m.base.Some? ==> m.base.value in disk.bases) && forall i | 0 <= i < |m.incrs| :: m.incrs[i] in disk.incrs
  }

  function LoadIncrs<D, C>(sem: Sem<D, C>, d: D, incrs: map<nat, seq<C>>, ns: seq<nat>): D
    requires forall i | 0 <= i < |ns| :: ns[i] in incrs
  {
    if |ns| == 0 then d
    else Fold(sem, LoadIncrs(sem, d, incrs, ns[..|ns| - 1]), incrs[ns[|ns| - 1]])
  }

  function Start0<D, C>(sem: Sem<D, C>, disk: Disk<D, C>, m: Manifest): D
    requires Present(disk, m)
  {
    if m.base.Some? then disk.bases[m.base.value] else sem.empty
  }

  /** What a restart finds under manifest `m`: nothing if a live file is missing, else base and then incrs in order. */
  function LoadUnder<D, C>(sem: Sem<D, C>, disk: Disk<D, C>, m: Manifest): Option<D> {
    if Present(disk, m) then Some(LoadIncrs(sem, Start0(sem, disk, m), disk.incrs, m.incrs)) else None
  }

  function Load<D, C>(sem: Sem<D, C>, disk: Disk<D, C>): Option<D> { LoadUnder(sem, disk, disk.manifest) }

  // ------------------------------------------------------------------ the server

  /** Where the log is written: an incr file, the one kept aside, or a file that is no longer linked. */
  datatype Fd = ToIncr(n: nat) | ToTemp | Unlinked

  /** What the main process does next when it is inside a rewrite handler. */
  datatype Pc =
    | Idle
    | Opening
    | PersistingIncr(m: Manifest)
    | Forking
    | RenamingBase
    | RenamingIncr(m: Manifest)
    | Switching(m: Manifest)
    | Deleting
    | PersistingGc
    | Discarding(files: seq<File>)
    | Cleaning
    | Starting(m: Manifest)
    | Sweeping
    | PersistingSweep
    | Down

  /**
   `waiting` is AOF_WAIT_REWRITE, or AOF_OFF until a rewrite starts, else AOF_ON. `flushed` is the state after all
   commands flushed so far.
   */
  datatype State<D, C> = State(
    disk: Disk<D, C>, manifest: Manifest, fd: Fd, buf: seq<C>, data: D, waiting: bool, child: Option<D>, pc: Pc, flushed: D)

  datatype PersistResult = Written | WriteFailed | SyncFailed

  datatype Event<D, C> =
    | Feed(c: C)
    | Flush(n: nat)
    | StartRewrite(n: nat)
    | Open(ok: bool)
    | Persist(r: PersistResult)
    | Fork(ok: bool)
    | ChildExit(ok: bool)
    | RenameBase(ok: bool)
    | RenameIncr(ok: bool)
    | Unlink
    | SkipGc
    | Clean
    | Restart
    | RestartOff(d: D)

  /** write(2) of the first `n` buffered commands to the open log. */
  function WriteOut<D, C>(sem: Sem<D, C>, s: State<D, C>, n: nat): State<D, C>
    requires n <= |s.buf|
  {
    var out := s.buf[..n];
    var disk :=
      match s.fd
      case ToIncr(k) => if k in s.disk.incrs then s.disk.(incrs := s.disk.incrs[k := s.disk.incrs[k] + out]) else s.disk
      case ToTemp => if s.disk.tempIncr.Some? then s.disk.(tempIncr := Some(s.disk.tempIncr.value + out)) else s.disk
      case Unlinked => s.disk;
    s.(disk := disk, buf := s.buf[n..], flushed := if s.waiting then s.flushed else Fold(sem, s.flushed, out))
  }

  function Remove<D, C>(disk: Disk<D, C>, f: File): Disk<D, C> {
    match f
    case BaseFile(n) => disk.(bases := disk.bases - {n})
    case IncrFile(n) => disk.(incrs := disk.incrs - {n})
  }

  /** `feedAppendOnlyFile`: while AOF is being switched on only a running child makes commands count. */
  function OnFeed<D, C>(sem: Sem<D, C>, s: State<D, C>, c: C): State<D, C> {
    s.(data := sem.apply(s.data, c), buf := if !s.waiting || s.child.Some? then s.buf + [c] else s.buf)
  }

  /** `openNewIncrAofForAppend` up to the manifest. */
  function OnOpen<D, C>(s: State<D, C>, ok: bool): State<D, C> {
    if !ok then s.(pc := Idle)
    else if s.waiting then s.(disk := s.disk.(tempIncr := Some([])), fd := ToTemp, pc := Forking)
    else
      var m := NewIncr(s.manifest);
      s.(disk := s.disk.(incrs := s.disk.incrs[m.incrSeq := []]), pc := PersistingIncr(m))
  }

  /** `persistAofManifest`: the temporary file is written and renamed, then the directory is synced. */
  function Renamed<D, C>(disk: Disk<D, C>, m: Manifest, r: PersistResult): Disk<D, C> {
    if r.WriteFailed? then disk else disk.(manifest := m)
  }

  function OnPersistIncr<D, C>(s: State<D, C>, m: Manifest, r: PersistResult): State<D, C> {
    var s1 := s.(disk := Renamed(s.disk, m, r));
    if r.Written? then s1.(manifest := m, fd := ToIncr(m.incrSeq), pc := Forking) else s1.(pc := Idle)
  }

  function OnFork<D, C>(s: State<D, C>, ok: bool): State<D, C> {
    s.(child := if ok then Some(s.data) else s.child, pc := Idle)
  }

  function OnChildExit<D, C>(s: State<D, C>, ok: bool): State<D, C> {
    if ok then s.(disk := s.disk.(childFile := s.child), pc := RenamingBase) else s.(pc := Cleaning)
  }

  /** `backgroundRewriteDoneHandler`: the child's file becomes the new base. */
  function OnRenameBase<D, C>(s: State<D, C>, ok: bool): State<D, C> {
    if !ok || s.disk.childFile.None? then s.(pc := Cleaning)
    else
      var m := NewBase(s.manifest);
      var disk := s.disk.(bases := s.disk.bases[m.baseSeq := s.disk.childFile.value], childFile := None);
      s.(disk := disk, pc := if s.waiting then RenamingIncr(m) else Switching(MarkRewritten(m)))
  }

  function OnRenameIncr<D, C>(s: State<D, C>, m0: Manifest, ok: bool): State<D, C> {
    if !ok || s.disk.tempIncr.None? then s.(pc := Discarding([BaseFile(m0.baseSeq)]))
    else
      var m := NewIncr(m0);
      var disk := s.disk.(incrs := s.disk.incrs[m.incrSeq := s.disk.tempIncr.value], tempIncr := None);
      s.(disk := disk, fd := ToIncr(m.incrSeq), pc := Switching(MarkRewritten(m)))
  }

  /** The switch: on any error the new files are deleted again. */
  function OnSwitch<D, C>(sem: Sem<D, C>, s: State<D, C>, m: Manifest, r: PersistResult): State<D, C> {
    var s1 := s.(disk := Renamed(s.disk, m, r));
    if r.Written? then
      var log := if s.waiting && m.incrSeq in s.disk.incrs && s.child.Some?
        then Fold(sem, s.child.value, s.disk.incrs[m.incrSeq]) else s.flushed;
      s1.(manifest := m, flushed := log, pc := if |m.hist| == 0 then Cleaning else Deleting,
          waiting := if |m.hist| == 0 then false else s.waiting)
    else
      s1.(pc := Discarding([BaseFile(m.baseSeq)] + if s.waiting then [IncrFile(m.incrSeq)] else []),
          fd := if s.waiting then Unlinked else s.fd)
  }

  /** `aofDelHistoryFiles`, one file at a time. */
  function OnDelete<D, C>(s: State<D, C>, after: Pc): State<D, C> {
    if |s.manifest.hist| == 0 then s.(pc := after)
    else s.(disk := Remove(s.disk, s.manifest.hist[0]), manifest := s.manifest.(hist := s.manifest.hist[1..]))
  }

  function OnDiscard<D, C>(s: State<D, C>, files: seq<File>): State<D, C> {
    if |files| == 0 then s.(pc := Cleaning)
    else s.(disk := Remove(s.disk, files[0]), pc := Discarding(files[1..]))
  }

  /** The end of the handler. */
  function OnClean<D, C>(s: State<D, C>): State<D, C> {
    var s1 := s.(disk := s.disk.(childFile := None), child := None, pc := Idle);
    if s.waiting then s1.(disk := s1.disk.(tempIncr := None), buf := [], fd := Unlinked) else s1
  }

  function SweepFirst(m: Manifest): Pc { if |m.hist| == 0 then Idle else Sweeping }

  /** A new process that has loaded the manifest and holds `d`, with no log open yet. */
  function Booted<D, C>(s: State<D, C>, d: D, loaded: D): State<D, C> {
    var m := Reread(s.disk.manifest);
    State(s.disk.(childFile := None), m, Unlinked, [], d, true, None, SweepFirst(m), loaded)
  }

  /**
   The process ends, wherever it is, and another starts with AOF on: it loads the files, makes a base if nothing is
   live, and opens the last incr file for appending. If there is none it takes the next name, and keeps what a file of
   that name holds already.
   */
  function OnRestart<D, C>(sem: Sem<D, C>, s: State<D, C>): State<D, C> {
    match Load(sem, s.disk)
    case None => s.(pc := Down)
    case Some(d) =>
      var s1 := Booted(s, d, d);
      var m := s1.manifest;
      if |m.incrs| > 0 then s1.(waiting := false, fd := ToIncr(m.incrs[|m.incrs| - 1]))
      else
        var m1 := NewIncr(if m.base.Some? then m else NewBase(m));
        var x := m1.incrSeq;
        var disk := s1.disk.(bases := if m.base.Some? then s1.disk.bases else s1.disk.bases[m1.baseSeq := d],
                             incrs := if x in s1.disk.incrs then s1.disk.incrs else s1.disk.incrs[x := []]);
        s1.(disk := disk, pc := Starting(m1))
  }

  /** The manifest of the first files; on any error the process exits. */
  function OnStarted<D, C>(s: State<D, C>, m: Manifest, r: PersistResult): State<D, C> {
    var s1 := s.(disk := Renamed(s.disk, m, r));
    if r.Written? then s1.(manifest := m, fd := ToIncr(m.incrSeq), waiting := false, pc := SweepFirst(m))
    else s1.(manifest := s1.disk.manifest, pc := Down)
  }

  /** One step; an event that does not apply changes nothing. */
  function Next<D, C>(sem: Sem<D, C>, s: State<D, C>, e: Event<D, C>): State<D, C> {
    match (s.pc, e)
    case (_, Restart) => OnRestart(sem, s)
    case (_, RestartOff(d)) => Booted(s, d, s.flushed)
    case (Starting(m), Persist(r)) => OnStarted(s, m, r)
    case (Sweeping, Unlink) => OnDelete(s, PersistingSweep)
    case (Sweeping, SkipGc) => s.(pc := Idle)
    case (PersistingSweep, Persist(r)) => s.(disk := Renamed(s.disk, s.manifest, r), pc := Idle)
    case (Idle, Feed(c)) => OnFeed(sem, s, c)
    case (Idle, Flush(n)) => if n <= |s.buf| then WriteOut(sem, s, n) else s
    case (Idle, StartRewrite(n)) =>
      if s.child.None? && n <= |s.buf| then WriteOut(sem, s, n).(pc := Opening) else s
    case (Opening, Open(ok)) => OnOpen(s, ok)
    case (PersistingIncr(m), Persist(r)) => OnPersistIncr(s, m, r)
    case (Forking, Fork(ok)) => OnFork(s, ok)
    case (Idle, ChildExit(ok)) => if s.child.Some? then OnChildExit(s, ok) else s
    case (RenamingBase, RenameBase(ok)) => OnRenameBase(s, ok)
    case (RenamingIncr(m), RenameIncr(ok)) => OnRenameIncr(s, m, ok)
    case (Switching(m), Persist(r)) => OnSwitch(sem, s, m, r)
    case (Deleting, Unlink) => OnDelete(s, PersistingGc)
    case (Deleting, SkipGc) => s.(pc := Cleaning, waiting := false)
    case (PersistingGc, Persist(r)) => s.(disk := Renamed(s.disk, s.manifest, r), pc := Cleaning, waiting := false)
    case (Discarding(files), Unlink) => OnDiscard(s, files)
    case (Cleaning, Clean) => OnClean(s)
    case _ => s
  }

  function Run<D, C>(sem: Sem<D, C>, s: State<D, C>, es: seq<Event<D, C>>): State<D, C> {
    if |es| == 0 then s else Next(sem, Run(sem, s, es[..|es| - 1]), es[|es| - 1])
  }

  // ------------------------------------------------------------------ loading

  lemma {:induction false} FoldConcat<D, C>(sem: Sem<D, C>, d: D, a: seq<C>, b: seq<C>)
    ensures Fold(sem, d, a + b) == Fold(sem, Fold(sem, d, a), b)
  {
    if |b| == 0 {
      assert a + b == a;
    } else {
      FoldConcat(sem, d, a, b[..|b| - 1]);
      assert (a + b)[..|a + b| - 1] == a + b[..|b| - 1];
    }
  }

  lemma FoldNone<D, C>(sem: Sem<D, C>, d: D)
    ensures Fold(sem, d, []) == d
  {
  }

  lemma FoldSplit<D, C>(sem: Sem<D, C>, d: D, cs: seq<C>, n: nat)
    requires n <= |cs|
    ensures Fold(sem, Fold(sem, d, cs[..n]), cs[n..]) == Fold(sem, d, cs)
  {
    FoldConcat(sem, d, cs[..n], cs[n..]);
    assert cs[..n] + cs[n..] == cs;
  }

  /** Only the listed files matter. */
  lemma {:induction false} LoadFrame<D, C>(sem: Sem<D, C>, d: D, incrs: map<nat, seq<C>>, incrs': map<nat, seq<C>>, ns: seq<nat>)
    requires forall i | 0 <= i < |ns| :: ns[i] in incrs && ns[i] in incrs' && incrs'[ns[i]] == incrs[ns[i]]
    ensures LoadIncrs(sem, d, incrs', ns) == LoadIncrs(sem, d, incrs, ns)
  {
    hide Fold;
    if |ns| > 0 { LoadFrame(sem, d, incrs, incrs', ns[..|ns| - 1]); }
  }

  lemma LoadLast<D, C>(sem: Sem<D, C>, d: D, incrs: map<nat, seq<C>>, ns: seq<nat>, x: nat)
    requires x in incrs && forall i | 0 <= i < |ns| :: ns[i] in incrs
    ensures LoadIncrs(sem, d, incrs, ns + [x]) == Fold(sem, LoadIncrs(sem, d, incrs, ns), incrs[x])
  {
    hide Fold;
    assert (ns + [x])[..|ns|] == ns;
  }

  ghost predicate Rising(ns: seq<nat>) { forall i, j | 0 <= i < j < |ns| :: ns[i] < ns[j] }

  /** Appending to the last file runs the appended commands after everything else. */
  lemma LoadAppend<D, C>(sem: Sem<D, C>, d: D, incrs: map<nat, seq<C>>, ns: seq<nat>, more: seq<C>)
    requires Rising(ns) && |ns| > 0 && forall i | 0 <= i < |ns| :: ns[i] in incrs
    ensures var x := ns[|ns| - 1];
      LoadIncrs(sem, d, incrs[x := incrs[x] + more], ns) == Fold(sem, LoadIncrs(sem, d, incrs, ns), more)
  {
    hide Fold;
    var front, x := ns[..|ns| - 1], ns[|ns| - 1];
    var incrs' := incrs[x := incrs[x] + more];
    LoadFrame(sem, d, incrs, incrs', front);
    assert ns == front + [x];
    LoadLast(sem, d, incrs, front, x);
    LoadLast(sem, d, incrs', front, x);
    FoldConcat(sem, LoadIncrs(sem, d, incrs, front), incrs[x], more);
  }

  // ------------------------------------------------------------------ the invariant

  ghost predicate HistoryApart(m: Manifest, f: File) {
    match f
    case BaseFile(n) => n <= m.baseSeq && m.base != Some(n)
    case IncrFile(n) => n <= m.incrSeq && n !in m.incrs
  }

  /** Numbers rise, the last ones given out are live, and no history file is. */
  ghost predicate Numbered(m: Manifest) {
    && Rising(m.incrs) && (forall i | 0 <= i < |m.incrs| :: m.incrs[i] <= m.incrSeq)
    && Reread(m) == m
    && forall i | 0 <= i < |m.hist| :: HistoryApart(m, m.hist[i])
  }

  /** The manifest on disk names the server's live files, or one empty incr file more. */
  ghost predicate Agrees<D, C>(s: State<D, C>) {
    var m, x := s.disk.manifest, s.manifest.incrSeq + 1;
    && m.base == s.manifest.base
    && (m.incrs == s.manifest.incrs ||
        (!s.waiting && s.child.None? && !s.pc.Forking? && m.incrs == s.manifest.incrs + [x] && x in s.disk.incrs && s.disk.incrs[x] == []))
  }

  /** The log goes to the last incr file, and what is flushed and what is buffered make up the dataset. */
  ghost predicate Writing<D, C>(sem: Sem<D, C>, s: State<D, C>) {
    && |s.manifest.incrs| > 0 && s.fd == ToIncr(s.manifest.incrs[|s.manifest.incrs| - 1])
    && Fold(sem, s.flushed, s.buf) == s.data
  }

  predicate Steady<D, C>(s: State<D, C>) { !s.waiting || s.pc.Deleting? || s.pc.PersistingGc? }

  /** The child's snapshot and the log written since it was taken. */
  ghost predicate Snapped<D, C>(sem: Sem<D, C>, s: State<D, C>, log: seq<C>) {
    s.child.Some? && Fold(sem, Fold(sem, s.child.value, log), s.buf) == s.data
  }

  ghost predicate ChildKept<D, C>(sem: Sem<D, C>, s: State<D, C>) {
    if s.child.None? then s.waiting ==> s.buf == []
    else if Steady(s) then
      |s.manifest.incrs| > 0 && var x := s.manifest.incrs[|s.manifest.incrs| - 1];
      x in s.disk.incrs && Fold(sem, s.child.value, s.disk.incrs[x]) == s.flushed
    else
      match s.pc
      case Idle => s.fd == ToTemp && s.disk.tempIncr.Some? && Snapped(sem, s, s.disk.tempIncr.value)
      case RenamingBase => s.fd == ToTemp && s.disk.tempIncr.Some? && Snapped(sem, s, s.disk.tempIncr.value)
      case RenamingIncr(_) => s.fd == ToTemp && s.disk.tempIncr.Some? && Snapped(sem, s, s.disk.tempIncr.value)
      case Switching(m) => s.fd == ToIncr(m.incrSeq) && m.incrSeq in s.disk.incrs && Snapped(sem, s, s.disk.incrs[m.incrSeq])
      case _ => true
  }

  function Target<D, C>(s: State<D, C>): Manifest {
    MarkRewritten(if s.waiting then NewIncr(NewBase(s.manifest)) else NewBase(s.manifest))
  }

  /** What each program point knows. */
  ghost predicate AtPc<D, C>(sem: Sem<D, C>, s: State<D, C>) {
    match s.pc
    case Idle => true
    case Opening => s.child.None? && s.buf == []
    case PersistingIncr(m) =>
      !s.waiting && s.child.None? && s.buf == [] && m == NewIncr(s.manifest) && m.incrSeq in s.disk.incrs && s.disk.incrs[m.incrSeq] == []
    case Forking =>
      s.child.None? && s.buf == [] &&
      if s.waiting then s.fd == ToTemp && s.disk.tempIncr == Some([])
      else |s.manifest.incrs| > 0 && var x := s.manifest.incrs[|s.manifest.incrs| - 1]; x in s.disk.incrs && s.disk.incrs[x] == []
    case RenamingBase => s.child.Some? && s.disk.childFile == s.child
    case RenamingIncr(m) =>
      s.child.Some? && s.waiting && m == NewBase(s.manifest) && m.baseSeq in s.disk.bases && s.disk.bases[m.baseSeq] == s.child.value
    case Switching(m) =>
      s.child.Some? && m == Target(s) && m.baseSeq in s.disk.bases && s.disk.bases[m.baseSeq] == s.child.value
    case Deleting => s.child.Some?
    case PersistingGc => s.child.Some?
    case Discarding(files) =>
      s.child.Some? && forall i | 0 <= i < |files| ::
        files[i] == BaseFile(s.manifest.baseSeq + 1) || (s.waiting && files[i] == IncrFile(s.manifest.incrSeq + 1))
    case Cleaning => s.child.Some?
    case Starting(m) =>
      && s.waiting && s.child.None? && s.data == s.flushed && |s.manifest.incrs| == 0
      && m == NewIncr(if s.manifest.base.Some? then s.manifest else NewBase(s.manifest))
      && m.incrSeq in s.disk.incrs && s.disk.incrs[m.incrSeq] == []
      && (s.manifest.base.None? ==> m.baseSeq in s.disk.bases && s.disk.bases[m.baseSeq] == s.flushed)
    case Sweeping => s.child.None? && s.disk.manifest.incrs == s.manifest.incrs
    case PersistingSweep => s.child.None? && s.disk.manifest.incrs == s.manifest.incrs
    case Down => s.child.None? && s.waiting
  }

  /** The invariant of the protocol; its first line is crash safety. */
  ghost predicate Inv<D, C>(sem: Sem<D, C>, s: State<D, C>) {
    && Load(sem, s.disk) == Some(s.flushed)
    && Numbered(s.manifest) && Numbered(s.disk.manifest) && Agrees(s)
    && (Steady(s) ==> Writing(sem, s))
    && ChildKept(sem, s) && AtPc(sem, s)
  }

  // ------------------------------------------------------------------ every step keeps it

  lemma KeepFeed<D, C>(sem: Sem<D, C>, s: State<D, C>, c: C)
    requires Inv(sem, s) && s.pc.Idle?
    ensures Inv(sem, OnFeed(sem, s, c))
  {
    hide LoadUnder, Numbered;
    FoldConcat(sem, s.flushed, s.buf, [c]);
    if s.child.Some? && s.waiting { FoldConcat(sem, Fold(sem, s.child.value, s.disk.tempIncr.value), s.buf, [c]); }
    OneMore(sem, s.data, c);
  }

  lemma OneMore<D, C>(sem: Sem<D, C>, d: D, c: C)
    ensures Fold(sem, d, [c]) == sem.apply(d, c)
  {
    assert Fold(sem, d, [c][..0]) == d;
  }

  /** Loading after an append to the server's last incr file. */
  lemma LoadAfterAppend<D, C>(sem: Sem<D, C>, s: State<D, C>, more: seq<C>)
    requires Numbered(s.manifest) && Agrees(s) && |s.manifest.incrs| > 0 && Load(sem, s.disk) == Some(s.flushed)
    ensures var x := s.manifest.incrs[|s.manifest.incrs| - 1];
      && x in s.disk.incrs
      && Load(sem, s.disk.(incrs := s.disk.incrs[x := s.disk.incrs[x] + more])) == Some(Fold(sem, s.flushed, more))
  {
    hide Fold;
    var ns, m := s.manifest.incrs, s.disk.manifest;
    var k := |ns| - 1;
    assert m.incrs[k] == ns[k] && m.incrs[..k + 1] == ns;
    var incrs' := s.disk.incrs[ns[k] := s.disk.incrs[ns[k]] + more];
    var d := Start0(sem, s.disk, m);
    assert forall i | 0 <= i < |ns| :: m.incrs[i] == ns[i];
    LoadAppend(sem, d, s.disk.incrs, ns, more);
    if m.incrs != ns {
      var x := s.manifest.incrSeq + 1;
      LoadLast(sem, d, s.disk.incrs, ns, x);
      LoadLast(sem, d, incrs', ns, x);
      FoldNone(sem, LoadIncrs(sem, d, s.disk.incrs, ns));
      FoldNone(sem, LoadIncrs(sem, d, incrs', ns));
    }
  }

  lemma KeepWrite<D, C>(sem: Sem<D, C>, s: State<D, C>, n: nat)
    requires Inv(sem, s) && s.pc.Idle? && n <= |s.buf|
    ensures Inv(sem, WriteOut(sem, s, n))
  {
    hide LoadIncrs, Fold;
    var out := s.buf[..n];
    FoldSplit(sem, s.flushed, s.buf, n);
    if !s.waiting {
      LoadAfterAppend(sem, s, out);
      if s.child.Some? {
        FoldConcat(sem, s.child.value, s.disk.incrs[s.fd.n], out);
      }
    } else {
      LoadUnchanged(sem, s.disk, WriteOut(sem, s, n).disk);
      if s.child.Some? {
        FoldConcat(sem, s.child.value, s.disk.tempIncr.value, out);
        FoldSplit(sem, Fold(sem, s.child.value, s.disk.tempIncr.value), s.buf, n);
      }
    }
  }

  /** New files outside the live ones do not change what a restart finds. */
  lemma LoadUnchanged<D, C>(sem: Sem<D, C>, disk: Disk<D, C>, disk': Disk<D, C>)
    requires Load(sem, disk).Some? && disk'.manifest == disk.manifest
    requires var m := disk.manifest;
      && (m.base.Some? ==> m.base.value in disk'.bases && disk'.bases[m.base.value] == disk.bases[m.base.value])
      && forall i | 0 <= i < |m.incrs| :: m.incrs[i] in disk'.incrs && disk'.incrs[m.incrs[i]] == disk.incrs[m.incrs[i]]
    ensures Load(sem, disk') == Load(sem, disk)
  {
    hide Fold;
    LoadFrame(sem, Start0(sem, disk, disk.manifest), disk.incrs, disk'.incrs, disk.manifest.incrs);
  }

  lemma KeepOpen<D, C>(sem: Sem<D, C>, s: State<D, C>, ok: bool)
    requires Inv(sem, s) && s.pc.Opening?
    ensures Inv(sem, OnOpen(s, ok))
  {
    hide Fold, LoadIncrs;
    LoadUnchanged(sem, s.disk, OnOpen(s, ok).disk);
  }

  /** One empty incr file more changes nothing. */
  lemma LoadEmptyIncr<D, C>(sem: Sem<D, C>, disk: Disk<D, C>, m: Manifest)
    requires disk.manifest.base == m.base && m.incrs == disk.manifest.incrs + [m.incrSeq]
    requires m.incrSeq in disk.incrs && disk.incrs[m.incrSeq] == [] && Load(sem, disk).Some?
    ensures LoadUnder(sem, disk, m) == Load(sem, disk)
  {
    hide Fold;
    var d := Start0(sem, disk, disk.manifest);
    LoadLast(sem, d, disk.incrs, disk.manifest.incrs, m.incrSeq);
    FoldNone(sem, LoadIncrs(sem, d, disk.incrs, disk.manifest.incrs));
  }

  lemma SameLive<D, C>(sem: Sem<D, C>, disk: Disk<D, C>, m: Manifest)
    requires disk.manifest.base == m.base && m.incrs == disk.manifest.incrs
    ensures LoadUnder(sem, disk, m) == Load(sem, disk)
  {
  }

  lemma RenameLoads<D, C>(sem: Sem<D, C>, disk: Disk<D, C>, m: Manifest)
    ensures Load(sem, disk.(manifest := m)) == LoadUnder(sem, disk, m)
  {
  }

  lemma NumberedIncr(m: Manifest)
    requires Numbered(m)
    ensures Numbered(NewIncr(m))
  {
    var m' := NewIncr(m);
    forall i | 0 <= i < |m'.hist| ensures HistoryApart(m', m'.hist[i]) { assert HistoryApart(m, m.hist[i]); }
  }

  lemma KeepPersistIncr<D, C>(sem: Sem<D, C>, s: State<D, C>, r: PersistResult)
    requires Inv(sem, s) && s.pc.PersistingIncr?
    ensures Inv(sem, OnPersistIncr(s, s.pc.m, r))
  {
    hide Fold, LoadUnder, Numbered;
    var m := s.pc.m;
    NumberedIncr(s.manifest);
    RenameLoads(sem, s.disk, m);
    if s.disk.manifest.incrs == s.manifest.incrs {
      LoadEmptyIncr(sem, s.disk, m);
    } else {
      SameLive(sem, s.disk, m);
    }
  }

  lemma KeepFork<D, C>(sem: Sem<D, C>, s: State<D, C>, ok: bool)
    requires Inv(sem, s) && s.pc.Forking?
    ensures Inv(sem, OnFork(s, ok))
  {
    hide Fold, LoadUnder, Numbered;
    FoldNone(sem, s.flushed);
    FoldNone(sem, s.data);
  }

  lemma KeepChildExit<D, C>(sem: Sem<D, C>, s: State<D, C>, ok: bool)
    requires Inv(sem, s) && s.pc.Idle? && s.child.Some?
    ensures Inv(sem, OnChildExit(s, ok))
  {
    hide Fold, LoadIncrs, Numbered;
    LoadUnchanged(sem, s.disk, OnChildExit(s, ok).disk);
  }

  lemma KeepRenameBase<D, C>(sem: Sem<D, C>, s: State<D, C>, ok: bool)
    requires Inv(sem, s) && s.pc.RenamingBase?
    ensures Inv(sem, OnRenameBase(s, ok))
  {
    hide Fold, LoadIncrs;
    LoadUnchanged(sem, s.disk, OnRenameBase(s, ok).disk);
  }

  lemma KeepRenameIncr<D, C>(sem: Sem<D, C>, s: State<D, C>, ok: bool)
    requires Inv(sem, s) && s.pc.RenamingIncr?
    ensures Inv(sem, OnRenameIncr(s, s.pc.m, ok))
  {
    hide Fold, LoadIncrs;
    LoadUnchanged(sem, s.disk, OnRenameIncr(s, s.pc.m, ok).disk);
  }

  lemma NumberedTarget(m: Manifest)
    requires Numbered(m) && |m.incrs| > 0
    ensures Numbered(MarkRewritten(NewBase(m)))
  {
    var m' := MarkRewritten(NewBase(m));
    forall i | 0 <= i < |m'.hist| ensures HistoryApart(m', m'.hist[i]) {
      var k := |m.incrs| - 1;
      if i >= k {
        var rest := NewBase(m).hist;
        assert m'.hist[i] == rest[i - k];
        if m.base.Some? && i - k > 0 { assert HistoryApart(m, m.hist[i - k - 1]); }
        if m.base.None? { assert HistoryApart(m, m.hist[i - k]); }
      }
    }
  }

  /** The manifest the switch installs: the child's file, then the log written since the fork. */
  lemma TargetLoads<D, C>(sem: Sem<D, C>, s: State<D, C>)
    requires Inv(sem, s) && s.pc.Switching?
    ensures var m := s.pc.m; var x := if s.waiting then s.manifest.incrSeq + 1 else s.manifest.incrs[|s.manifest.incrs| - 1];
      && m.incrs == [x] && m.incrSeq == (if s.waiting then x else s.manifest.incrSeq)
      && m.baseSeq == s.manifest.baseSeq + 1 && m.base == Some(m.baseSeq)
      && x in s.disk.incrs
      && LoadUnder(sem, s.disk, m) == Some(Fold(sem, s.child.value, s.disk.incrs[x]))
      && Numbered(m)
  {
    hide Fold, Numbered, Load, LoadIncrs;
    var m := s.pc.m;
    TargetNumbered(s);
    assert m.incrs == [m.incrs[0]];
    LoadOne(sem, s.child.value, s.disk.incrs, m.incrs[0]);
  }

  lemma TargetNumbered<D, C>(s: State<D, C>)
    requires Numbered(s.manifest) && (s.waiting || |s.manifest.incrs| > 0)
    ensures Numbered(Target(s))
  {
    hide Numbered;
    NumberedIncr(s.manifest);
    if s.waiting { NumberedTarget(NewIncr(s.manifest)); } else { NumberedTarget(s.manifest); }
  }

  lemma LoadOne<D, C>(sem: Sem<D, C>, d: D, incrs: map<nat, seq<C>>, x: nat)
    requires x in incrs
    ensures LoadIncrs(sem, d, incrs, [x]) == Fold(sem, d, incrs[x])
  {
    hide Fold;
    assert LoadIncrs(sem, d, incrs, [x][..0]) == d;
  }

  lemma KeepSwitch<D, C>(sem: Sem<D, C>, s: State<D, C>, r: PersistResult)
    requires Inv(sem, s) && s.pc.Switching? && !r.SyncFailed?
    ensures Inv(sem, OnSwitch(sem, s, s.pc.m, r))
  {
    hide Inv, OnSwitch;
    if r.Written? { KeepSwitched(sem, s); } else { KeepUnswitched(sem, s); }
  }

  lemma KeepSwitched<D, C>(sem: Sem<D, C>, s: State<D, C>)
    requires Inv(sem, s) && s.pc.Switching?
    ensures Inv(sem, OnSwitch(sem, s, s.pc.m, Written))
  {
    hide Fold, Numbered, Load, Target;
    TargetLoads(sem, s);
    RenameLoads(sem, s.disk, s.pc.m);
  }

  lemma KeepUnswitched<D, C>(sem: Sem<D, C>, s: State<D, C>)
    requires Inv(sem, s) && s.pc.Switching?
    ensures Inv(sem, OnSwitch(sem, s, s.pc.m, WriteFailed))
  {
    hide Fold, Numbered, Load, Target;
    TargetLoads(sem, s);
  }

  lemma NumberedLess(m: Manifest)
    requires Numbered(m) && |m.hist| > 0
    ensures Numbered(m.(hist := m.hist[1..])) && HistoryApart(m, m.hist[0])
  {
    var m' := m.(hist := m.hist[1..]);
    forall i | 0 <= i < |m'.hist| ensures HistoryApart(m', m'.hist[i]) { assert HistoryApart(m, m.hist[i + 1]); }
  }

  lemma KeepDelete<D, C>(sem: Sem<D, C>, s: State<D, C>, after: Pc)
    requires Inv(sem, s) && ((s.pc.Deleting? && after == PersistingGc) || (s.pc.Sweeping? && after == PersistingSweep))
    ensures Inv(sem, OnDelete(s, after))
  {
    hide Fold, LoadIncrs, Numbered;
    if |s.manifest.hist| > 0 {
      NumberedLess(s.manifest);
      LoadUnchanged(sem, s.disk, OnDelete(s, after).disk);
    }
  }

  lemma KeepGc<D, C>(sem: Sem<D, C>, s: State<D, C>, r: PersistResult)
    requires Inv(sem, s) && s.pc.PersistingGc?
    ensures Inv(sem, s.(disk := Renamed(s.disk, s.manifest, r), pc := Cleaning, waiting := false))
  {
    hide Fold, LoadUnder, Numbered;
    SameLive(sem, s.disk, s.manifest);
    RenameLoads(sem, s.disk, s.manifest);
  }

  lemma KeepSweep<D, C>(sem: Sem<D, C>, s: State<D, C>, r: PersistResult)
    requires Inv(sem, s) && s.pc.PersistingSweep?
    ensures Inv(sem, s.(disk := Renamed(s.disk, s.manifest, r), pc := Idle))
  {
    hide Fold, LoadUnder, Numbered;
    SameLive(sem, s.disk, s.manifest);
    RenameLoads(sem, s.disk, s.manifest);
  }

  /** The incr file that a restart would open and that is not live yet. */
  function Stray<D, C>(disk: Disk<D, C>): seq<C> {
    var x := Reread(disk.manifest).incrSeq + 1;
    if x in disk.incrs then disk.incrs[x] else []
  }

  /** With a live incr file, or with AOF off, a restart finds everything and opens nothing new. */
  lemma KeepRestart<D, C>(sem: Sem<D, C>, s: State<D, C>)
    requires Inv(sem, s) && (|s.disk.manifest.incrs| > 0 || Stray(s.disk) == [])
    ensures Inv(sem, OnRestart(sem, s)) && OnRestart(sem, s).data == s.flushed && OnRestart(sem, s).flushed == s.flushed
  {
    hide Fold, LoadIncrs, Numbered;
    RereadSame(s.disk.manifest);
    LoadUnchanged(sem, s.disk, OnRestart(sem, s).disk);
    FoldNone(sem, s.flushed);
  }

  lemma KeepRestartOff<D, C>(sem: Sem<D, C>, s: State<D, C>, d: D)
    requires Inv(sem, s)
    ensures Inv(sem, Booted(s, d, s.flushed))
  {
    hide Fold, LoadIncrs, Numbered;
    RereadSame(s.disk.manifest);
    LoadUnchanged(sem, s.disk, Booted(s, d, s.flushed).disk);
  }

  lemma RereadSame(m: Manifest)
    requires Numbered(m)
    ensures Reread(m) == m
  {
  }

  lemma NumberedBase(m: Manifest)
    requires Numbered(m) && |m.incrs| == 0
    ensures Numbered(NewBase(m))
  {
    var m' := NewBase(m);
    forall i | 0 <= i < |m'.hist| ensures HistoryApart(m', m'.hist[i]) {
      if m.base.None? { assert HistoryApart(m, m.hist[i]); } else if i > 0 { assert HistoryApart(m, m.hist[i - 1]); }
    }
  }

  /** The manifest of the first files loads to the base and then to what the incr file held. */
  lemma FirstFilesLoad<D, C>(sem: Sem<D, C>, disk: Disk<D, C>, m0: Manifest, d: D)
    requires |m0.incrs| == 0 && LoadUnder(sem, disk, m0) == Some(d)
    requires var m := NewIncr(if m0.base.Some? then m0 else NewBase(m0));
      m.incrSeq in disk.incrs && (m0.base.None? ==> m.baseSeq in disk.bases && disk.bases[m.baseSeq] == d)
    ensures var m := NewIncr(if m0.base.Some? then m0 else NewBase(m0));
      LoadUnder(sem, disk, m) == Some(Fold(sem, d, disk.incrs[m.incrSeq]))
  {
    hide Fold;
    var m := NewIncr(if m0.base.Some? then m0 else NewBase(m0));
    assert m.incrs == [m.incrSeq];
    LoadOne(sem, d, disk.incrs, m.incrSeq);
  }

  lemma KeepStarted<D, C>(sem: Sem<D, C>, s: State<D, C>, r: PersistResult)
    requires Inv(sem, s) && s.pc.Starting?
    ensures Inv(sem, OnStarted(s, s.pc.m, r))
  {
    hide Fold, LoadUnder, Numbered;
    var m := s.pc.m;
    SameLive(sem, s.disk, s.manifest);
    FirstFilesLoad(sem, s.disk, s.manifest, s.flushed);
    RenameLoads(sem, s.disk, m);
    FoldNone(sem, s.flushed);
    if s.manifest.base.None? {
      NumberedBase(s.manifest);
      NumberedIncr(NewBase(s.manifest));
    } else {
      NumberedIncr(s.manifest);
    }
  }

  lemma KeepDiscard<D, C>(sem: Sem<D, C>, s: State<D, C>)
    requires Inv(sem, s) && s.pc.Discarding?
    ensures Inv(sem, OnDiscard(s, s.pc.files))
  {
    hide Fold, LoadIncrs;
    if |s.pc.files| > 0 { LoadUnchanged(sem, s.disk, OnDiscard(s, s.pc.files).disk); }
  }

  lemma KeepClean<D, C>(sem: Sem<D, C>, s: State<D, C>)
    requires Inv(sem, s) && s.pc.Cleaning?
    ensures Inv(sem, OnClean(s))
  {
    hide Fold, LoadIncrs, Numbered;
    LoadUnchanged(sem, s.disk, OnClean(s).disk);
  }

  /**
   The three hypotheses: the forced flush before a rewrite empties the buffer; the directory sync does not fail after
   the manifest of a finished rewrite was renamed into place; and a server that starts with AOF on and without a live
   incr file finds none left over under the name it is going to use.
   */
  predicate Allowed<D, C>(s: State<D, C>, e: Event<D, C>) {
    && (s.pc.Idle? && e.StartRewrite? ==> e.n >= |s.buf|)
    && !(s.pc.Switching? && e.Persist? && e.r.SyncFailed?)
    && (e.Restart? ==> |s.disk.manifest.incrs| > 0 || Stray(s.disk) == [])
  }

  lemma StepKeeps<D, C>(sem: Sem<D, C>, s: State<D, C>, e: Event<D, C>)
    requires Inv(sem, s) && Allowed(s, e)
    ensures Inv(sem, Next(sem, s, e))
  {
    hide Inv, OnFeed, WriteOut, OnOpen, OnPersistIncr, OnFork, OnChildExit, OnRenameBase, OnRenameIncr, OnSwitch, OnDelete,
      OnDiscard, OnClean, OnRestart, OnStarted, Booted, Stray, Renamed;
    match (s.pc, e) {
      case (_, Restart) => KeepRestart(sem, s);
      case (_, RestartOff(d)) => KeepRestartOff(sem, s, d);
      case (Starting(m), Persist(r)) => KeepStarted(sem, s, r);
      case (Sweeping, Unlink) => KeepDelete(sem, s, PersistingSweep);
      case (Sweeping, SkipGc) => KeepSkipSweep(sem, s);
      case (PersistingSweep, Persist(r)) => KeepSweep(sem, s, r);
      case (Idle, Feed(c)) => KeepFeed(sem, s, c);
      case (Idle, Flush(n)) => if n <= |s.buf| { KeepWrite(sem, s, n); }
      case (Idle, StartRewrite(n)) => if s.child.None? && n <= |s.buf| { KeepStart(sem, s, n); }
      case (Opening, Open(ok)) => KeepOpen(sem, s, ok);
      case (PersistingIncr(m), Persist(r)) => KeepPersistIncr(sem, s, r);
      case (Forking, Fork(ok)) => KeepFork(sem, s, ok);
      case (Idle, ChildExit(ok)) => if s.child.Some? { KeepChildExit(sem, s, ok); }
      case (RenamingBase, RenameBase(ok)) => KeepRenameBase(sem, s, ok);
      case (RenamingIncr(m), RenameIncr(ok)) => KeepRenameIncr(sem, s, ok);
      case (Switching(m), Persist(r)) => KeepSwitch(sem, s, r);
      case (Deleting, Unlink) => KeepDelete(sem, s, PersistingGc);
      case (Deleting, SkipGc) => KeepSkip(sem, s);
      case (PersistingGc, Persist(r)) => KeepGc(sem, s, r);
      case (Discarding(files), Unlink) => KeepDiscard(sem, s);
      case (Cleaning, Clean) => KeepClean(sem, s);
      case _ =>
    }
  }

  lemma KeepStart<D, C>(sem: Sem<D, C>, s: State<D, C>, n: nat)
    requires Inv(sem, s) && s.pc.Idle? && s.child.None? && n == |s.buf|
    ensures Inv(sem, WriteOut(sem, s, n).(pc := Opening))
  {
    hide Fold, LoadUnder, Numbered;
    KeepWrite(sem, s, n);
  }

  lemma KeepSkipSweep<D, C>(sem: Sem<D, C>, s: State<D, C>)
    requires Inv(sem, s) && s.pc.Sweeping?
    ensures Inv(sem, s.(pc := Idle))
  {
    hide Fold, LoadUnder, Numbered;
  }

  lemma KeepSkip<D, C>(sem: Sem<D, C>, s: State<D, C>)
    requires Inv(sem, s) && s.pc.Deleting?
    ensures Inv(sem, s.(pc := Cleaning, waiting := false))
  {
    hide Fold, LoadUnder, Numbered;
  }

  ghost predicate AllowedRun<D, C>(sem: Sem<D, C>, s: State<D, C>, es: seq<Event<D, C>>) {
    |es| == 0 || (AllowedRun(sem, s, es[..|es| - 1]) && Allowed(Run(sem, s, es[..|es| - 1]), es[|es| - 1]))
  }

  /** A server that has never had AOF on: no manifest, no files. */
  function Fresh<D, C>(sem: Sem<D, C>, d: D): State<D, C> {
    var m := Manifest(None, [], [], 0, 0);
    State(Disk(m, map[], map[], None, None), m, Unlinked, [], d, true, None, Idle, sem.empty)
  }

  lemma FreshIsSafe<D, C>(sem: Sem<D, C>, d: D)
    ensures Inv(sem, Fresh(sem, d))
  {
  }

  /**
   Crash safety over any number of process lives: wherever a process stops, a restart finds every live file and
   rebuilds exactly the state after all commands flushed so far, by this process and by those before it; and while the
   log is on, that state followed by what is still in the buffer is the dataset.
   */
  lemma {:induction false} CrashSafe<D, C>(sem: Sem<D, C>, d: D, es: seq<Event<D, C>>)
    requires AllowedRun(sem, Fresh(sem, d), es)
    ensures var s := Run(sem, Fresh(sem, d), es);
      && Present(s.disk, s.disk.manifest) && Load(sem, s.disk) == Some(s.flushed)
      && OnRestart(sem, s).data == s.flushed && OnRestart(sem, s).flushed == s.flushed
      && (!s.waiting ==> Fold(sem, s.flushed, s.buf) == s.data)
      && Inv(sem, s)
  {
    FreshIsSafe(sem, d);
    RunKeeps(sem, Fresh(sem, d), es);
    hide Run, Fold, Fresh;
  }

  lemma {:induction false} RunKeeps<D, C>(sem: Sem<D, C>, s: State<D, C>, es: seq<Event<D, C>>)
    requires Inv(sem, s) && AllowedRun(sem, s, es)
    ensures Inv(sem, Run(sem, s, es))
  {
    hide Next, Inv, Allowed;
    if |es| > 0 {
      RunKeeps(sem, s, es[..|es| - 1]);
      StepKeeps(sem, Run(sem, s, es[..|es| - 1]), es[|es| - 1]);
    }
  }

  // ------------------------------------------------------------------ where the hypotheses are needed

  /**
   The switch survives every outcome of writing the manifest but one: when the directory sync fails after the rename,
   the handler deletes the new base although the manifest on disk already names it.
   */
  lemma SwitchNeedsSync<D, C>(sem: Sem<D, C>, s: State<D, C>, r: PersistResult)
    requires Inv(sem, s) && s.pc.Switching?
    ensures var s' := Next(sem, Next(sem, s, Persist(r)), Unlink);
      Load(sem, s'.disk).Some? <==> !r.SyncFailed?
  {
    hide Fold, LoadIncrs, Inv, WriteOut, Target;
    if r.SyncFailed? {
      var s1 := OnSwitch(sem, s, s.pc.m, r);
      TargetFile(sem, s);
      assert Next(sem, s, Persist(r)) == s1;
      assert Next(sem, s1, Unlink).disk == Remove(s1.disk, BaseFile(s.pc.m.baseSeq));
    } else {
      StepKeeps(sem, s, Persist(r));
      var s1 := Next(sem, s, Persist(r));
      assert Allowed(s1, Unlink);
      StepKeeps(sem, s1, Unlink);
      InvLoads(sem, Next(sem, s1, Unlink));
    }
  }

  lemma TargetFile<D, C>(sem: Sem<D, C>, s: State<D, C>)
    requires Inv(sem, s) && s.pc.Switching?
    ensures s.pc.m.base == Some(s.pc.m.baseSeq)
  {
    TargetLoads(sem, s);
  }

  lemma InvLoads<D, C>(sem: Sem<D, C>, s: State<D, C>)
    requires Inv(sem, s)
    ensures Load(sem, s.disk) == Some(s.flushed)
  {
  }

  /** A run that comes to the switch, from a server with nothing on disk. */
  function ToTheSwitch<D, C>(): seq<Event<D, C>> {
    [Restart, Persist(Written), StartRewrite(0), Open(true), Persist(Written), Fork(true), ChildExit(true), RenameBase(true)]
  }

  /** There the failed sync leaves a manifest whose base is gone, and no server starts from it again. */
  lemma SyncFailureReached<D, C>(sem: Sem<D, C>, d: D)
    ensures var s := Run(sem, Fresh(sem, d), ToTheSwitch());
      && AllowedRun(sem, Fresh(sem, d), ToTheSwitch()) && s.pc.Switching?
      && Load(sem, Next(sem, Next(sem, s, Persist(SyncFailed)), Unlink).disk) == None
  {
    hide Run, AllowedRun, Inv, Next, Fresh;
    var es: seq<Event<D, C>> := ToTheSwitch();
    var s0 := Fresh(sem, d);
    RunStart(sem, s0, es);
    FirstFiles(sem, d);
    var s1 := RunNext(sem, s0, s0, es, 0);
    var s2 := RunNext(sem, s0, s1, es, 1);
    var s3 := RunNext(sem, s0, s2, es, 2);
    var s4 := RunNext(sem, s0, s3, es, 3);
    var s5 := RunNext(sem, s0, s4, es, 4);
    StartedIs(sem, s2, 0);
    var s6 := RunNext(sem, s0, s5, es, 5);
    var s7 := RunNext(sem, s0, s6, es, 6);
    var s8 := RunNext(sem, s0, s7, es, 7);
    HandlerReaches(sem, s5);
    assert es[..8] == es;
    FreshIsSafe(sem, d);
    RunKeeps(sem, s0, es);
    SwitchNeedsSync(sem, s8, SyncFailed);
  }

  lemma FirstFiles<D, C>(sem: Sem<D, C>, d: D)
    ensures var s0 := Fresh(sem, d); var s := Next(sem, Next(sem, s0, Restart), Persist(Written));
      && Allowed(s0, Restart) && s.pc.Idle? && s.buf == [] && s.child.None? && !s.waiting
      && s.manifest == Manifest(Some(1), [1], [], 1, 1) && s.disk.manifest == s.manifest && s.fd == ToIncr(1)
      && s.disk.bases == map[1 := sem.empty] && s.disk.incrs == map[1 := []] && s.flushed == sem.empty
  {
    hide LoadUnder, Fold;
    FreshIsSafe(sem, d);
  }

  lemma HandlerReaches<D, C>(sem: Sem<D, C>, s: State<D, C>)
    requires s.pc.Forking? && !s.waiting
    ensures Next(sem, Next(sem, Next(sem, s, Fork(true)), ChildExit(true)), RenameBase(true)).pc.Switching?
  {
    hide Next;
    var s1 := OnFork(s, true);
    var s2 := OnChildExit(s1, true);
    HandlerSteps(sem, s, s1, s2, OnRenameBase(s2, true));
  }

  lemma RunStart<D, C>(sem: Sem<D, C>, s: State<D, C>, es: seq<Event<D, C>>)
    ensures Run(sem, s, es[..0]) == s && AllowedRun(sem, s, es[..0])
  {
  }

  lemma RunNext<D, C>(sem: Sem<D, C>, s0: State<D, C>, s: State<D, C>, es: seq<Event<D, C>>, k: nat) returns (s': State<D, C>)
    requires k < |es| && s == Run(sem, s0, es[..k]) && AllowedRun(sem, s0, es[..k]) && Allowed(s, es[k])
    ensures s' == Next(sem, s, es[k]) && s' == Run(sem, s0, es[..k + 1]) && AllowedRun(sem, s0, es[..k + 1])
  {
    hide Next, Allowed;
    assert es[..k + 1][..k] == es[..k];
    s' := Next(sem, s, es[k]);
  }

  /**
   A server that starts with AOF on and no live incr file appends to what a file of the next name holds. Its dataset is
   the one that was loaded, but the next restart runs the leftover commands after it; so it is right if and only if
   they change nothing.
   */
  lemma StrayIsAdopted<D, C>(sem: Sem<D, C>, s: State<D, C>)
    requires Inv(sem, s) && |s.disk.manifest.incrs| == 0
    ensures var s' := Next(sem, Next(sem, s, Restart), Persist(Written));
      && !s'.waiting && s'.data == s.flushed && s'.flushed == s.flushed
      && Load(sem, s'.disk) == Some(Fold(sem, s.flushed, Stray(s.disk)))
  {
    hide Fold, LoadIncrs, Numbered;
    RereadSame(s.disk.manifest);
    var s1 := OnRestart(sem, s);
    LoadUnchanged(sem, s.disk, s1.disk);
    SameLive(sem, s1.disk, s1.manifest);
    FirstFilesLoad(sem, s1.disk, s1.manifest, s.flushed);
    RenameLoads(sem, s1.disk, s1.pc.m);
  }

  /**
   The same failure while opening a new incr file, or while dropping history, changes nothing that a restart finds, as
   long as files hold whole commands.
   */
  lemma OtherSyncsHarmless<D, C>(sem: Sem<D, C>, s: State<D, C>)
    requires Inv(sem, s) && (s.pc.PersistingIncr? || s.pc.PersistingGc?)
    ensures Inv(sem, Next(sem, s, Persist(SyncFailed)))
    ensures Load(sem, Next(sem, s, Persist(SyncFailed)).disk) == Load(sem, s.disk)
  {
    StepKeeps(sem, s, Persist(SyncFailed));
  }

  /** The log goes to the last file that the manifest on disk lists. */
  predicate WritesLast<D, C>(s: State<D, C>) {
    var ns := s.disk.manifest.incrs;
    |ns| > 0 && s.fd == ToIncr(ns[|ns| - 1])
  }

  /** Which file of the manifest on disk is written. */
  function WrittenIndex<D, C>(s: State<D, C>): nat { if |s.manifest.incrs| > 0 then |s.manifest.incrs| - 1 else 0 }

  /** It is not the last one exactly after a manifest with one incr file more was renamed into place and not adopted. */
  lemma WritesLastIff<D, C>(sem: Sem<D, C>, s: State<D, C>)
    requires Inv(sem, s) && !s.waiting
    ensures var ns, i := s.disk.manifest.incrs, WrittenIndex(s);
      && i < |ns| && s.fd == ToIncr(ns[i]) && Rising(ns)
      && (WritesLast(s) <==> ns == s.manifest.incrs) && (WritesLast(s) <==> i == |ns| - 1)
  {
    hide Load, Fold;
  }

  /** A run after which it is not the last one: the sync fails when a new incr file is published. */
  function ToExtraIncr<D, C>(c: C): seq<Event<D, C>> {
    [Restart, Persist(Written), StartRewrite(0), Open(true), Persist(SyncFailed), Feed(c)]
  }

  lemma ExtraIncrReached<D, C>(sem: Sem<D, C>, d: D, c: C)
    ensures var s := Run(sem, Fresh(sem, d), ToExtraIncr(c)); var m := s.disk.manifest;
      && AllowedRun(sem, Fresh(sem, d), ToExtraIncr(c)) && s.pc.Idle? && !s.waiting && s.fd == ToIncr(1) && s.buf == [c]
      && m.base == Some(1) && m.incrs == [1, 2] && s.manifest.incrs == [1] && s.flushed == sem.empty
      && s.disk.bases == map[1 := sem.empty] && s.disk.incrs == map[1 := [], 2 := []]
  {
    hide Run, AllowedRun, Inv, Next, Fresh;
    var es: seq<Event<D, C>> := ToExtraIncr(c);
    var s0 := Fresh(sem, d);
    RunStart(sem, s0, es);
    FirstFiles(sem, d);
    var s1 := RunNext(sem, s0, s0, es, 0);
    var s2 := RunNext(sem, s0, s1, es, 1);
    var s3 := RunNext(sem, s0, s2, es, 2);
    var s4 := RunNext(sem, s0, s3, es, 3);
    OpensAndFails(sem, s2);
    var s5 := RunNext(sem, s0, s4, es, 4);
    var s6 := RunNext(sem, s0, s5, es, 5);
    FeedsOne(sem, s5, c);
    assert es[..6] == es;
  }

  lemma OpensAndFails<D, C>(sem: Sem<D, C>, s: State<D, C>)
    requires s.pc.Idle? && s.buf == [] && s.child.None? && !s.waiting && s.disk.incrs == map[1 := []]
    requires s.manifest == Manifest(Some(1), [1], [], 1, 1) && s.fd == ToIncr(1)
    ensures var s' := Next(sem, Next(sem, Next(sem, s, StartRewrite(0)), Open(true)), Persist(SyncFailed));
      && s' == s.(disk := s'.disk) && s'.disk.bases == s.disk.bases && s'.disk.incrs == map[1 := [], 2 := []]
      && s'.disk.manifest == NewIncr(s.manifest) && Next(sem, Next(sem, s, StartRewrite(0)), Open(true)).pc.PersistingIncr?
  {
    hide Load, LoadUnder, OnRestart, OnSwitch, OnRenameIncr, OnRenameBase;
    FoldNone(sem, s.flushed);
    assert s.buf[..0] == [] && s.buf[0..] == [] && s.disk.incrs[1] + [] == [];
    assert WriteOut(sem, s, 0) == s.(disk := WriteOut(sem, s, 0).disk);
  }

  lemma FeedsOne<D, C>(sem: Sem<D, C>, s: State<D, C>, c: C)
    requires s.pc.Idle? && s.buf == [] && !s.waiting
    ensures Next(sem, s, Feed(c)) == s.(data := sem.apply(s.data, c), buf := [c])
  {
    hide Load, LoadUnder, OnRestart, WriteOut;
  }

  /** A rewrite that starts without errors, up to the fork. */
  function Started<D, C>(sem: Sem<D, C>, s: State<D, C>, n: nat): State<D, C> {
    Next(sem, Next(sem, Next(sem, s, StartRewrite(n)), Open(true)), Persist(Written))
  }

  /** The fork, the child and the done handler, all without errors. */
  function Finished<D, C>(sem: Sem<D, C>, s: State<D, C>): State<D, C> {
    var renamed := Next(sem, Next(sem, Next(sem, s, Fork(true)), ChildExit(true)), RenameBase(true));
    Next(sem, Next(sem, Next(sem, renamed, Persist(Written)), SkipGc), Clean)
  }

  /** The whole rewrite, and then a flush of what the forced flush left over. */
  function Rewritten<D, C>(sem: Sem<D, C>, s: State<D, C>, n: nat): State<D, C> {
    var s' := Finished(sem, Started(sem, s, n));
    Next(sem, s', Flush(|s'.buf|))
  }

  lemma StartedIs<D, C>(sem: Sem<D, C>, s: State<D, C>, n: nat)
    requires s.pc.Idle? && s.child.None? && !s.waiting && n <= |s.buf|
    ensures var s' := Started(sem, s, n); var x := s.manifest.incrSeq + 1;
      && s'.pc.Forking? && s'.fd == ToIncr(x) && x in s'.disk.incrs && s'.disk.incrs[x] == []
      && s'.manifest == NewIncr(s.manifest) && s'.buf == s.buf[n..] && s'.data == s.data && !s'.waiting
      && s'.child.None? && s'.flushed == Fold(sem, s.flushed, s.buf[..n])
  {
    hide Fold;
  }

  lemma FinishedIs<D, C>(sem: Sem<D, C>, s: State<D, C>, x: nat)
    requires s.pc.Forking? && s.child.None? && !s.waiting && |s.manifest.incrs| > 0
    requires x == s.manifest.incrs[|s.manifest.incrs| - 1]
    ensures var s' := Finished(sem, s); var b := s.manifest.baseSeq + 1;
      && s'.pc.Idle? && s'.fd == s.fd && s'.buf == s.buf && s'.data == s.data && s'.flushed == s.flushed && !s'.waiting
      && s'.disk.manifest.base == Some(b) && s'.disk.manifest.incrs == [x]
      && b in s'.disk.bases && s'.disk.bases[b] == s.data && s'.disk.incrs == s.disk.incrs
  {
    hide Next, Fold, OnSwitch;
    var s1 := OnFork(s, true);
    var s2 := OnChildExit(s1, true);
    var s3 := OnRenameBase(s2, true);
    var m := MarkRewritten(NewBase(s.manifest));
    assert s3.pc == Switching(m);
    HandlerSteps(sem, s, s1, s2, s3);
    HandlerEnds(sem, s3, m);
  }

  lemma HandlerSteps<D, C>(sem: Sem<D, C>, s: State<D, C>, s1: State<D, C>, s2: State<D, C>, s3: State<D, C>)
    requires s.pc.Forking? && s1 == OnFork(s, true) && s2 == OnChildExit(s1, true) && s3 == OnRenameBase(s2, true)
    ensures Next(sem, s, Fork(true)) == s1 && Next(sem, s1, ChildExit(true)) == s2 && Next(sem, s2, RenameBase(true)) == s3
  {
    hide OnRenameBase, WriteOut;
  }

  lemma HandlerEnds<D, C>(sem: Sem<D, C>, s: State<D, C>, m: Manifest)
    requires s.pc == Switching(m) && !s.waiting
    ensures var s' := Next(sem, Next(sem, Next(sem, s, Persist(Written)), SkipGc), Clean);
      s' == s.(disk := s.disk.(manifest := m, childFile := None), manifest := m, child := None, pc := Idle)
  {
    hide Fold, WriteOut;
    var s1 := Next(sem, s, Persist(Written));
    assert s1 == OnSwitch(sem, s, m, Written);
    assert Next(sem, s1, SkipGc) == s1.(pc := Cleaning);
  }

  /**
   Commands left in the buffer by the forced flush are in the child's snapshot and in the new incr file. A restart
   after the rewrite runs them a second time, so it is right if and only if that changes nothing.
   */
  lemma LeftoverRunsTwice<D, C>(sem: Sem<D, C>, s: State<D, C>, n: nat)
    requires Inv(sem, s) && s.pc.Idle? && s.child.None? && !s.waiting && n <= |s.buf|
    ensures var s' := Rewritten(sem, s, n);
      && s'.buf == [] && s'.data == s.data && s'.flushed == s.data
      && Load(sem, s'.disk) == Some(Fold(sem, s.data, s.buf[n..]))
      && (Load(sem, s'.disk) == Some(s'.flushed) <==> Fold(sem, s.data, s.buf[n..]) == s.data)
  {
    hide Fold, LoadIncrs, Load, Numbered, Started, Finished;
    var left, x, b := s.buf[n..], s.manifest.incrSeq + 1, s.manifest.baseSeq + 1;
    FoldSplit(sem, s.flushed, s.buf, n);
    StartedIs(sem, s, n);
    FinishedIs(sem, Started(sem, s, n), x);
    var s1 := Finished(sem, Started(sem, s, n));
    assert left[..|left|] == left && left[|left|..] == [] && [] + left == left;
    var s' := Rewritten(sem, s, n);
    assert s' == WriteOut(sem, s1, |left|);
    LoadsRewritten(sem, s'.disk, b, x);
  }

  lemma LoadsRewritten<D, C>(sem: Sem<D, C>, disk: Disk<D, C>, b: nat, x: nat)
    requires disk.manifest.base == Some(b) && disk.manifest.incrs == [x] && b in disk.bases && x in disk.incrs
    ensures Load(sem, disk) == Some(Fold(sem, disk.bases[b], disk.incrs[x]))
  {
    hide Fold;
    LoadOne(sem, disk.bases[b], disk.incrs, x);
  }

  /** A dataset that remembers every command ever run. */
  function Journal<C>(): Sem<seq<C>, C> { Sem([], (d: seq<C>, c: C) => d + [c]) }

  lemma {:induction false} JournalFold<C>(d: seq<C>, cs: seq<C>)
    ensures Fold(Journal(), d, cs) == d + cs
  {
    if |cs| > 0 { JournalFold(d, cs[..|cs| - 1]); }
  }

  /** For such a dataset the rewrite is safe if and only if the forced flush emptied the buffer. */
  lemma RewriteNeedsEmptyBuffer<C>(s: State<seq<C>, C>, n: nat)
    requires Inv(Journal(), s) && s.pc.Idle? && s.child.None? && !s.waiting && n <= |s.buf|
    ensures var s' := Rewritten(Journal(), s, n);
      Load(Journal(), s'.disk) == Some(s'.flushed) <==> n == |s.buf|
  {
    hide Inv, Rewritten, Load, Fold;
    LeftoverRunsTwice(Journal(), s, n);
    JournalFold(s.data, s.buf[n..]);
    assert |s.data + s.buf[n..]| == |s.data| + |s.buf| - n;
    assert n == |s.buf| ==> s.data + s.buf[n..] == s.data;
  }

  /** And so is a restart with AOF on and no live incr file if and only if nothing was left over. */
  lemma RestartNeedsNoStray<C>(s: State<seq<C>, C>)
    requires Inv(Journal(), s) && |s.disk.manifest.incrs| == 0
    ensures var s' := Next(Journal(), Next(Journal(), s, Restart), Persist(Written));
      Load(Journal(), s'.disk) == Some(s'.flushed) <==> Stray(s.disk) == []
  {
    hide Inv, Load, Fold, Next, Stray;
    StrayIsAdopted(Journal(), s);
    JournalFold(s.flushed, Stray(s.disk));
    assert |s.flushed + Stray(s.disk)| == |s.flushed| + |Stray(s.disk)|;
    assert Stray(s.disk) == [] ==> s.flushed + Stray(s.disk) == s.flushed;
  }

  /** AOF is switched on, a command comes in, and the process ends after the rename of the incr file. */
  function ToStray<D, C>(c: C): seq<Event<D, C>> {
    [StartRewrite(0), Open(true), Fork(true), Feed(c), Flush(1), ChildExit(true), RenameBase(true), RenameIncr(true)]
  }

  lemma SwitchedOn<D, C>(sem: Sem<D, C>, d: D)
    ensures var s := Next(sem, Next(sem, Next(sem, Fresh(sem, d), StartRewrite(0)), Open(true)), Fork(true));
      && s.pc.Idle? && s.waiting && s.child.Some? && s.fd == ToTemp && s.disk == Fresh<D, C>(sem, d).disk.(tempIncr := Some([]))
      && s.buf == [] && s.flushed == sem.empty && s.manifest == s.disk.manifest
  {
    hide Fold, LoadUnder, OnRestart, OnSwitch, OnRenameIncr, OnRenameBase;
  }

  lemma OneCommand<D, C>(sem: Sem<D, C>, s: State<D, C>, c: C)
    requires s.pc.Idle? && s.waiting && s.child.Some? && s.fd == ToTemp && s.disk.tempIncr == Some([]) && s.buf == []
    ensures var s' := Next(sem, Next(sem, s, Feed(c)), Flush(1));
      s' == s.(data := s'.data, disk := s.disk.(tempIncr := Some([c])))
  {
    hide Fold, LoadUnder, OnRestart, OnSwitch, OnRenameIncr, OnRenameBase;
    assert [] + [c] == [c] && [c][..1] == [c] && [c][1..] == [];
  }

  lemma IncrRenamed<D, C>(sem: Sem<D, C>, s: State<D, C>)
    requires s.pc.Idle? && s.waiting && s.child.Some? && s.disk.tempIncr.Some?
    ensures var s' := Next(sem, Next(sem, Next(sem, s, ChildExit(true)), RenameBase(true)), RenameIncr(true));
      var x := s.manifest.incrSeq + 1;
      && s'.flushed == s.flushed && s'.disk.manifest == s.disk.manifest && s'.disk.incrs == s.disk.incrs[x := s.disk.tempIncr.value]
  {
    hide Fold, LoadUnder, OnRestart, OnSwitch, WriteOut;
  }

  lemma StrayReached<C>(d: seq<C>, c: C)
    ensures var s := Run(Journal(), Fresh(Journal(), d), ToStray(c));
      && AllowedRun(Journal(), Fresh(Journal(), d), ToStray(c)) && |s.disk.manifest.incrs| == 0
      && s.flushed == [] && Stray(s.disk) == [c]
  {
    hide Run, AllowedRun, Next;
    var es: seq<Event<seq<C>, C>> := ToStray(c);
    var sem: Sem<seq<C>, C> := Journal();
    var s0: State<seq<C>, C> := Fresh(sem, d);
    RunStart(sem, s0, es);
    var s1 := RunNext(sem, s0, s0, es, 0);
    var s2 := RunNext(sem, s0, s1, es, 1);
    var s3 := RunNext(sem, s0, s2, es, 2);
    SwitchedOn(sem, d);
    var s4 := RunNext(sem, s0, s3, es, 3);
    var s5 := RunNext(sem, s0, s4, es, 4);
    OneCommand(sem, s3, c);
    var s6 := RunNext(sem, s0, s5, es, 5);
    var s7 := RunNext(sem, s0, s6, es, 6);
    var s8 := RunNext(sem, s0, s7, es, 7);
    IncrRenamed(sem, s5);
    assert es[..8] == es;
  }
}
