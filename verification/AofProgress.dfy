/**
 What the rewrite protocol achieves when nothing fails (aof.c): commands reach the disk, a finished rewrite leaves the
 snapshot and the commands after it, and of the files before it nothing.
 */
module AofProgress {
  import opened Options
  import opened AofProtocol

  // ------------------------------------------------------------------ serving commands

  /** Commands come in and are flushed, any number at a time. */
  ghost predicate Serving<D, C>(es: seq<Event<D, C>>) { forall i | 0 <= i < |es| :: es[i].Feed? || es[i].Flush? }

  /** The commands that come in. */
  function Fed<D, C>(es: seq<Event<D, C>>): seq<C> {
    if |es| == 0 then [] else Fed(es[..|es| - 1]) + if es[|es| - 1].Feed? then [es[|es| - 1].c] else []
  }

  /** The disk with `out` appended to the file the log goes to. */
  function Appended<D, C>(s: State<D, C>, out: seq<C>): Disk<D, C> {
    match s.fd
    case ToIncr(k) => if k in s.disk.incrs then s.disk.(incrs := s.disk.incrs[k := s.disk.incrs[k] + out]) else s.disk
    case ToTemp => if s.disk.tempIncr.Some? then s.disk.(tempIncr := Some(s.disk.tempIncr.value + out)) else s.disk
    case Unlinked => s.disk
  }

  /** How the server stands after `es`: the commands have run, and each is in the file or in the buffer, in order. */
  ghost predicate Served<D, C>(sem: Sem<D, C>, s: State<D, C>, es: seq<Event<D, C>>, t: State<D, C>, out: seq<C>) {
    && t == s.(disk := Appended(s, out), buf := t.buf, data := t.data, flushed := t.flushed)
    && t.data == Fold(sem, s.data, Fed(es)) && out + t.buf == s.buf + Fed(es)
  }

  lemma {:induction false} ServingRuns<D, C>(sem: Sem<D, C>, s: State<D, C>, es: seq<Event<D, C>>) returns (out: seq<C>)
    requires s.pc.Idle? && (!s.waiting || s.child.Some?) && Serving(es)
    ensures Served(sem, s, es, Run(sem, s, es), out)
  {
    hide Fold, Next;
    if |es| == 0 {
      out := [];
      FoldNone(sem, s.data);
      AppendedNone(s);
    } else {
      var front, e := es[..|es| - 1], es[|es| - 1];
      out := ServingRuns(sem, s, front);
      var t := Run(sem, s, front);
      if e.Feed? {
        ServeFeed(sem, s, front, t, out, e.c, es);
      } else {
        out := ServeFlush(sem, s, front, t, out, e.n, es);
      }
    }
  }

  lemma AppendedNone<D, C>(s: State<D, C>)
    ensures Appended(s, []) == s.disk
  {
    match s.fd
    case ToIncr(k) => if k in s.disk.incrs { assert s.disk.incrs[k] + [] == s.disk.incrs[k] && s.disk.incrs[k := s.disk.incrs[k]] == s.disk.incrs; }
    case ToTemp => if s.disk.tempIncr.Some? { assert s.disk.tempIncr.value + [] == s.disk.tempIncr.value; }
    case Unlinked =>
  }

  lemma ServeFeed<D, C>(sem: Sem<D, C>, s: State<D, C>, es: seq<Event<D, C>>, t: State<D, C>, out: seq<C>, c: C, es': seq<Event<D, C>>)
    requires s.pc.Idle? && (!s.waiting || s.child.Some?) && Served(sem, s, es, t, out) && es' == es + [Feed(c)]
    ensures Served(sem, s, es', Next(sem, t, Feed(c)), out)
  {
    hide Fold, Appended;
    FedMore(es, Feed(c));
    FoldMore(sem, s.data, Fed(es), c);
    assert out + (t.buf + [c]) == (out + t.buf) + [c];
    assert s.buf + (Fed(es) + [c]) == (s.buf + Fed(es)) + [c];
  }

  lemma FedMore<D, C>(es: seq<Event<D, C>>, e: Event<D, C>)
    ensures Fed(es + [e]) == Fed(es) + if e.Feed? then [e.c] else []
  {
    assert (es + [e])[..|es|] == es;
  }

  lemma FoldMore<D, C>(sem: Sem<D, C>, d: D, cs: seq<C>, c: C)
    ensures Fold(sem, d, cs + [c]) == sem.apply(Fold(sem, d, cs), c)
  {
    assert (cs + [c])[..|cs|] == cs;
  }

  lemma ServeFlush<D, C>(sem: Sem<D, C>, s: State<D, C>, es: seq<Event<D, C>>, t: State<D, C>, out: seq<C>, n: nat, es': seq<Event<D, C>>)
    returns (out': seq<C>)
    requires s.pc.Idle? && Served(sem, s, es, t, out) && es' == es + [Flush(n)]
    ensures Served(sem, s, es', Next(sem, t, Flush(n)), out')
  {
    hide Fold;
    FedMore(es, Flush(n));
    assert Fed(es) + [] == Fed(es);
    if n <= |t.buf| {
      out' := out + t.buf[..n];
      AppendedTwice(s, out, t.buf[..n]);
      assert out' + t.buf[n..] == out + t.buf by { assert t.buf[..n] + t.buf[n..] == t.buf; }
    } else {
      out' := out;
    }
  }

  lemma AppendedTwice<D, C>(s: State<D, C>, a: seq<C>, b: seq<C>)
    ensures Appended(s.(disk := Appended(s, a)), b) == Appended(s, a + b)
  {
    match s.fd
    case ToIncr(k) =>
      if k in s.disk.incrs {
        assert s.disk.incrs[k] + a + b == s.disk.incrs[k] + (a + b);
        assert s.disk.incrs[k := s.disk.incrs[k] + a][k := s.disk.incrs[k] + a + b] == s.disk.incrs[k := s.disk.incrs[k] + a + b];
      }
    case ToTemp => if s.disk.tempIncr.Some? { assert s.disk.tempIncr.value + a + b == s.disk.tempIncr.value + (a + b); }
    case Unlinked =>
  }

  /**
   Nothing that was flushed is lost: commands are fed and flushed, then the buffer is flushed, and the process ends. The
   next one has all of them, in order, behind what the first one had.
   */
  lemma CommandsSurvive<D, C>(sem: Sem<D, C>, s: State<D, C>, es: seq<Event<D, C>>)
    requires Inv(sem, s) && s.pc.Idle? && !s.waiting && Serving(es)
    ensures var t := Run(sem, s, es); var t' := Next(sem, t, Flush(|t.buf|));
      t'.buf == [] && Load(sem, t'.disk) == Some(Fold(sem, s.data, Fed(es))) && OnRestart(sem, t').data == Fold(sem, s.data, Fed(es))
  {
    hide Fold, LoadUnder, Run, Next, Inv;
    var out := ServingRuns(sem, s, es);
    var t := Run(sem, s, es);
    ServingAllowed(sem, s, es);
    RunKeeps(sem, s, es);
    FlushedAll(sem, t);
  }

  lemma {:induction false} ServingAllowed<D, C>(sem: Sem<D, C>, s: State<D, C>, es: seq<Event<D, C>>)
    requires Serving(es)
    ensures AllowedRun(sem, s, es)
  {
    hide Run, Next;
    if |es| > 0 { ServingAllowed(sem, s, es[..|es| - 1]); }
  }

  lemma FlushedAll<D, C>(sem: Sem<D, C>, t: State<D, C>)
    requires Inv(sem, t) && t.pc.Idle? && !t.waiting
    ensures var t' := Next(sem, t, Flush(|t.buf|)); t'.buf == [] && Load(sem, t'.disk) == Some(t.data) && OnRestart(sem, t').data == t.data
  {
    hide Fold, LoadUnder, Next;
    StepKeeps(sem, t, Flush(|t.buf|));
    FlushIs(sem, t);
    FoldNone(sem, Next(sem, t, Flush(|t.buf|)).flushed);
  }

  lemma FlushIs<D, C>(sem: Sem<D, C>, t: State<D, C>)
    requires t.pc.Idle?
    ensures var t' := Next(sem, t, Flush(|t.buf|)); t'.buf == [] && t'.data == t.data && t'.waiting == t.waiting && t'.pc.Idle?
  {
    hide Fold;
  }

  // ------------------------------------------------------------------ history

  predicate OnDisk<D, C>(disk: Disk<D, C>, f: File) {
    match f
    case BaseFile(n) => n in disk.bases
    case IncrFile(n) => n in disk.incrs
  }

  function Unlinks<D, C>(n: nat): seq<Event<D, C>> { seq(n, _ => Unlink) }

  function Without<D, C>(disk: Disk<D, C>, fs: seq<File>): Disk<D, C> {
    if |fs| == 0 then disk else Remove(Without(disk, fs[..|fs| - 1]), fs[|fs| - 1])
  }

  /** Exactly the files of the list are gone. */
  lemma {:induction false} WithoutIs<D, C>(disk: Disk<D, C>, fs: seq<File>)
    ensures var after := Without(disk, fs);
      && after == disk.(bases := after.bases, incrs := after.incrs)
      && (forall f :: OnDisk(after, f) <==> OnDisk(disk, f) && f !in fs)
      && (forall n | n in after.bases :: n in disk.bases && after.bases[n] == disk.bases[n])
      && (forall n | n in after.incrs :: n in disk.incrs && after.incrs[n] == disk.incrs[n])
  {
    if |fs| > 0 {
      var front, last := fs[..|fs| - 1], fs[|fs| - 1];
      WithoutIs(disk, front);
      assert forall f :: f in fs <==> f in front || f == last;
      RemoveIs(Without(disk, front), last);
    }
  }

  lemma RemoveIs<D, C>(disk: Disk<D, C>, gone: File)
    ensures var after := Remove(disk, gone);
      && after == disk.(bases := after.bases, incrs := after.incrs)
      && (forall f :: OnDisk(after, f) <==> OnDisk(disk, f) && f != gone)
      && (forall n | n in after.bases :: n in disk.bases && after.bases[n] == disk.bases[n])
      && (forall n | n in after.incrs :: n in disk.incrs && after.incrs[n] == disk.incrs[n])
  {
  }

  lemma {:induction false} UnlinksRun<D, C>(sem: Sem<D, C>, s: State<D, C>, n: nat)
    requires s.pc.Deleting? && n <= |s.manifest.hist|
    ensures Run(sem, s, Unlinks(n)) == s.(disk := Without(s.disk, s.manifest.hist[..n]), manifest := s.manifest.(hist := s.manifest.hist[n..]))
  {
    hide Next, Remove;
    if n > 0 {
      UnlinksRun(sem, s, n - 1);
      var all: seq<Event<D, C>> := Unlinks(n);
      assert all[..n - 1] == Unlinks(n - 1);
      assert s.manifest.hist[..n][..n - 1] == s.manifest.hist[..n - 1];
      UnlinkOne(sem, Run(sem, s, Unlinks(n - 1)));
      assert s.manifest.hist[n - 1..][1..] == s.manifest.hist[n..];
    }
  }

  lemma UnlinkOne<D, C>(sem: Sem<D, C>, s: State<D, C>)
    requires s.pc.Deleting?
    ensures var hist := s.manifest.hist;
      Next(sem, s, Unlink) == if |hist| == 0 then s.(pc := PersistingGc) else s.(disk := Remove(s.disk, hist[0]), manifest := s.manifest.(hist := hist[1..]))
  {
    hide Remove;
  }

  /** The deletions of the done handler: afterwards no history file is on disk, and the manifest there lists none. */
  lemma HistoryGone<D, C>(sem: Sem<D, C>, s: State<D, C>)
    requires s.pc.Deleting?
    ensures var t := Next(sem, Next(sem, Run(sem, s, Unlinks(|s.manifest.hist| + 1)), Persist(Written)), Clean);
      && t.pc.Idle? && t.manifest == s.manifest.(hist := []) && t.disk.manifest == t.manifest && !t.waiting && t.child.None?
      && t.fd == s.fd && t.buf == s.buf && t.data == s.data && t.flushed == s.flushed
      && (forall f :: OnDisk(t.disk, f) <==> OnDisk(s.disk, f) && f !in s.manifest.hist)
      && (forall n | n in t.disk.bases :: n in s.disk.bases && t.disk.bases[n] == s.disk.bases[n])
      && (forall n | n in t.disk.incrs :: n in s.disk.incrs && t.disk.incrs[n] == s.disk.incrs[n])
  {
    hide Run, Next, Without;
    var k := |s.manifest.hist|;
    UnlinksRun(sem, s, k);
    WithoutIs(s.disk, s.manifest.hist);
    assert s.manifest.hist[..k] == s.manifest.hist;
    var s1 := Run(sem, s, Unlinks(k));
    var all: seq<Event<D, C>> := Unlinks(k);
    RunOneMore(sem, s, all, Unlink);
    assert all + [Unlink] == Unlinks(k + 1);
    UnlinkOne(sem, s1);
    GcEnds(sem, s1.(pc := PersistingGc));
  }

  lemma RunOneMore<D, C>(sem: Sem<D, C>, s: State<D, C>, es: seq<Event<D, C>>, e: Event<D, C>)
    ensures Run(sem, s, es + [e]) == Next(sem, Run(sem, s, es), e)
  {
    hide Next;
    assert (es + [e])[..|es|] == es;
  }

  lemma GcEnds<D, C>(sem: Sem<D, C>, s: State<D, C>)
    requires s.pc.PersistingGc?
    ensures Next(sem, Next(sem, s, Persist(Written)), Clean)
      == s.(disk := s.disk.(manifest := s.manifest, childFile := None), waiting := false, child := None, pc := Idle)
  {
    hide Fold;
  }

  // ------------------------------------------------------------------ a whole rewrite

  /** The child has done its work and the handler publishes the result and cleans up behind it. */
  function Handled<D, C>(sem: Sem<D, C>, s: State<D, C>): State<D, C> {
    var switched := Next(sem, Next(sem, Next(sem, s, ChildExit(true)), RenameBase(true)), Persist(Written));
    Next(sem, Next(sem, Run(sem, switched, Unlinks(|switched.manifest.hist| + 1)), Persist(Written)), Clean)
  }

  /**
   What a finished rewrite leaves: the dataset `d` of the fork as the one base, the commands `fed` since in the one incr
   file and the buffer, and none of the files of the manifest `m` before it.
   */
  ghost predicate Leaves<D, C>(m: Manifest, d: D, fed: seq<C>, t: State<D, C>) {
    var b, x := m.baseSeq + 1, m.incrSeq + 1;
    && t.pc.Idle? && !t.waiting && t.child.None?
    && t.disk.manifest == t.manifest == Manifest(Some(b), [x], [], b, x)
    && b in t.disk.bases && t.disk.bases[b] == d
    && x in t.disk.incrs && t.disk.incrs[x] + t.buf == fed
    && (forall i | 0 <= i < |m.incrs| :: m.incrs[i] !in t.disk.incrs)
    && (m.base.Some? ==> m.base.value !in t.disk.bases)
    && (forall f | f in m.hist :: !OnDisk(t.disk, f))
  }

  /** The whole rewrite, with `es` while the child works. */
  function Completed<D, C>(sem: Sem<D, C>, s: State<D, C>, es: seq<Event<D, C>>): State<D, C> {
    Handled(sem, Run(sem, Next(sem, Started(sem, s, |s.buf|), Fork(true)), es))
  }

  /**
   A rewrite in which nothing fails, with any commands coming in while the child works: the base on disk is the dataset
   at the fork, the one incr file and the buffer hold the commands since, and no file that was live or history before
   is left.
   */
  lemma RewriteCompletes<D, C>(sem: Sem<D, C>, s: State<D, C>, es: seq<Event<D, C>>)
    requires Inv(sem, s) && s.pc.Idle? && !s.waiting && s.child.None? && Serving(es)
    ensures Leaves(s.manifest, s.data, Fed(es), Completed(sem, s, es)) && Completed(sem, s, es).data == Fold(sem, s.data, Fed(es))
  {
    hide Fold, Next, Inv, Run, Load, Started, OnDisk;
    var b, x := s.manifest.baseSeq + 1, s.manifest.incrSeq + 1;
    InvNumbers(sem, s);
    var s1 := Started(sem, s, |s.buf|);
    StartedIs(sem, s, |s.buf|);
    var s2 := Next(sem, s1, Fork(true));
    ForkIs(sem, s1);
    var out := ServingRuns(sem, s2, es);
    var s3 := Run(sem, s2, es);
    var m := MarkRewritten(NewBase(s1.manifest));
    TargetIs(s.manifest);
    assert s3.manifest == s1.manifest;
    SwitchIs(sem, s3, m);
    var s4 := Next(sem, Next(sem, Next(sem, s3, ChildExit(true)), RenameBase(true)), Persist(Written));
    HistoryGone(sem, s4);
    OldFilesGone(s.manifest, s4.disk, Handled(sem, s3).disk);
    NewFilesStay(s.manifest, s4.disk, Handled(sem, s3).disk);
    assert s2.disk.incrs[x] + out == out && s2.buf + Fed(es) == Fed(es);
  }

  lemma InvNumbers<D, C>(sem: Sem<D, C>, s: State<D, C>)
    requires Inv(sem, s) && !s.waiting
    ensures Numbered(s.manifest) && |s.manifest.incrs| > 0
  {
    hide Fold, Load, Numbered;
  }

  lemma ForkIs<D, C>(sem: Sem<D, C>, s: State<D, C>)
    requires s.pc.Forking?
    ensures Next(sem, s, Fork(true)) == s.(child := Some(s.data), pc := Idle)
  {
  }

  /** The manifest a rewrite publishes: every file before it is history. */
  lemma TargetIs(m0: Manifest)
    requires Numbered(m0) && |m0.incrs| > 0
    ensures var m, b, x := MarkRewritten(NewBase(NewIncr(m0))), m0.baseSeq + 1, m0.incrSeq + 1;
      && m == Manifest(Some(b), [x], m.hist, b, x) && |m.hist| > 0
      && m.hist == IncrFiles(m0.incrs) + (if m0.base.Some? then [BaseFile(m0.base.value)] else []) + m0.hist
  {
    assert NewIncr(m0).incrs[..|m0.incrs|] == m0.incrs && NewIncr(m0).incrs[|m0.incrs|..] == [m0.incrSeq + 1];
    if m0.base.Some? { assert IncrFiles(m0.incrs) + ([BaseFile(m0.base.value)] + m0.hist) == IncrFiles(m0.incrs) + [BaseFile(m0.base.value)] + m0.hist; }
  }

  lemma SwitchIs<D, C>(sem: Sem<D, C>, s: State<D, C>, m: Manifest)
    requires s.pc.Idle? && s.child.Some? && !s.waiting && m == MarkRewritten(NewBase(s.manifest)) && |m.hist| > 0
    ensures Next(sem, Next(sem, Next(sem, s, ChildExit(true)), RenameBase(true)), Persist(Written))
      == s.(disk := s.disk.(bases := s.disk.bases[m.baseSeq := s.child.value], childFile := None, manifest := m), manifest := m, pc := Deleting)
  {
    hide Next, Fold, OnSwitch;
    var s1 := OnChildExit(s, true);
    var s2 := OnRenameBase(s1, true);
    assert s2.pc == Switching(m);
    ExitIs(sem, s);
    RenameIs(sem, s1);
    PersistIs(sem, s2, m);
  }

  lemma ExitIs<D, C>(sem: Sem<D, C>, s: State<D, C>)
    requires s.pc.Idle? && s.child.Some?
    ensures Next(sem, s, ChildExit(true)) == OnChildExit(s, true)
  {
  }

  lemma RenameIs<D, C>(sem: Sem<D, C>, s: State<D, C>)
    requires s.pc.RenamingBase?
    ensures Next(sem, s, RenameBase(true)) == OnRenameBase(s, true)
  {
    hide OnRenameBase;
  }

  lemma PersistIs<D, C>(sem: Sem<D, C>, s: State<D, C>, m: Manifest)
    requires s.pc == Switching(m) && !s.waiting && |m.hist| > 0
    ensures Next(sem, s, Persist(Written)) == s.(disk := s.disk.(manifest := m), manifest := m, pc := Deleting)
  {
    hide Fold;
  }

  /** Files whose numbers are below the new ones. */
  lemma OldFilesGone<D, C>(m0: Manifest, disk: Disk<D, C>, after: Disk<D, C>)
    requires var hist := IncrFiles(m0.incrs) + (if m0.base.Some? then [BaseFile(m0.base.value)] else []) + m0.hist;
      forall f :: OnDisk(after, f) <==> OnDisk(disk, f) && f !in hist
    ensures forall i | 0 <= i < |m0.incrs| :: m0.incrs[i] !in after.incrs
    ensures m0.base.Some? ==> m0.base.value !in after.bases
    ensures forall f | f in m0.hist :: !OnDisk(after, f)
  {
    var old', base := IncrFiles(m0.incrs), if m0.base.Some? then [BaseFile(m0.base.value)] else [];
    forall i | 0 <= i < |m0.incrs| ensures m0.incrs[i] !in after.incrs {
      assert old'[i] == IncrFile(m0.incrs[i]) && old'[i] in old' + base + m0.hist;
      assert !OnDisk(after, old'[i]);
    }
    if m0.base.Some? {
      assert base[0] in old' + base + m0.hist;
      assert !OnDisk(after, base[0]);
    }
  }

  lemma NewFilesStay<D, C>(m0: Manifest, disk: Disk<D, C>, after: Disk<D, C>)
    requires Numbered(m0)
    requires var hist := IncrFiles(m0.incrs) + (if m0.base.Some? then [BaseFile(m0.base.value)] else []) + m0.hist;
      forall f :: OnDisk(after, f) <==> OnDisk(disk, f) && f !in hist
    ensures m0.baseSeq + 1 in disk.bases ==> m0.baseSeq + 1 in after.bases
    ensures m0.incrSeq + 1 in disk.incrs ==> m0.incrSeq + 1 in after.incrs
  {
    var hist := IncrFiles(m0.incrs) + (if m0.base.Some? then [BaseFile(m0.base.value)] else []) + m0.hist;
    var b, x := BaseFile(m0.baseSeq + 1), IncrFile(m0.incrSeq + 1);
    assert b !in m0.hist && x !in m0.hist && x !in IncrFiles(m0.incrs);
    assert OnDisk(after, b) <==> OnDisk(disk, b);
    assert OnDisk(after, x) <==> OnDisk(disk, x);
  }

  // ------------------------------------------------------------------ switching the log on

  function Ended<D, C>(sem: Sem<D, C>, s: State<D, C>): State<D, C> {
    if |s.manifest.hist| == 0 then Next(sem, s, Clean)
    else Next(sem, Next(sem, Run(sem, s, Unlinks(|s.manifest.hist| + 1)), Persist(Written)), Clean)
  }

  /** The handler at the end of the rewrite that switches the log on. */
  function SwitchedOver<D, C>(sem: Sem<D, C>, s: State<D, C>): State<D, C> {
    Ended(sem, Next(sem, Next(sem, Next(sem, Next(sem, s, ChildExit(true)), RenameBase(true)), RenameIncr(true)), Persist(Written)))
  }

  /** The whole of it: the rewrite starts, commands come in while the child works, and the handler ends it. */
  function SwitchedOn<D, C>(sem: Sem<D, C>, s: State<D, C>, es: seq<Event<D, C>>): State<D, C> {
    SwitchedOver(sem, Run(sem, Aside(sem, s), es))
  }

  function Aside<D, C>(sem: Sem<D, C>, s: State<D, C>): State<D, C> {
    Next(sem, Next(sem, Next(sem, s, StartRewrite(0)), Open(true)), Fork(true))
  }

  /**
   Switching the log on without a failure, with any commands coming in meanwhile: afterwards the log is on, the base is
   the dataset at the fork, and the new incr file and the buffer hold the commands since.
   */
  lemma SwitchOnCompletes<D, C>(sem: Sem<D, C>, s: State<D, C>, es: seq<Event<D, C>>)
    requires Inv(sem, s) && s.pc.Idle? && s.waiting && s.child.None? && Serving(es)
    ensures Leaves(s.manifest, s.data, Fed(es), SwitchedOn(sem, s, es)) && SwitchedOn(sem, s, es).data == Fold(sem, s.data, Fed(es))
    ensures SwitchedOn(sem, s, es).fd == ToIncr(s.manifest.incrSeq + 1)
  {
    hide *;
    WaitingIs(sem, s);
    AsideIs(sem, s);
    SwitchedOnIs(sem, s, es);
    var s2 := Aside(sem, s);
    var out := ServingRuns(sem, s2, es);
    ServedAside(sem, s2, es, Run(sem, s2, es), out);
    OverIs(sem, s, Run(sem, s2, es), out);
    assert s2.buf + Fed(es) == Fed(es);
  }

  lemma ServedAside<D, C>(sem: Sem<D, C>, s: State<D, C>, es: seq<Event<D, C>>, t: State<D, C>, out: seq<C>)
    requires Served(sem, s, es, t, out) && s.fd == ToTemp && s.disk.tempIncr == Some([])
    ensures t == s.(disk := s.disk.(tempIncr := Some(out)), buf := t.buf, data := t.data, flushed := t.flushed)
    ensures t.data == Fold(sem, s.data, Fed(es)) && out + t.buf == s.buf + Fed(es)
  {
    hide Fold;
    assert [] + out == out;
  }

  /** The handler, from the server `t` that began to switch on in state `s`. */
  lemma OverIs<D, C>(sem: Sem<D, C>, s: State<D, C>, t: State<D, C>, out: seq<C>)
    requires Numbered(s.manifest) && t.manifest == s.manifest && t.pc.Idle? && t.waiting && t.child == Some(s.data) && t.disk.tempIncr == Some(out)
    ensures var u := SwitchedOver(sem, t);
      Leaves(s.manifest, s.data, out + t.buf, u) && u.fd == ToIncr(s.manifest.incrSeq + 1) && u.data == t.data && u.buf == t.buf
  {
    hide Fold, Next, Inv, Run, Load, OnDisk, Ended, MarkRewritten, NewBase, NewIncr, Numbered, IncrFiles;
    var m := MarkRewritten(NewIncr(NewBase(s.manifest)));
    FirstTargetIs(s.manifest);
    SwitchOnIs(sem, t, m);
    var s4 := Next(sem, Next(sem, Next(sem, Next(sem, t, ChildExit(true)), RenameBase(true)), RenameIncr(true)), Persist(Written));
    EndedIs(sem, s4);
    OldFilesGone(s.manifest, s4.disk, Ended(sem, s4).disk);
    NewFilesStay(s.manifest, s4.disk, Ended(sem, s4).disk);
  }

  lemma SwitchedOnIs<D, C>(sem: Sem<D, C>, s: State<D, C>, es: seq<Event<D, C>>)
    ensures SwitchedOn(sem, s, es) == SwitchedOver(sem, Run(sem, Aside(sem, s), es))
  {
    hide SwitchedOver, Run, Aside;
  }

  lemma WaitingIs<D, C>(sem: Sem<D, C>, s: State<D, C>)
    requires Inv(sem, s) && s.pc.Idle? && s.waiting && s.child.None?
    ensures Numbered(s.manifest) && s.buf == []
  {
    hide Fold, Load, Numbered;
  }

  lemma AsideIs<D, C>(sem: Sem<D, C>, s: State<D, C>)
    requires s.pc.Idle? && s.waiting && s.child.None? && s.buf == []
    ensures var t := Aside(sem, s);
      t == s.(disk := t.disk, fd := ToTemp, child := Some(s.data), buf := [], pc := Idle) && t.disk.tempIncr == Some([]) && t.disk.manifest == s.disk.manifest
  {
    hide Fold, Next;
    var s1 := Next(sem, s, StartRewrite(0));
    StartIs(sem, s);
    var s2 := Next(sem, s1, Open(true));
    OpenIs(sem, s1);
    ForkIs(sem, s2);
  }

  lemma StartIs<D, C>(sem: Sem<D, C>, s: State<D, C>)
    requires s.pc.Idle? && s.waiting && s.child.None? && s.buf == []
    ensures var t := Next(sem, s, StartRewrite(0)); t == s.(disk := t.disk, pc := Opening) && t.disk.manifest == s.disk.manifest
  {
    hide Fold;
  }

  lemma OpenIs<D, C>(sem: Sem<D, C>, s: State<D, C>)
    requires s.pc.Opening? && s.waiting
    ensures Next(sem, s, Open(true)) == s.(disk := s.disk.(tempIncr := Some([])), fd := ToTemp, pc := Forking)
  {
  }

  lemma FirstTargetIs(m0: Manifest)
    requires Numbered(m0)
    ensures var m, b, x := MarkRewritten(NewIncr(NewBase(m0))), m0.baseSeq + 1, m0.incrSeq + 1;
      && m == Manifest(Some(b), [x], m.hist, b, x)
      && m.hist == IncrFiles(m0.incrs) + (if m0.base.Some? then [BaseFile(m0.base.value)] else []) + m0.hist
  {
    assert NewIncr(m0).incrs[..|m0.incrs|] == m0.incrs && NewIncr(m0).incrs[|m0.incrs|..] == [m0.incrSeq + 1];
    if m0.base.Some? {
      assert IncrFiles(m0.incrs) + ([BaseFile(m0.base.value)] + m0.hist) == IncrFiles(m0.incrs) + [BaseFile(m0.base.value)] + m0.hist;
    } else {
      assert IncrFiles(m0.incrs) + [] + m0.hist == IncrFiles(m0.incrs) + m0.hist;
    }
  }

  lemma SwitchOnIs<D, C>(sem: Sem<D, C>, s: State<D, C>, m: Manifest)
    requires s.pc.Idle? && s.child.Some? && s.waiting && m == MarkRewritten(NewIncr(NewBase(s.manifest))) && s.disk.tempIncr.Some?
    ensures var x := s.manifest.incrSeq + 1;
      var t := Next(sem, Next(sem, Next(sem, Next(sem, s, ChildExit(true)), RenameBase(true)), RenameIncr(true)), Persist(Written));
      && t.disk == Disk(m, s.disk.bases[s.manifest.baseSeq + 1 := s.child.value], s.disk.incrs[x := s.disk.tempIncr.value], None, None)
      && t.manifest == m && t.fd == ToIncr(x) && t.buf == s.buf && t.data == s.data
      && (if |m.hist| == 0 then t.pc.Cleaning? && !t.waiting else t.pc.Deleting?)
  {
    hide Next, Fold, OnSwitch;
    var s1 := OnChildExit(s, true);
    var s2 := OnRenameBase(s1, true);
    var m0 := NewBase(s.manifest);
    var s3 := OnRenameIncr(s2, m0, true);
    ExitIs(sem, s);
    RenameIs(sem, s1);
    assert s2.pc == RenamingIncr(m0) && s3.pc == Switching(m);
    RenameIncrIs(sem, s2, m0);
    PublishIs(sem, s3, m);
  }

  lemma RenameIncrIs<D, C>(sem: Sem<D, C>, s: State<D, C>, m: Manifest)
    requires s.pc == RenamingIncr(m)
    ensures Next(sem, s, RenameIncr(true)) == OnRenameIncr(s, m, true)
  {
    hide OnRenameIncr;
  }

  lemma PublishIs<D, C>(sem: Sem<D, C>, s: State<D, C>, m: Manifest)
    requires s.pc == Switching(m)
    ensures var t := Next(sem, s, Persist(Written));
      && t.disk == s.disk.(manifest := m) && t.manifest == m && t.fd == s.fd && t.buf == s.buf && t.data == s.data
      && (if |m.hist| == 0 then t.pc.Cleaning? && !t.waiting else t.pc.Deleting?)
  {
    hide Fold;
  }

  lemma EndedIs<D, C>(sem: Sem<D, C>, s: State<D, C>)
    requires if |s.manifest.hist| == 0 then s.pc.Cleaning? && !s.waiting && s.disk.manifest == s.manifest else s.pc.Deleting?
    ensures var t := Ended(sem, s);
      && t.pc.Idle? && t.manifest == s.manifest.(hist := []) && t.disk.manifest == t.manifest && !t.waiting && t.child.None?
      && t.fd == s.fd && t.buf == s.buf && t.data == s.data
      && (forall f :: OnDisk(t.disk, f) <==> OnDisk(s.disk, f) && f !in s.manifest.hist)
      && (forall n | n in t.disk.bases :: n in s.disk.bases && t.disk.bases[n] == s.disk.bases[n])
      && (forall n | n in t.disk.incrs :: n in s.disk.incrs && t.disk.incrs[n] == s.disk.incrs[n])
  {
    hide Run, Next;
    if |s.manifest.hist| == 0 { CleanIs(sem, s); } else { HistoryGone(sem, s); }
  }

  lemma CleanIs<D, C>(sem: Sem<D, C>, s: State<D, C>)
    requires s.pc.Cleaning? && !s.waiting
    ensures Next(sem, s, Clean) == s.(disk := s.disk.(childFile := None), child := None, pc := Idle)
  {
  }

  // ------------------------------------------------------------------ a rewrite that fails

  lemma {:induction false} DiscardsRun<D, C>(sem: Sem<D, C>, s: State<D, C>, files: seq<File>, n: nat)
    requires s.pc == Discarding(files) && n <= |files|
    ensures Run(sem, s, Unlinks(n)) == s.(disk := Without(s.disk, files[..n]), pc := Discarding(files[n..]))
  {
    hide Next, Remove;
    if n > 0 {
      DiscardsRun(sem, s, files, n - 1);
      var all: seq<Event<D, C>> := Unlinks(n);
      assert all[..n - 1] == Unlinks(n - 1);
      assert files[..n][..n - 1] == files[..n - 1];
      DiscardOne(sem, Run(sem, s, Unlinks(n - 1)), files[n - 1..]);
      assert files[n - 1..][1..] == files[n..];
    }
  }

  lemma DiscardOne<D, C>(sem: Sem<D, C>, s: State<D, C>, files: seq<File>)
    requires s.pc == Discarding(files)
    ensures Next(sem, s, Unlink) == if |files| == 0 then s.(pc := Cleaning) else s.(disk := Remove(s.disk, files[0]), pc := Discarding(files[1..]))
  {
    hide Remove;
  }

  /**
   A manifest that cannot be written: the handler takes the files of the rewrite away again, and the server goes on with
   the manifest it had.
   */
  lemma FailureCleans<D, C>(sem: Sem<D, C>, s: State<D, C>)
    requires Inv(sem, s) && s.pc.Switching?
    ensures var failed := Next(sem, s, Persist(WriteFailed));
      && failed.pc.Discarding?
      && var t := Next(sem, Run(sem, failed, Unlinks(|failed.pc.files| + 1)), Clean);
         && t.pc.Idle? && t.manifest == s.manifest && t.disk.manifest == s.disk.manifest && t.child.None? && t.data == s.data
         && s.manifest.baseSeq + 1 !in t.disk.bases && (s.waiting ==> s.manifest.incrSeq + 1 !in t.disk.incrs)
         && (!s.waiting ==> t.disk.incrs == s.disk.incrs && t.fd == s.fd && t.buf == s.buf)
  {
    hide Run, Next, Without, Inv, Load;
    TargetNumbers(sem, s);
    var failed := Next(sem, s, Persist(WriteFailed));
    FailIs(sem, s, s.pc.m);
    var files := failed.pc.files;
    var k := |files|;
    DiscardsRun(sem, failed, files, k);
    WithoutIs(failed.disk, files);
    assert files[..k] == files && files[k..] == [];
    var all: seq<Event<D, C>> := Unlinks(k);
    RunOneMore(sem, failed, all, Unlink);
    assert all + [Unlink] == Unlinks(k + 1);
    DiscardOne(sem, Run(sem, failed, all), []);
    var last := Run(sem, failed, Unlinks(k + 1));
    CleanedIs(sem, last);
    assert !OnDisk(last.disk, files[0]);
    if s.waiting { assert !OnDisk(last.disk, files[1]); } else { IncrsStay(failed.disk, last.disk, files); }
  }

  lemma TargetNumbers<D, C>(sem: Sem<D, C>, s: State<D, C>)
    requires Inv(sem, s) && s.pc.Switching?
    ensures s.pc.m.baseSeq == s.manifest.baseSeq + 1 && (s.waiting ==> s.pc.m.incrSeq == s.manifest.incrSeq + 1)
  {
    hide Load, Numbered, Fold;
  }

  lemma FailIs<D, C>(sem: Sem<D, C>, s: State<D, C>, m: Manifest)
    requires s.pc == Switching(m)
    ensures Next(sem, s, Persist(WriteFailed))
      == s.(pc := Discarding([BaseFile(m.baseSeq)] + if s.waiting then [IncrFile(m.incrSeq)] else []), fd := if s.waiting then Unlinked else s.fd)
  {
    hide Fold;
  }

  lemma CleanedIs<D, C>(sem: Sem<D, C>, s: State<D, C>)
    requires s.pc.Cleaning?
    ensures var t := Next(sem, s, Clean);
      && t.pc.Idle? && t.child.None? && t.manifest == s.manifest && t.data == s.data
      && t.disk.manifest == s.disk.manifest && t.disk.bases == s.disk.bases && t.disk.incrs == s.disk.incrs
      && (!s.waiting ==> t.fd == s.fd && t.buf == s.buf)
  {
  }

  lemma IncrsStay<D, C>(disk: Disk<D, C>, after: Disk<D, C>, files: seq<File>)
    requires (forall f :: OnDisk(after, f) <==> OnDisk(disk, f) && f !in files) && forall f | f in files :: f.BaseFile?
    requires forall n | n in after.incrs :: n in disk.incrs && after.incrs[n] == disk.incrs[n]
    ensures after.incrs == disk.incrs
  {
    forall n | n in disk.incrs ensures n in after.incrs { assert OnDisk(after, IncrFile(n)) <==> OnDisk(disk, IncrFile(n)); }
  }
}
