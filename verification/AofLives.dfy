/**
 What processes make of a log that others left cut (aof.c): what a start keeps of the file, what becomes of the commands
 that are then appended, and the file over any number of processes.
 */
module AofLives {
  import opened AofLog

  // ------------------------------------------------------------------ what the next process makes of a cut log

  /** Nothing that a queue holds runs a command. */
  predicate IdleQueue(queue: seq<Argv>) { forall a | a in queue :: IsSelect(a) || IsMulti(a) || IsExec(a) }

  lemma {:induction false} QueueRuns(cfg: Config, e: Effect, queue: seq<Argv>)
    ensures var r := RunAll(cfg, e, queue).ran; e.ran <= r && (r == e.ran <==> IdleQueue(queue))
  {
    hide Named;
    if |queue| > 0 {
      var front, a := queue[..|queue| - 1], queue[|queue| - 1];
      QueueRuns(cfg, e, front);
      assert queue == front + [a];
      OneRuns(cfg, RunAll(cfg, e, front), a);
    }
  }

  lemma OneRuns(cfg: Config, e: Effect, a: Argv)
    ensures var r := RunOne(cfg, e, a).ran; if IsSelect(a) || IsMulti(a) || IsExec(a) then r == e.ran else r == e.ran + [(e.db, a)]
  {
    hide Named;
    NamesDiffer(a);
  }

  /** What is fed behind a log is recovered: no transaction is open in it, or the one that is makes no difference. */
  predicate Recovers(cfg: Config, es: seq<Entry>, fs: seq<Feed>) {
    var st := EnterAll(cfg, START, es);
    !st.multi || if HasExec(fs) then IdleQueue(st.queue) else Meant(Closed(fs)) == []
  }

  /** Exactly then reading the feeds runs them after what had run before, and nothing else. */
  lemma RecoversIff(cfg: Config, es: seq<Entry>, fs: seq<Feed>)
    ensures RanBehind(cfg, es, fs) == EnterAll(cfg, START, es).effect.ran + Meant(Closed(fs)) <==> Recovers(cfg, es, fs)
  {
    hide EnterAll, Ran, Closed, Meant, HasExec, RunAll;
    var st := EnterAll(cfg, START, es);
    TidyLog(cfg, es);
    if st.multi {
      QueueRuns(cfg, st.effect, st.queue);
      RanIff(st.effect.ran, Heading(cfg, st).ran, fs);
    } else {
      RunNone(cfg, st.effect);
      RanBehindClosed(st.effect.ran, fs);
    }
  }

  lemma {:induction false} TidyLog(cfg: Config, es: seq<Entry>)
    ensures Tidy(EnterAll(cfg, START, es))
  {
    hide RunAll, RunOne, Named, Encode, EncodeEntry;
    if |es| > 0 {
      TidyLog(cfg, es[..|es| - 1]);
      if es[|es| - 1].Cmd? { StepHeads(cfg, EnterAll(cfg, START, es[..|es| - 1]), es[|es| - 1].argv, |Encode(es[|es| - 1].argv)|); }
    }
  }

  /** A new process follows any log: it has not selected a database yet. */
  lemma NewIsReady(cfg: Config, es: seq<Entry>, stamp: nat)
    requires AllWritable(cfg, es)
    ensures Ready(cfg, es, Tracker(-1, stamp))
  {
    hide AllWritable, EnterAll;
    TidyLog(cfg, es);
  }

  /** What a server that starts leaves of the file: what it could not read is cut off. */
  function Left(cfg: Config, p: Bytes): Bytes {
    match Load(cfg, p, START).status
    case Truncated(n) => if n <= |p| then p[..n] else p
    case _ => p
  }

  predicate MultiEntry(e: Entry) { e.Cmd? && IsMulti(e.argv) }

  /** Where the last MULTI stands. */
  function LastMulti(es: seq<Entry>): (m: nat)
    ensures m <= |es|
  {
    if |es| == 0 || MultiEntry(es[|es| - 1]) then (if |es| == 0 then 0 else |es| - 1) else LastMulti(es[..|es| - 1])
  }

  /** In a log with an open transaction nothing has run since the last MULTI. */
  lemma {:induction false} LastMultiStands(cfg: Config, es: seq<Entry>)
    requires EnterAll(cfg, START, es).multi
    ensures var st, st0 := EnterAll(cfg, START, es), EnterAll(cfg, START, es[..LastMulti(es)]);
      st.effect == st0.effect && st.validBeforeMulti == st0.validUpTo
  {
    hide Encode, EncodeEntry, Named, RunAll, RunOne;
    var front, last := es[..|es| - 1], es[|es| - 1];
    if MultiEntry(last) {
      NamesDiffer(last.argv);
    } else {
      LastMultiStands(cfg, front);
      assert es[..LastMulti(es)] == front[..LastMulti(front)];
    }
  }

  /** The entries that are kept: all that are whole, or those up to the last command, or those before the last MULTI. */
  function Kept(cfg: Config, es: seq<Entry>, p: Bytes): seq<Entry> {
    var w := es[..Whole(es, |p|)];
    if !EndsCleanly(es, p) then w[..Settled(w)]
    else if EnterAll(cfg, START, w).multi then w[..LastMulti(w)][..Settled(w[..LastMulti(w)])]
    else w
  }

  /** The file ends inside an annotation, and is left so. */
  predicate EndsInNote(cfg: Config, es: seq<Entry>, p: Bytes) {
    var w := es[..Whole(es, |p|)];
    EndsCleanly(es, p) && !EnterAll(cfg, START, w).multi && p != EncodeLog(w)
  }

  lemma {:induction false} WritableSlice(cfg: Config, es: seq<Entry>, k: nat)
    requires AllWritable(cfg, es) && k <= |es|
    ensures AllWritable(cfg, es[..k])
  {
    hide Writable;
  }

  /**
   What is left of a cut log: the kept entries, and the piece of an annotation at its end if there is one. The commands
   run from them are those that were run from the whole.
   */
  lemma LeftIs(cfg: Config, es: seq<Entry>, p: Bytes)
    requires cfg.loadTruncated && AllWritable(cfg, es) && p <= EncodeLog(es)
    ensures var kept := Kept(cfg, es, p);
      && AllWritable(cfg, kept) && EnterAll(cfg, START, kept).effect == Load(cfg, p, START).effect == StandAt(cfg, es, p).effect
      && (EndsInNote(cfg, es, p) ==> Left(cfg, p) == p)
      && (!EndsInNote(cfg, es, p) ==> Left(cfg, p) == EncodeLog(kept))
  {
    hide AllWritable, EncodeLog, Load, EnterAll, Whole, Settled, EndsCleanly, LastMulti;
    CutLogLoads(cfg, es, p);
    CutWhere(es, p);
    var k := Whole(es, |p|);
    var w := es[..k];
    WritableSlice(cfg, es, k);
    if !EndsCleanly(es, p) {
      TruncatedReload(cfg, es, p);
      SettledStands(cfg, w);
      WritableSlice(cfg, w, Settled(w));
      assert w[..Settled(w)] == es[..Settled(w)];
    } else if EnterAll(cfg, START, w).multi {
      var v := w[..LastMulti(w)];
      LastMultiStands(cfg, w);
      SettledStands(cfg, v);
      WritableSlice(cfg, w, LastMulti(w));
      WritableSlice(cfg, v, Settled(v));
      EncodeFront(w, LastMulti(w));
      EncodeFront(v, Settled(v));
    }
  }

  // ------------------------------------------------------------------ behind a piece of an annotation

  /** What a loader does does not depend on where it is in the file. */
  predicate SameCore(a: Loader, b: Loader) { a.effect == b.effect && a.multi == b.multi && a.queue == b.queue }

  lemma {:induction false} CoreEnters(cfg: Config, a: Loader, b: Loader, es: seq<Entry>)
    requires SameCore(a, b)
    ensures SameCore(EnterAll(cfg, a, es), EnterAll(cfg, b, es))
  {
    hide RunAll, RunOne, Named, Encode, EncodeEntry;
    if |es| > 0 { CoreEnters(cfg, a, b, es[..|es| - 1]); }
  }

  /** A piece of an annotation and a whole one behind it are one annotation. */
  function Merged(q: Bytes, text: Bytes): Entry { Note((if |q| > 0 then q[1..] else []) + [HASH] + text) }

  lemma PieceIs(cfg: Config, e: Entry, q: Bytes)
    requires Writable(cfg, e) && e.Note? && q <= EncodeEntry(e) && 0 < |q| < |EncodeEntry(e)|
    ensures q[0] == HASH && LF !in q
  {
    var s := EncodeEntry(e);
    forall i | 0 <= i < |q| ensures q[i] != LF {
      assert q[i] == s[i];
      if 1 <= i <= |e.text| { assert s[i] == e.text[i - 1] && e.text[i - 1] in e.text; }
    }
    assert q[0] == s[0];
  }

  lemma MergedIs(cfg: Config, q: Bytes, text: Bytes)
    requires |q| > 0 && q[0] == HASH && LF !in q && LF !in text && |q| + |text| + 3 < LINE_MAX
    ensures Writable(cfg, Merged(q, text)) && EncodeEntry(Merged(q, text)) == q + EncodeEntry(Note(text))
  {
    assert q == [HASH] + q[1..];
    MergedText(q[1..], text);
    NoLfInBoth(q[1..], text);
  }

  lemma MergedText(q: Bytes, text: Bytes)
    ensures [HASH] + (q + [HASH] + text) + CRLF == ([HASH] + q) + ([HASH] + text + CRLF)
  {
  }

  lemma NoLfInBoth(q: Bytes, text: Bytes)
    requires LF !in q && LF !in text
    ensures LF !in q + [HASH] + text
  {
  }

  lemma {:induction false} EncodeFirst(es: seq<Entry>)
    requires |es| > 0
    ensures EncodeLog(es) == EncodeEntry(es[0]) + EncodeLog(es[1..])
  {
    hide EncodeEntry;
    EncodeConcat([es[0]], es[1..]);
    assert es == [es[0]] + es[1..];
    EncodeOneMore([], es[0]);
    assert [] + [es[0]] == [es[0]];
    EncodeNothing([]);
    assert [] + EncodeEntry(es[0]) == EncodeEntry(es[0]);
  }

  lemma NoteParts(cfg: Config, log: seq<Entry>)
    requires AllWritable(cfg, log) && |log| > 0 && log[0].Note?
    ensures LF !in log[0].text && |EncodeEntry(log[0])| == |log[0].text| + 3
  {
    assert Writable(cfg, log[0]);
  }

  lemma BehindBytes(w: seq<Entry>, q: Bytes, text: Bytes, log: seq<Entry>)
    requires |log| > 0 && log[0] == Note(text) && |q| > 0 && EncodeEntry(Merged(q, text)) == q + EncodeEntry(Note(text))
    ensures EncodeLog(w) + q + EncodeLog(log) == EncodeLog(w + [Merged(q, text)] + log[1..])
  {
    hide EncodeEntry, EncodeLog;
    EncodeFirst(log);
    EncodeConcat(w + [Merged(q, text)], log[1..]);
    EncodeOneMore(w, Merged(q, text));
    var a, b, c := EncodeLog(w), EncodeEntry(Note(text)), EncodeLog(log[1..]);
    assert a + q + (b + c) == a + (q + b) + c;
  }

  lemma BehindWritable(cfg: Config, w: seq<Entry>, e: Entry, log: seq<Entry>)
    requires AllWritable(cfg, w) && AllWritable(cfg, log) && Writable(cfg, e) && |log| > 0
    ensures AllWritable(cfg, w + [e] + log[1..])
  {
    hide Writable;
    assert forall x | x in log[1..] :: x in log;
  }

  lemma BehindStands(cfg: Config, w: seq<Entry>, e: Entry, log: seq<Entry>)
    requires |log| > 0 && log[0].Note? && e.Note?
    ensures SameCore(EnterAll(cfg, START, w + [e] + log[1..]), EnterAll(cfg, START, w + log))
  {
    hide EnterAll, EncodeEntry;
    var st := EnterAll(cfg, START, w);
    EnterConcat(cfg, START, w, [e]);
    EnterConcat(cfg, START, w + [e], log[1..]);
    EnterConcat(cfg, START, w, [log[0]]);
    EnterConcat(cfg, START, w + [log[0]], log[1..]);
    assert w + log == w + [log[0]] + log[1..];
    EnterNote(cfg, st, e.text);
    EnterNote(cfg, st, log[0].text);
    CoreEnters(cfg, EnterAll(cfg, st, [e]), EnterAll(cfg, st, [log[0]]), log[1..]);
  }

  lemma FirstIsCmd(cfg: Config, log: seq<Entry>)
    requires AllWritable(cfg, log) && |log| > 0 && log[0].Cmd?
    ensures ReadableArgv(log[0].argv) && EncodeEntry(log[0]) == Encode(log[0].argv)
  {
    assert Writable(cfg, log[0]);
  }

  lemma {:induction false} NothingMeant(enabled: bool, t: Tracker, fs: seq<Feed>)
    requires LogOf(enabled, t, fs) == []
    ensures Meant(fs) == [] && Meant(Closed(fs)) == []
  {
    if |fs| > 0 { NothingMeant(enabled, t, fs[..|fs| - 1]); }
  }

  /** The piece of an annotation and the first line behind it fit a line together. */
  predicate FitsLine(es: seq<Entry>, p: Bytes, log: seq<Entry>) {
    var q := |p| - |EncodeLog(es[..Whole(es, |p|)])|;
    |log| > 0 ==> q + (if log[0].Note? then |EncodeEntry(log[0])| else |Header(|log[0].argv|)|) < LINE_MAX
  }

  lemma AppendBehind(cfg: Config, kept: seq<Entry>, enabled: bool, stamp: nat, fs: seq<Feed>)
    requires cfg.loadTruncated && AllWritable(cfg, kept) && AllFeedable(cfg, fs)
    ensures var r := Load(cfg, EncodeLog(kept) + EncodeLog(LogOf(enabled, Tracker(-1, stamp), fs)), START);
      && r.effect.ran == RanBehind(cfg, kept, fs) && !r.status.Failed?
      && (r.effect.ran == EnterAll(cfg, START, kept).effect.ran + Meant(Closed(fs)) <==> Recovers(cfg, kept, fs))
  {
    var t := Tracker(-1, stamp);
    hide *;
    EncodeConcat(kept, LogOf(enabled, t, fs));
    NewIsReady(cfg, kept, stamp);
    FedIs(enabled, kept, t, fs);
    TornFeedLoads(cfg, enabled, kept, t, fs, EncodeLog(Fed(enabled, kept, t, fs)));
    AllInFull(enabled, kept, t, fs);
    RecoversIff(cfg, kept, fs);
  }

  lemma FedIs(enabled: bool, es: seq<Entry>, t: Tracker, fs: seq<Feed>)
    ensures Fed(enabled, es, t, fs) == es + LogOf(enabled, t, fs) && |EncodeLog(es)| <= |EncodeLog(Fed(enabled, es, t, fs))|
  {
    hide EncodeLog, LogOf;
    EncodeConcat(es, LogOf(enabled, t, fs));
  }

  lemma AllInFull(enabled: bool, es: seq<Entry>, t: Tracker, fs: seq<Feed>)
    ensures var p := EncodeLog(Fed(enabled, es, t, fs)); |EncodeLog(es)| <= |p| && InFull(enabled, es, t, fs, p) == fs
  {
    hide EncodeLog, LogOf;
    EncodeConcat(es, LogOf(enabled, t, fs));
    assert fs[..|fs|] == fs;
  }

  lemma EntryWritable(cfg: Config, es: seq<Entry>, k: nat)
    requires AllWritable(cfg, es) && k < |es|
    ensures Writable(cfg, es[k])
  {
  }

  // ------------------------------------------------------------------ a command lost behind an open transaction

  /**
   A process ends inside the command after a MULTI. The next one cuts that command off, starts, and runs a PING of its
   own, which is written in full; the one after it does not run it.
   */
  lemma LostBehindMulti(cfg: Config, next: Argv, stamp: nat)
    requires cfg.loadTruncated && cfg.dbnum > 0 && ReadableArgv(next) && cfg.known(next)
    requires cfg.known(MULTI_ARGV) && cfg.known(PING_ARGV) && cfg.known(SelectArgv(0))
    ensures var p, f := EncodeLog([Cmd(MULTI_ARGV)]) + [STAR], Feed(0, PING_ARGV, 0); var log := LogOf(false, Tracker(-1, stamp), [f]);
      && Load(cfg, p, START).status.Truncated? && Left(cfg, p) == EncodeLog([Cmd(MULTI_ARGV)]) && Meant([f]) == [(0, PING_ARGV)]
      && Load(cfg, Left(cfg, p) + EncodeLog(log), START).effect.ran == []
  {
    var multi, f := [Cmd(MULTI_ARGV)], Feed(0, PING_ARGV, 0);
    var es := multi + [Cmd(next)];
    var p := EncodeLog(multi) + [STAR];
    WordsAre(cfg);
    hide *;
    var fs := [f];
    CutAfterMulti(cfg, next);
    LeftIs(cfg, es, p);
    PingIsFeedable(cfg);
    PingIsMeant();
    NothingRan([], Heading(cfg, EnterAll(cfg, START, multi)).ran, fs);
    AppendBehind(cfg, multi, false, stamp, fs);
    BehindMulti(cfg, fs);
  }

  const MULTI_ARGV: Argv := [[77, 85, 76, 84, 73]]
  const PING_ARGV: Argv := [[80, 73, 78, 71]]

  lemma WordsAre(cfg: Config)
    ensures IsMulti(MULTI_ARGV) && !IsMulti(PING_ARGV) && !IsExec(PING_ARGV) && !IsSelect(PING_ARGV)
    ensures ReadableArgv(MULTI_ARGV) && ReadableArgv(PING_ARGV)
  {
    assert Lower(MULTI_ARGV[0]) == [109, 117, 108, 116, 105];
    assert |Lower(PING_ARGV[0])| == 4 && Lower(PING_ARGV[0])[0] == 112;
    OneDigit(1);
    OneDigit(4);
    OneDigit(5);
  }

  lemma CutAfterMulti(cfg: Config, next: Argv)
    requires cfg.loadTruncated && ReadableArgv(next) && cfg.known(next) && cfg.known(MULTI_ARGV)
    ensures var multi := [Cmd(MULTI_ARGV)]; var es, p := multi + [Cmd(next)], EncodeLog(multi) + [STAR];
      && AllWritable(cfg, es) && p <= EncodeLog(es) && !EndsInNote(cfg, es, p) && Kept(cfg, es, p) == multi
      && Load(cfg, p, START).status.Truncated?
      && EnterAll(cfg, START, multi).multi && EnterAll(cfg, START, multi).effect == START.effect
  {
    var multi := [Cmd(MULTI_ARGV)];
    var es, p := multi + [Cmd(next)], EncodeLog(multi) + [STAR];
    WordsAre(cfg);
    EncodeOneMore(multi, Cmd(next));
    assert EncodeEntry(Cmd(next))[0] == STAR;
    hide EncodeLog, Encode, ReadableArgv, Load, Decimal;
    LongerThanOne(next);
    assert p <= EncodeLog(es);
    WholeIs(multi, Cmd(next), p);
    assert es[..1] == multi && multi[..1] == multi;
    EnterOne(cfg, START, MULTI_ARGV);
    CutStatus(cfg, es, p);
  }

  lemma LongerThanOne(next: Argv)
    ensures |Encode(next)| > 1
  {
  }

  lemma PingIsFeedable(cfg: Config)
    requires cfg.dbnum > 0 && cfg.known(PING_ARGV) && cfg.known(SelectArgv(0))
    ensures AllFeedable(cfg, [Feed(0, PING_ARGV, 0)])
  {
    WordsAre(cfg);
    OneDigit(0);
    OneDigit(1);
  }

  lemma PingIsMeant()
    ensures var fs := [Feed(0, PING_ARGV, 0)]; Meant(fs) == [(0, PING_ARGV)] && !HasExec(fs)
  {
    assert |Lower(PING_ARGV[0])| == 4 && Lower(PING_ARGV[0])[0] == 112;
    assert [Feed(0, PING_ARGV, 0)][..0] == [];
  }

  lemma BehindMulti(cfg: Config, fs: seq<Feed>)
    requires !HasExec(fs) && EnterAll(cfg, START, [Cmd(MULTI_ARGV)]).multi && EnterAll(cfg, START, [Cmd(MULTI_ARGV)]).effect == START.effect
    ensures RanBehind(cfg, [Cmd(MULTI_ARGV)], fs) == []
  {
    hide EnterAll, HasExec, Ran;
    NothingRan([], Heading(cfg, EnterAll(cfg, START, [Cmd(MULTI_ARGV)])).ran, fs);
  }

  // ------------------------------------------------------------------ any number of processes on one file

  /** A process: what it feeds, and how many bytes of that are written when it ends. */
  datatype Life = Life(enabled: bool, stamp: nat, fs: seq<Feed>, n: nat)

  function LogOfLife(l: Life): seq<Entry> { LogOf(l.enabled, Tracker(-1, l.stamp), l.fs) }

  function WrittenBy(l: Life): Bytes {
    var all := EncodeLog(LogOfLife(l));
    if l.n < |all| then all[..l.n] else all
  }

  /** What it has fed in full. */
  function FedInFull(l: Life): seq<Feed> { l.fs[..FeedsIn(l.enabled, Tracker(-1, l.stamp), l.fs, |WrittenBy(l)|)] }

  /** A file with the log that it is a beginning of. */
  datatype FileLog = FileLog(es: seq<Entry>, file: Bytes)

  ghost predicate Sound(cfg: Config, x: FileLog) { AllWritable(cfg, x.es) && x.file <= EncodeLog(x.es) }

  predicate InNote(cfg: Config, x: FileLog) { EndsInNote(cfg, x.es, x.file) }

  /** The piece of an annotation at the end. */
  function Piece(x: FileLog): Bytes {
    var n := |EncodeLog(x.es[..Whole(x.es, |x.file|)])|;
    if n <= |x.file| then x.file[n..] else []
  }

  /** A header read as the end of an annotation. */
  function HeadNote(q: Bytes, argc: nat): Entry { Note((if |q| > 0 then q[1..] else []) + [STAR] + Decimal(argc)) }

  /** The log of which the file is a beginning after the process. */
  function NextLog(cfg: Config, x: FileLog, l: Life): seq<Entry> {
    var kept, log := Kept(cfg, x.es, x.file), LogOfLife(l);
    if !InNote(cfg, x) then kept + log
    else if |log| == 0 then x.es
    else
      match log[0]
      case Note(text) => kept + [Merged(Piece(x), text)] + log[1..]
      case Cmd(argv) => kept + [HeadNote(Piece(x), |argv|)]
  }

  function NextFile(cfg: Config, x: FileLog, l: Life): FileLog {
    FileLog(NextLog(cfg, x, l), Left(cfg, x.file) + WrittenBy(l))
  }

  /** What the process writes is recovered by the next one. */
  predicate Survives(cfg: Config, x: FileLog, l: Life) {
    if !InNote(cfg, x) then Recovers(cfg, Kept(cfg, x.es, x.file), FedInFull(l))
    else
      var log := LogOfLife(l);
      |log| == 0 || log[0].Note? || |WrittenBy(l)| <= |Header(|log[0].argv|)|
  }

  ghost predicate Feasible(cfg: Config, x: FileLog, l: Life) {
    AllFeedable(cfg, l.fs) && (InNote(cfg, x) ==> FitsLine(x.es, x.file, LogOfLife(l)))
  }

  /** The next load runs what the last one ran and what was fed in full since, and nothing else. */
  ghost predicate Right(cfg: Config, x: FileLog, l: Life) {
    var o, r := Load(cfg, x.file, START), Load(cfg, NextFile(cfg, x, l).file, START);
    !r.status.Failed? && r.effect.ran == o.effect.ran + Meant(Closed(FedInFull(l)))
  }

  lemma WrittenIs(l: Life)
    ensures WrittenBy(l) <= EncodeLog(LogOfLife(l))
  {
    hide EncodeLog, LogOf;
  }

  // ------------------------------------------------------------------ a process that starts between two entries

  lemma NextBetween(cfg: Config, x: FileLog, l: Life)
    requires cfg.loadTruncated && Sound(cfg, x) && Feasible(cfg, x, l) && !InNote(cfg, x)
    ensures Sound(cfg, NextFile(cfg, x, l)) && (Right(cfg, x, l) <==> Survives(cfg, x, l))
  {
    var t, kept := Tracker(-1, l.stamp), Kept(cfg, x.es, x.file);
    hide AllWritable, EncodeLog, Load, Left, Kept, LogOf, EnterAll, RanBehind, Meant, Closed, FeedsIn, AllFeedable, EndsInNote, Recovers;
    LeftIs(cfg, x.es, x.file);
    NewIsReady(cfg, kept, l.stamp);
    EncodeConcat(kept, LogOfLife(l));
    var p := EncodeLog(kept) + WrittenBy(l);
    FedWritable(cfg, l.enabled, kept, t, l.fs);
    TornFeedLoads(cfg, l.enabled, kept, t, l.fs, p);
    RecoversIff(cfg, kept, FedInFull(l));
  }

  // ------------------------------------------------------------------ a process that starts inside an annotation

  lemma InNoteIs(cfg: Config, x: FileLog)
    requires cfg.loadTruncated && Sound(cfg, x) && InNote(cfg, x)
    ensures var k := Whole(x.es, |x.file|); var w, q := x.es[..k], Piece(x);
      && k < |x.es| && x.es[k].Note? && Writable(cfg, x.es[k]) && q <= EncodeEntry(x.es[k]) && 0 < |q| < |EncodeEntry(x.es[k])|
      && x.file == EncodeLog(w) + q && q[0] == HASH && LF !in q && AllWritable(cfg, w) && Kept(cfg, x.es, x.file) == w
      && Left(cfg, x.file) == x.file && !EnterAll(cfg, START, w).multi
      && Load(cfg, x.file, START) == Outcome(Ok, EnterAll(cfg, START, w).effect)
  {
    hide AllWritable, EncodeLog, Load, Left, EnterAll, Whole, Writable, EncodeEntry, Settled;
    var k := Whole(x.es, |x.file|);
    CutWhere(x.es, x.file);
    LeftIs(cfg, x.es, x.file);
    CutLogLoads(cfg, x.es, x.file);
    WritableSlice(cfg, x.es, k);
    EntryWritable(cfg, x.es, k);
    PieceIs(cfg, x.es[k], Piece(x));
  }

  lemma NextWritesNothing(cfg: Config, x: FileLog, l: Life)
    requires cfg.loadTruncated && Sound(cfg, x) && InNote(cfg, x) && |LogOfLife(l)| == 0
    ensures Sound(cfg, NextFile(cfg, x, l)) && Right(cfg, x, l)
  {
    hide AllWritable, Load, Left, Kept, LogOf, EnterAll, Meant, Closed, EndsInNote, Whole;
    InNoteIs(cfg, x);
    EncodeNothing(LogOfLife(l));
    assert x.file + [] == x.file && l.fs[..|l.fs|] == l.fs;
    NothingMeant(l.enabled, Tracker(-1, l.stamp), l.fs);
    assert FedInFull(l) == l.fs;
  }

  /** Whole entries at a cut, an annotation having been merged into the first one. */
  lemma WholeBehindPiece(w: seq<Entry>, e: Entry, log: seq<Entry>, q: Bytes, n: nat)
    requires |log| > 0 && EncodeEntry(e) == q + EncodeEntry(log[0]) && |q| > 0
    ensures var all, m := w + [e] + log[1..], |EncodeLog(w)| + |q| + n;
      if n < |EncodeEntry(log[0])| then Whole(all, m) == |w| && Whole(w + log, |EncodeLog(w)| + n) == |w|
      else Whole(all, m) == Whole(w + log, |EncodeLog(w)| + n) && Whole(all, m) > |w|
  {
    hide EncodeLog, EncodeEntry, Whole;
    var rest := log[1..];
    EncodeFirst(log);
    EncodeFirst([e] + rest);
    assert ([e] + rest)[1..] == rest && log == [log[0]] + rest && w + [e] + rest == w + ([e] + rest) && w + log == w + ([log[0]] + rest);
    WholeConcat(w, [e] + rest, |EncodeLog(w)| + |q| + n);
    WholeConcat(w, log, |EncodeLog(w)| + n);
    WholeFirst([e] + rest, |q| + n);
    WholeFirst(log, n);
  }

  lemma WholeFirst(es: seq<Entry>, n: nat)
    requires |es| > 0
    ensures var c := |EncodeEntry(es[0])|; Whole(es, n) == if n < c then 0 else 1 + Whole(es[1..], n - c)
  {
    hide EncodeLog, EncodeEntry;
    var first := [es[0]];
    assert es == first + es[1..];
    EncodeOneMore([], es[0]);
    EncodeNothing([]);
    assert [] + first == first && EncodeLog(first) == EncodeEntry(es[0]);
    if n < |EncodeEntry(es[0])| {
      WholeFront(first, es[1..], n);
      CutShort(first, n);
    } else {
      WholeConcat(first, es[1..], n);
    }
  }

  /** The loader stands at any cut behind the merged annotation where it would without it. */
  lemma StandsBehindPiece(cfg: Config, w: seq<Entry>, e: Entry, log: seq<Entry>, q: Bytes, n: nat)
    requires |log| > 0 && log[0].Note? && e.Note? && EncodeEntry(e) == q + EncodeEntry(log[0]) && |q| > 0
    ensures var all, bare := w + [e] + log[1..], w + log;
      SameCore(EnterAll(cfg, START, all[..Whole(all, |EncodeLog(w)| + |q| + n)]), EnterAll(cfg, START, bare[..Whole(bare, |EncodeLog(w)| + n)]))
  {
    hide EncodeLog, EncodeEntry, Whole, EnterAll;
    WholeBehindPiece(w, e, log, q, n);
    var all, bare := w + [e] + log[1..], w + log;
    var k := Whole(all, |EncodeLog(w)| + |q| + n);
    if n < |EncodeEntry(log[0])| {
      assert all[..|w|] == w && bare[..|w|] == w;
    } else {
      var j := k - |w|;
      assert all[..k] == w + [e] + log[..j][1..] && bare[..k] == w + log[..j];
      BehindStands(cfg, w, e, log[..j]);
    }
  }

  lemma NextAfterNote(cfg: Config, x: FileLog, l: Life)
    requires cfg.loadTruncated && Sound(cfg, x) && Feasible(cfg, x, l) && InNote(cfg, x)
    requires |LogOfLife(l)| > 0 && LogOfLife(l)[0].Note?
    ensures Sound(cfg, NextFile(cfg, x, l)) && Right(cfg, x, l)
  {
    hide *;
    FeasibleIs(cfg, x, l);
    InNoteIs(cfg, x);
    MergedFits(cfg, x, l);
    NextIs(cfg, x, l);
    MergedLoads(cfg, Kept(cfg, x.es, x.file), Piece(x), l);
    RightIs(cfg, x, l);
  }

  lemma FeasibleIs(cfg: Config, x: FileLog, l: Life)
    requires Feasible(cfg, x, l)
    ensures AllFeedable(cfg, l.fs) && (InNote(cfg, x) ==> FitsLine(x.es, x.file, LogOfLife(l)))
  {
  }

  lemma MergedFits(cfg: Config, x: FileLog, l: Life)
    requires Piece(x) != [] && |LogOfLife(l)| > 0 && LogOfLife(l)[0].Note? && FitsLine(x.es, x.file, LogOfLife(l))
    ensures |Piece(x)| + |EncodeEntry(LogOfLife(l)[0])| < LINE_MAX
  {
    hide EncodeLog, EncodeEntry, LogOf, Whole;
    PieceLength(x);
  }

  lemma MergedLoads(cfg: Config, w: seq<Entry>, q: Bytes, l: Life)
    requires cfg.loadTruncated && AllWritable(cfg, w) && AllFeedable(cfg, l.fs) && !EnterAll(cfg, START, w).multi
    requires |LogOfLife(l)| > 0 && LogOfLife(l)[0].Note?
    requires |q| > 0 && q[0] == HASH && LF !in q && |q| + |EncodeEntry(LogOfLife(l)[0])| < LINE_MAX
    ensures var log := LogOfLife(l); var y := FileLog(w + [Merged(q, log[0].text)] + log[1..], EncodeLog(w) + q + WrittenBy(l));
      var r := Load(cfg, y.file, START);
      Sound(cfg, y) && !r.status.Failed? && r.effect.ran == EnterAll(cfg, START, w).effect.ran + Meant(Closed(FedInFull(l)))
  {
    hide *;
    var log := LogOfLife(l);
    var e := Merged(q, log[0].text);
    var y := FileLog(w + [e] + log[1..], EncodeLog(w) + q + WrittenBy(l));
    LifeWritable(cfg, l);
    NoteParts(cfg, log);
    MergedIs(cfg, q, log[0].text);
    BehindBytes(w, q, log[0].text, log);
    BehindWritable(cfg, w, e, log);
    WrittenIs(l);
    PrefixBehind(EncodeLog(w), q, WrittenBy(l), EncodeLog(log));
    SoundIs(cfg, y);
    MergedStands(cfg, w, q, l, y);
  }

  lemma LifeWritable(cfg: Config, l: Life)
    requires AllFeedable(cfg, l.fs)
    ensures AllWritable(cfg, LogOfLife(l))
  {
    hide AllFeedable, AllWritable, LogOf;
    LogWritable(cfg, l.enabled, Tracker(-1, l.stamp), l.fs);
  }

  lemma MergedStands(cfg: Config, w: seq<Entry>, q: Bytes, l: Life, y: FileLog)
    requires cfg.loadTruncated && AllWritable(cfg, w) && AllFeedable(cfg, l.fs) && !EnterAll(cfg, START, w).multi
    requires |q| > 0 && |LogOfLife(l)| > 0 && LogOfLife(l)[0].Note? && |y.file| == |EncodeLog(w)| + |q| + |WrittenBy(l)|
    requires AllWritable(cfg, y.es) && y.file <= EncodeLog(y.es)
    requires var e := Merged(q, LogOfLife(l)[0].text);
      y.es == w + [e] + LogOfLife(l)[1..] && EncodeEntry(e) == q + EncodeEntry(LogOfLife(l)[0])
    ensures var r := Load(cfg, y.file, START);
      !r.status.Failed? && r.effect.ran == EnterAll(cfg, START, w).effect.ran + Meant(Closed(FedInFull(l)))
  {
    hide AllWritable, AllFeedable, EncodeLog, EncodeEntry, EnterAll, Whole, Load, LogOfLife, WrittenBy, FedInFull, Meant, Closed, EndsCleanly;
    CutStatus(cfg, y.es, y.file);
    StandsBehindPiece(cfg, w, Merged(q, LogOfLife(l)[0].text), LogOfLife(l), q, |WrittenBy(l)|);
    BareStands(cfg, w, l);
  }

  lemma PieceLength(x: FileLog)
    requires Piece(x) != []
    ensures |Piece(x)| == |x.file| - |EncodeLog(x.es[..Whole(x.es, |x.file|)])|
  {
  }

  lemma NextIs(cfg: Config, x: FileLog, l: Life)
    requires InNote(cfg, x) && |LogOfLife(l)| > 0 && LogOfLife(l)[0].Note?
    ensures NextFile(cfg, x, l) == FileLog(Kept(cfg, x.es, x.file) + [Merged(Piece(x), LogOfLife(l)[0].text)] + LogOfLife(l)[1..],
                                           Left(cfg, x.file) + WrittenBy(l))
  {
    hide Kept, Left, LogOfLife, WrittenBy, Piece;
  }

  lemma PrefixBehind(a: Bytes, q: Bytes, p: Bytes, all: Bytes)
    requires p <= all
    ensures a + q + p <= a + q + all && |a + q + p| == |a| + |q| + |p|
  {
  }

  lemma SoundIs(cfg: Config, x: FileLog)
    ensures Sound(cfg, x) <==> AllWritable(cfg, x.es) && x.file <= EncodeLog(x.es)
  {
  }

  lemma RightIs(cfg: Config, x: FileLog, l: Life)
    ensures Right(cfg, x, l) <==>
      var r := Load(cfg, NextFile(cfg, x, l).file, START);
      !r.status.Failed? && r.effect.ran == Load(cfg, x.file, START).effect.ran + Meant(Closed(FedInFull(l)))
  {
  }

  /** Where the loader would stand without the piece of an annotation. */
  lemma BareStands(cfg: Config, w: seq<Entry>, l: Life)
    requires AllWritable(cfg, w) && AllFeedable(cfg, l.fs) && !EnterAll(cfg, START, w).multi
    ensures var bare := w + LogOfLife(l);
      EnterAll(cfg, START, bare[..Whole(bare, |EncodeLog(w)| + |WrittenBy(l)|)]).effect.ran
        == EnterAll(cfg, START, w).effect.ran + Meant(Closed(FedInFull(l)))
  {
    hide AllWritable, EncodeLog, EnterAll, Whole, LogOf, RanBehind, Meant, Closed, FeedsIn, AllFeedable;
    NewIsReady(cfg, w, l.stamp);
    WrittenIs(l);
    TornStands(cfg, l.enabled, w, Tracker(-1, l.stamp), l.fs, |WrittenBy(l)|);
    RecoversIff(cfg, w, FedInFull(l));
  }

  lemma HeadNoteIs(cfg: Config, q: Bytes, argc: nat)
    requires |q| > 0 && q[0] == HASH && LF !in q && |q| + |Header(argc)| < LINE_MAX
    ensures Writable(cfg, HeadNote(q, argc)) && EncodeEntry(HeadNote(q, argc)) == q + Header(argc)
  {
    NoLfInNumber(argc);
    hide Decimal;
    assert q == [HASH] + q[1..];
    HeadText(q[1..], Decimal(argc));
  }

  lemma NoLfInNumber(n: nat)
    ensures LF !in Decimal(n)
  {
    var d := Decimal(n);
    forall i | 0 <= i < |d| ensures d[i] != LF { assert IsDigit(d[i]); }
  }

  lemma HeadText(q: Bytes, d: Bytes)
    ensures [HASH] + (q + [STAR] + d) + CRLF == ([HASH] + q) + ([STAR] + d + CRLF)
  {
  }

  /** As long as not more than the header is written, the annotation has only grown. */
  lemma NextHeader(cfg: Config, x: FileLog, l: Life)
    requires cfg.loadTruncated && Sound(cfg, x) && Feasible(cfg, x, l) && InNote(cfg, x)
    requires |LogOfLife(l)| > 0 && LogOfLife(l)[0].Cmd? && |WrittenBy(l)| <= |Header(|LogOfLife(l)[0].argv|)|
    ensures Sound(cfg, NextFile(cfg, x, l)) && Right(cfg, x, l)
  {
    var log, w, q := LogOfLife(l), Kept(cfg, x.es, x.file), Piece(x);
    var argv := log[0].argv;
    InNoteIs(cfg, x);
    PieceLength(x);
    LogWritable(cfg, l.enabled, Tracker(-1, l.stamp), l.fs);
    FirstIsCmd(cfg, log);
    HeadNoteIs(cfg, q, |argv|);
    var e, y := HeadNote(q, |argv|), NextFile(cfg, x, l);
    assert y == FileLog(w + [e], x.file + WrittenBy(l));
    NothingInFull(l);
    EncodeIs(argv);
    hide *;
    EncodeFirst(log);
    WrittenIs(l);
    HeaderFirst(EncodeLog(w), q, WrittenBy(l), Header(|argv|), Bulks(argv), EncodeLog(log[1..]));
    EncodeOneMore(w, e);
    OneMoreWritable(cfg, w, e);
    SoundIs(cfg, y);
    CutStatus(cfg, y.es, y.file);
    NoteStands(cfg, w, e, y.file);
    RightIs(cfg, x, l);
    NothingAdded(EnterAll(cfg, START, w).effect.ran, Meant(Closed(FedInFull(l))));
  }

  lemma OneMoreWritable(cfg: Config, w: seq<Entry>, e: Entry)
    requires AllWritable(cfg, w) && Writable(cfg, e)
    ensures AllWritable(cfg, w + [e])
  {
    hide Writable;
  }

  lemma HeaderFirst(a: Bytes, q: Bytes, p: Bytes, header: Bytes, bulks: Bytes, tail: Bytes)
    requires p <= header + bulks + tail && |p| <= |header|
    ensures a + q + p <= a + (q + header)
  {
    assert p == (header + bulks + tail)[..|p|] == header[..|p|];
  }

  lemma NoteStands(cfg: Config, w: seq<Entry>, e: Entry, p: Bytes)
    requires e.Note? && p <= EncodeLog(w + [e]) && |EncodeLog(w)| <= |p|
    ensures var st := StandAt(cfg, w + [e], p); st.effect == EnterAll(cfg, START, w).effect
  {
    hide EncodeLog, EncodeEntry, Whole;
    WholeConcat(w, [e], |p|);
    WholeFirst([e], |p| - |EncodeLog(w)|);
    assert (w + [e])[..|w|] == w && (w + [e])[..|w| + 1] == w + [e];
    EnterLast(cfg, w, e);
  }

  /** Feeds in full write no more than was written. */
  lemma {:induction false} InFullFits(enabled: bool, t: Tracker, fs: seq<Feed>, n: nat)
    ensures var k := FeedsIn(enabled, t, fs, n);
      |EncodeLog(LogOf(enabled, t, fs[..k]))| <= n && LogOf(enabled, t, fs[..k]) <= LogOf(enabled, t, fs)
  {
    hide FeedEntries, EncodeLog;
    if |fs| == 0 {
      EncodeNothing(LogOf(enabled, t, fs));
      assert fs[..0] == fs;
    } else if |EncodeLog(LogOf(enabled, t, fs))| <= n {
      assert fs[..|fs|] == fs;
    } else {
      var front := fs[..|fs| - 1];
      InFullFits(enabled, t, front, n);
      assert front[..FeedsIn(enabled, t, front, n)] == fs[..FeedsIn(enabled, t, fs, n)];
    }
  }

  lemma FirstCovers(part: seq<Entry>, log: seq<Entry>)
    requires part <= log && |log| > 0
    ensures part == [] || |EncodeLog(part)| >= |EncodeEntry(log[0])|
  {
    hide EncodeLog, EncodeEntry;
    if part != [] { EncodeFirst(part); }
  }

  lemma NothingInFull(l: Life)
    requires var log := LogOfLife(l); |log| > 0 && log[0].Cmd? && |WrittenBy(l)| <= |Header(|log[0].argv|)| && |log[0].argv| > 0
    ensures Meant(Closed(FedInFull(l))) == []
  {
    var t, log := Tracker(-1, l.stamp), LogOfLife(l);
    var part := LogOf(l.enabled, t, FedInFull(l));
    EncodeIs(log[0].argv);
    BulksFirst(log[0].argv);
    hide LogOf, EncodeLog, FeedsIn, Meant, Closed, Header, Bulks, WrittenBy;
    InFullFits(l.enabled, t, l.fs, |WrittenBy(l)|);
    FirstCovers(part, log);
    NothingMeant(l.enabled, t, FedInFull(l));
  }

  /** As soon as more is written, the load fails. */
  lemma NextFails(cfg: Config, x: FileLog, l: Life)
    requires cfg.loadTruncated && Sound(cfg, x) && Feasible(cfg, x, l) && InNote(cfg, x)
    requires |LogOfLife(l)| > 0 && LogOfLife(l)[0].Cmd? && |WrittenBy(l)| > |Header(|LogOfLife(l)[0].argv|)|
    ensures !Right(cfg, x, l)
  {
    var log, w, q := LogOfLife(l), Kept(cfg, x.es, x.file), Piece(x);
    var argv := log[0].argv;
    InNoteIs(cfg, x);
    PieceLength(x);
    LogWritable(cfg, l.enabled, Tracker(-1, l.stamp), l.fs);
    FirstIsCmd(cfg, log);
    HeadNoteIs(cfg, q, |argv|);
    var e := HeadNote(q, |argv|);
    EncodeIs(argv);
    BulksStart(argv);
    var rest := WrittenBy(l)[|Header(|argv|)|..];
    hide *;
    EncodeFirst(log);
    WrittenIs(l);
    HeaderThenRest(EncodeLog(w), q, WrittenBy(l), Header(|argv|), Bulks(argv), EncodeLog(log[1..]));
    EncodeOneMore(w, e);
    OneMoreWritable(cfg, w, e);
    LogLoads(cfg, w + [e], rest, START);
    DollarFails(cfg, rest, EnterAll(cfg, START, w + [e]));
    NextFileIs(cfg, x, l);
    RightIs(cfg, x, l);
  }

  lemma BulksStart(argv: Argv)
    requires |argv| > 0
    ensures |Bulks(argv)| > 0 && Bulks(argv)[0] == DOLLAR
  {
    BulksFirst(argv);
  }

  lemma HeaderThenRest(a: Bytes, q: Bytes, p: Bytes, header: Bytes, bulks: Bytes, tail: Bytes)
    requires p <= header + bulks + tail && |p| > |header| && |bulks| > 0
    ensures a + q + p == a + (q + header) + p[|header|..] && |p[|header|..]| > 0 && p[|header|..][0] == bulks[0]
  {
    assert p[..|header|] == header && p == p[..|header|] + p[|header|..];
  }

  lemma DollarFails(cfg: Config, rest: Bytes, st: Loader)
    requires |rest| > 0 && rest[0] == DOLLAR
    ensures Load(cfg, rest, st).status.Failed?
  {
    hide Line, ReadArgs, Atoi;
    StopAtFormatError(cfg, rest, st);
  }

  lemma NextFileIs(cfg: Config, x: FileLog, l: Life)
    ensures NextFile(cfg, x, l).file == Left(cfg, x.file) + WrittenBy(l)
  {
  }

  /**
   One process on a file cut at any byte, which itself ends at any byte of what it writes: the next load runs what the last
   one ran and what was fed in full since, and nothing else, if and only if the process `Survives`.
   */
  lemma AppendAfterCut(cfg: Config, x: FileLog, l: Life)
    requires cfg.loadTruncated && Sound(cfg, x) && Feasible(cfg, x, l)
    ensures Right(cfg, x, l) <==> Survives(cfg, x, l)
    ensures Survives(cfg, x, l) ==> Sound(cfg, NextFile(cfg, x, l))
  {
    hide Sound, Feasible, InNote, Right, LogOfLife, WrittenBy, Header, Recovers, Kept, FedInFull, NextFile;
    if !InNote(cfg, x) {
      NextBetween(cfg, x, l);
    } else if |LogOfLife(l)| == 0 {
      NextWritesNothing(cfg, x, l);
    } else if LogOfLife(l)[0].Note? {
      NextAfterNote(cfg, x, l);
    } else if |WrittenBy(l)| <= |Header(|LogOfLife(l)[0].argv|)| {
      NextHeader(cfg, x, l);
    } else {
      NextFails(cfg, x, l);
    }
  }

  // ------------------------------------------------------------------ and one after the other

  function FileAfter(cfg: Config, ls: seq<Life>): FileLog {
    if |ls| == 0 then FileLog([], []) else NextFile(cfg, FileAfter(cfg, ls[..|ls| - 1]), ls[|ls| - 1])
  }

  /** Everything that was fed in full, by one process after the other, transactions that were not closed left out. */
  function AllFed(ls: seq<Life>): seq<(nat, Argv)> {
    if |ls| == 0 then [] else AllFed(ls[..|ls| - 1]) + Meant(Closed(FedInFull(ls[|ls| - 1])))
  }

  ghost predicate Finds(cfg: Config, ls: seq<Life>) {
    var r := Load(cfg, FileAfter(cfg, ls).file, START);
    !r.status.Failed? && r.effect.ran == AllFed(ls)
  }

  /** Every process finds, when it starts, everything fed in full before, and nothing else; and so would another. */
  ghost predicate NeverWrong(cfg: Config, ls: seq<Life>) { forall k | 0 <= k <= |ls| :: Finds(cfg, ls[..k]) }

  ghost predicate AllSurvive(cfg: Config, ls: seq<Life>) { forall k | 0 <= k < |ls| :: Survives(cfg, FileAfter(cfg, ls[..k]), ls[k]) }

  ghost predicate AllFeasible(cfg: Config, ls: seq<Life>) { forall k | 0 <= k < |ls| :: Feasible(cfg, FileAfter(cfg, ls[..k]), ls[k]) }

  lemma Prefixes(cfg: Config, ls: seq<Life>)
    requires |ls| > 0
    ensures var front, l := ls[..|ls| - 1], ls[|ls| - 1]; var x := FileAfter(cfg, front);
      && (NeverWrong(cfg, ls) <==> NeverWrong(cfg, front) && Finds(cfg, ls)) && (NeverWrong(cfg, front) ==> Finds(cfg, front))
      && (AllSurvive(cfg, ls) <==> AllSurvive(cfg, front) && Survives(cfg, x, l))
      && (AllFeasible(cfg, ls) <==> AllFeasible(cfg, front) && Feasible(cfg, x, l))
  {
    hide Finds, Survives, Feasible, FileAfter;
    var front := ls[..|ls| - 1];
    assert forall k | 0 <= k <= |front| :: front[..k] == ls[..k];
    assert ls[..|ls|] == ls && front[..|front|] == front;
  }

  lemma {:induction false} FilesAreSound(cfg: Config, ls: seq<Life>)
    requires cfg.loadTruncated && AllFeasible(cfg, ls) && AllSurvive(cfg, ls)
    ensures Sound(cfg, FileAfter(cfg, ls))
  {
    hide Feasible, Survives, NextFile, AllFeasible, AllSurvive, Sound;
    if |ls| == 0 {
      SoundAtFirst(cfg);
    } else {
      var front := ls[..|ls| - 1];
      Prefixes(cfg, ls);
      FilesAreSound(cfg, front);
      AppendAfterCut(cfg, FileAfter(cfg, front), ls[|ls| - 1]);
    }
  }

  lemma SoundAtFirst(cfg: Config)
    ensures Sound(cfg, FileLog([], []))
  {
  }

  /**
   A file over any number of processes, each of which ends at any byte of what it writes: every start finds everything fed
   in full before it, and nothing else, if and only if every process survives. That is, none writes a command behind a
   piece of an annotation, and none writes behind a transaction left open that makes a difference.
   */
  lemma {:induction false} LivesAreSafeIff(cfg: Config, ls: seq<Life>)
    requires cfg.loadTruncated && AllFeasible(cfg, ls)
    ensures NeverWrong(cfg, ls) <==> AllSurvive(cfg, ls)
  {
    hide Feasible, Survives, NextFile, AllFeasible, AllSurvive, NeverWrong, Sound, Right, Finds;
    if |ls| == 0 {
      RightAtFirst(cfg, ls);
    } else {
      var front, l := ls[..|ls| - 1], ls[|ls| - 1];
      Prefixes(cfg, ls);
      LivesAreSafeIff(cfg, front);
      if AllSurvive(cfg, front) {
        FilesAreSound(cfg, front);
        AppendAfterCut(cfg, FileAfter(cfg, front), l);
        FindsNext(cfg, ls);
      }
    }
  }

  lemma FindsNext(cfg: Config, ls: seq<Life>)
    requires |ls| > 0 && Finds(cfg, ls[..|ls| - 1])
    ensures Finds(cfg, ls) <==> Right(cfg, FileAfter(cfg, ls[..|ls| - 1]), ls[|ls| - 1])
  {
    hide NextFile, Load, FedInFull, Meant, Closed;
  }

  lemma RightAtFirst(cfg: Config, ls: seq<Life>)
    requires |ls| == 0
    ensures NeverWrong(cfg, ls) && AllSurvive(cfg, ls)
  {
    LoadNothing(cfg, START);
    assert ls[..0] == [];
  }
}
