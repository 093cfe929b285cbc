/**
 What the files of the rewrite protocol hold, in bytes: base files written by the rewriter and incr files written by
 the feeder are, for the loader, the snapshots and the command logs that the protocol keeps apart.
 */
module AofFiles {
  import opened AofLives
  import opened AofLog
  import opened AofRewrite
  import opened Options
  import P = AofProtocol

  /** A command in its database. */
  type DbCommand = (nat, Argv)

  function Blank(n: nat): seq<Db> { seq(n, _ => map[]) }

  function ApplyAt(d: Doubles, r: seq<Db>, c: DbCommand): seq<Db> {
    if c.0 < |r| then r[c.0 := Apply(d, r[c.0], c.1)] else r
  }

  /** All databases and the commands on them, as the protocol sees them. */
  function DataSem(d: Doubles, n: nat): P.Sem<seq<Db>, DbCommand> {
    P.Sem(Blank(n), (r: seq<Db>, c: DbCommand) => ApplyAt(d, r, c))
  }

  lemma {:induction false} ReplayIsFold(d: Doubles, n: nat, ran: seq<DbCommand>)
    ensures P.Fold(DataSem(d, n), Blank(n), ran) == Replay(d, n, ran)
  {
    hide Apply;
    if |ran| > 0 { ReplayIsFold(d, n, ran[..|ran| - 1]); }
  }

  // ------------------------------------------------------------------ loading several files

  /** What running a loaded file does to the databases. */
  function After(d: Doubles, n: nat, r: seq<Db>, o: Outcome): seq<Db> { P.Fold(DataSem(d, n), r, o.effect.ran) }

  /** One file of a restart: only the last one may end in the middle of a command. */
  function LoadOne(cfg: Config, d: Doubles, r: seq<Db>, file: Bytes, last: bool): Option<seq<Db>> {
    var o := Load(cfg, file, START);
    if o.status.Ok? || (o.status.Truncated? && last) then Some(After(d, cfg.dbnum, r, o)) else None
  }

  /** The databases after the first `k` of the live files; none if the server gives up. */
  function LoadFirst(cfg: Config, d: Doubles, files: seq<Bytes>, k: nat): Option<seq<Db>>
    requires k <= |files|
  {
    if k == 0 then Some(Blank(cfg.dbnum))
    else
      match LoadFirst(cfg, d, files, k - 1)
      case None => None
      case Some(r) => LoadOne(cfg, d, r, files[k - 1], k == |files|)
  }

  /** The bytes of the live files. */
  datatype Image = Image(base: Option<Bytes>, incrs: seq<Bytes>)

  function Files(img: Image): seq<Bytes> { (if img.base.Some? then [img.base.value] else []) + img.incrs }

  function LoadImage(cfg: Config, d: Doubles, img: Image): Option<seq<Db>> {
    LoadFirst(cfg, d, Files(img), |Files(img)|)
  }

  lemma {:induction false} GaveUp(cfg: Config, d: Doubles, files: seq<Bytes>, k: nat)
    requires k <= |files| && LoadFirst(cfg, d, files, k).None?
    ensures LoadFirst(cfg, d, files, |files|).None?
    decreases |files| - k
  {
    hide LoadOne;
    if k < |files| { GaveUp(cfg, d, files, k + 1); }
  }

  /** `loadAppendOnlyFiles` on the bytes of the files: the base if there is one, then the incr files in order. */
  method LoadAppendOnlyFiles(cfg: Config, d: Doubles, img: Image) returns (r: Option<seq<Db>>)
    ensures r == LoadImage(cfg, d, img)
  {
    hide LoadOne, Blank;
    ghost var files := Files(img);
    var total := (if img.base.Some? then 1 else 0) + |img.incrs|;
    var num := 0;
    var data := Blank(cfg.dbnum);
    if img.base.Some? {
      num := num + 1;
      var one := LoadOne(cfg, d, data, img.base.value, num == total);
      assert LoadFirst(cfg, d, files, 0) == Some(data);
      if one.None? {
        GaveUp(cfg, d, files, 1);
        return None;
      }
      data := one.value;
    }
    ghost var first := num;
    for i := 0 to |img.incrs|
      invariant num == first + i && LoadFirst(cfg, d, files, num) == Some(data)
    {
      num := num + 1;
      var one := LoadOne(cfg, d, data, img.incrs[i], num == total);
      if one.None? {
        GaveUp(cfg, d, files, num);
        return None;
      }
      data := one.value;
    }
    r := Some(data);
  }

  // ------------------------------------------------------------------ the protocol's disk in bytes

  /** An incr file is the beginning of a log, and the commands of it that are run are those the protocol has there. */
  ghost predicate Holds(cfg: Config, es: seq<Entry>, file: Bytes, cs: seq<DbCommand>) {
    AllWritable(cfg, es) && file <= EncodeLog(es) && StandAt(cfg, es, file).effect.ran == cs
  }

  /** It ends inside a command, or inside a transaction. */
  ghost predicate Torn(cfg: Config, es: seq<Entry>, file: Bytes)
    requires file <= EncodeLog(es)
  {
    !EndsCleanly(es, file) || StandAt(cfg, es, file).multi
  }

  lemma HeldLogLoads(cfg: Config, es: seq<Entry>, file: Bytes, cs: seq<DbCommand>)
    requires Holds(cfg, es, file, cs)
    ensures var o := Load(cfg, file, START);
      && o.effect.ran == cs && (o.status.Ok? <==> !Torn(cfg, es, file))
      && (o.status.Truncated? <==> Torn(cfg, es, file) && cfg.loadTruncated)
  {
    hide Load, EncodeLog, AllWritable, StandAt, EndsCleanly;
    CutStatus(cfg, es, file);
  }

  ghost predicate HoldsBase(cfg: Config, d: Doubles, file: Bytes, dbs: seq<Db>) {
    Load(cfg, file, START).status.Ok? && Replay(d, cfg.dbnum, Load(cfg, file, START).effect.ran) == dbs
  }

  /** The live files of manifest `m` are on the disk, and `img` is what they are in bytes. */
  ghost predicate Held(cfg: Config, d: Doubles, disk: P.Disk<seq<Db>, DbCommand>, m: P.Manifest, img: Image, logs: seq<seq<Entry>>) {
    && P.Present(disk, m) && |img.incrs| == |m.incrs| == |logs|
    && img.base.Some? == m.base.Some? && (m.base.Some? ==> HoldsBase(cfg, d, img.base.value, disk.bases[m.base.value]))
    && forall i | 0 <= i < |logs| :: Holds(cfg, logs[i], img.incrs[i], disk.incrs[m.incrs[i]])
  }

  /** A torn file is the last one, and the server is to load cut logs. */
  ghost predicate Loadable(cfg: Config, img: Image, logs: seq<seq<Entry>>)
    requires |img.incrs| == |logs| && forall i | 0 <= i < |logs| :: img.incrs[i] <= EncodeLog(logs[i])
  {
    forall i | 0 <= i < |logs| && Torn(cfg, logs[i], img.incrs[i]) :: i == |logs| - 1 && cfg.loadTruncated
  }

  /** The base in bytes loads to the base of the protocol. */
  lemma BaseHeld(cfg: Config, d: Doubles, disk: P.Disk<seq<Db>, DbCommand>, m: P.Manifest, img: Image, logs: seq<seq<Entry>>)
    requires Held(cfg, d, disk, m, img, logs)
    ensures var k := if img.base.Some? then 1 else 0;
      LoadFirst(cfg, d, Files(img), k) == Some(P.Start0(DataSem(d, cfg.dbnum), disk, m))
  {
    hide Load, Replay, Holds, P.Fold;
    if img.base.Some? {
      ReplayIsFold(d, cfg.dbnum, Load(cfg, img.base.value, START).effect.ran);
      assert LoadFirst(cfg, d, Files(img), 0) == Some(Blank(cfg.dbnum));
    }
  }

  lemma {:induction false} IncrsHeld(cfg: Config, d: Doubles, disk: P.Disk<seq<Db>, DbCommand>, m: P.Manifest, img: Image,
                                     logs: seq<seq<Entry>>, k: nat)
    requires Held(cfg, d, disk, m, img, logs) && k <= |m.incrs|
    requires forall i | 0 <= i < k && Torn(cfg, logs[i], img.incrs[i]) :: i == |logs| - 1 && cfg.loadTruncated
    ensures var sem := DataSem(d, cfg.dbnum); var b := if img.base.Some? then 1 else 0;
      LoadFirst(cfg, d, Files(img), b + k) == Some(P.LoadIncrs(sem, P.Start0(sem, disk, m), disk.incrs, m.incrs[..k]))
  {
    hide Load, HoldsBase, Torn, EncodeLog, AllWritable, StandAt, P.Fold, DataSem;
    var b := if img.base.Some? then 1 else 0;
    if k == 0 {
      BaseHeld(cfg, d, disk, m, img, logs);
    } else {
      IncrsHeld(cfg, d, disk, m, img, logs, k - 1);
      HeldLogLoads(cfg, logs[k - 1], img.incrs[k - 1], disk.incrs[m.incrs[k - 1]]);
      assert Files(img)[b + k - 1] == img.incrs[k - 1];
      assert m.incrs[..k][..k - 1] == m.incrs[..k - 1];
    }
  }

  /** The server gives up at a torn file that it may not cut. */
  lemma TornStopsLoad(cfg: Config, d: Doubles, disk: P.Disk<seq<Db>, DbCommand>, m: P.Manifest, img: Image, logs: seq<seq<Entry>>, i: nat)
    requires Held(cfg, d, disk, m, img, logs) && i < |logs| && Torn(cfg, logs[i], img.incrs[i])
    requires i != |logs| - 1 || !cfg.loadTruncated
    ensures LoadImage(cfg, d, img).None?
  {
    hide Load, HoldsBase, Torn, EncodeLog, AllWritable, StandAt, After;
    var k := (if img.base.Some? then 1 else 0) + i;
    HeldLogLoads(cfg, logs[i], img.incrs[i], disk.incrs[m.incrs[i]]);
    assert Files(img)[k] == img.incrs[i];
    assert LoadFirst(cfg, d, Files(img), k + 1).None?;
    GaveUp(cfg, d, Files(img), k + 1);
  }

  /**
   Whatever its manifest lists: the bytes of the files load, one after the other, if and only if no file but the last
   ends inside a command or a transaction, and then to what the disk of the protocol loads to.
   */
  lemma DiskHoldsBytes(cfg: Config, d: Doubles, disk: P.Disk<seq<Db>, DbCommand>, m: P.Manifest, img: Image, logs: seq<seq<Entry>>)
    requires Held(cfg, d, disk, m, img, logs)
    ensures LoadImage(cfg, d, img).Some? <==> Loadable(cfg, img, logs)
    ensures Loadable(cfg, img, logs) ==> LoadImage(cfg, d, img) == P.LoadUnder(DataSem(d, cfg.dbnum), disk, m)
  {
    hide LoadFirst, P.LoadIncrs, HoldsBase, DataSem, Torn, EncodeLog, AllWritable, StandAt;
    if Loadable(cfg, img, logs) {
      IncrsHeld(cfg, d, disk, m, img, logs, |m.incrs|);
      assert m.incrs[..|m.incrs|] == m.incrs;
    } else {
      var i :| 0 <= i < |logs| && Torn(cfg, logs[i], img.incrs[i]) && (i != |logs| - 1 || !cfg.loadTruncated);
      TornStopsLoad(cfg, d, disk, m, img, logs, i);
    }
  }

  /** The live files are there, the base is what the protocol has, and every incr file is the beginning of some log. */
  ghost predicate Begun(cfg: Config, d: Doubles, disk: P.Disk<seq<Db>, DbCommand>, m: P.Manifest, img: Image, logs: seq<seq<Entry>>) {
    && P.Present(disk, m) && |img.incrs| == |m.incrs| == |logs|
    && img.base.Some? == m.base.Some? && (m.base.Some? ==> HoldsBase(cfg, d, img.base.value, disk.bases[m.base.value]))
    && forall i | 0 <= i < |logs| :: AllWritable(cfg, logs[i]) && img.incrs[i] <= EncodeLog(logs[i])
  }

  /** The disk with the commands that the first `k` files really hold. */
  function AsRead(cfg: Config, disk: P.Disk<seq<Db>, DbCommand>, m: P.Manifest, img: Image, logs: seq<seq<Entry>>, k: nat)
    : P.Disk<seq<Db>, DbCommand>
    requires k <= |m.incrs| == |img.incrs| == |logs|
  {
    if k == 0 then disk
    else Replaced(AsRead(cfg, disk, m, img, logs, k - 1), m.incrs[k - 1], StandAt(cfg, logs[k - 1], img.incrs[k - 1]).effect.ran)
  }

  lemma {:induction false} AsReadIs(cfg: Config, disk: P.Disk<seq<Db>, DbCommand>, m: P.Manifest, img: Image, logs: seq<seq<Entry>>, k: nat)
    requires k <= |m.incrs| == |img.incrs| == |logs| && P.Rising(m.incrs) && P.Present(disk, m)
    ensures var r := AsRead(cfg, disk, m, img, logs, k);
      && r.bases == disk.bases && P.Present(r, m)
      && forall i | 0 <= i < k :: r.incrs[m.incrs[i]] == StandAt(cfg, logs[i], img.incrs[i]).effect.ran
  {
    hide StandAt;
    if k > 0 { AsReadIs(cfg, disk, m, img, logs, k - 1); }
  }

  lemma AsReadHeld(cfg: Config, d: Doubles, disk: P.Disk<seq<Db>, DbCommand>, m: P.Manifest, img: Image, logs: seq<seq<Entry>>)
    requires Begun(cfg, d, disk, m, img, logs) && P.Rising(m.incrs)
    ensures Held(cfg, d, AsRead(cfg, disk, m, img, logs, |logs|), m, img, logs)
  {
    hide StandAt, HoldsBase, EncodeLog, AllWritable;
    AsReadIs(cfg, disk, m, img, logs, |logs|);
  }

  /**
   Crash safety in bytes. After any run of the protocol, and whatever logs its files are the beginnings of, the bytes of the
   live files load if and only if no file but the last is torn, and then to the state that the commands in them give. If
   they are the commands that the protocol has there, that is exactly the state after all commands flushed so far.
   */
  lemma BytesAreSafe(cfg: Config, d: Doubles, data: seq<Db>, es: seq<P.Event<seq<Db>, DbCommand>>, s: P.State<seq<Db>, DbCommand>,
                     img: Image, logs: seq<seq<Entry>>)
    requires var sem := DataSem(d, cfg.dbnum); P.AllowedRun(sem, P.Fresh(sem, data), es) && s == P.Run(sem, P.Fresh(sem, data), es)
    requires Begun(cfg, d, s.disk, s.disk.manifest, img, logs)
    ensures LoadImage(cfg, d, img).Some? <==> Loadable(cfg, img, logs)
    ensures var sem, m := DataSem(d, cfg.dbnum), s.disk.manifest;
      Loadable(cfg, img, logs) ==> LoadImage(cfg, d, img) == P.LoadUnder(sem, AsRead(cfg, s.disk, m, img, logs, |logs|), m)
    ensures Loadable(cfg, img, logs) && Held(cfg, d, s.disk, s.disk.manifest, img, logs) ==> LoadImage(cfg, d, img) == Some(s.flushed)
  {
    var sem, m := DataSem(d, cfg.dbnum), s.disk.manifest;
    P.CrashSafe(sem, data, es);
    RisingOnDisk(sem, s);
    hide P.AllowedRun, P.Fresh, P.Run, P.Inv, LoadImage, DataSem, P.LoadUnder, Loadable, HoldsBase, EncodeLog, AllWritable, StandAt;
    AsReadHeld(cfg, d, s.disk, m, img, logs);
    DiskHoldsBytes(cfg, d, AsRead(cfg, s.disk, m, img, logs, |logs|), m, img, logs);
    if Held(cfg, d, s.disk, m, img, logs) { DiskHoldsBytes(cfg, d, s.disk, m, img, logs); }
  }

  lemma RisingOnDisk(sem: P.Sem<seq<Db>, DbCommand>, s: P.State<seq<Db>, DbCommand>)
    requires P.Inv(sem, s)
    ensures P.Rising(s.disk.manifest.incrs)
  {
    hide P.Load, P.Fold;
  }

  /** The disk with other commands in one incr file. */
  function Replaced(disk: P.Disk<seq<Db>, DbCommand>, x: nat, cs: seq<DbCommand>): P.Disk<seq<Db>, DbCommand> {
    disk.(incrs := disk.incrs[x := cs])
  }

  // ------------------------------------------------------------------ writing

  lemma {:induction false} MeantGrows(fs: seq<Feed>, k: nat)
    requires k <= |fs|
    ensures Meant(fs[..k]) <= Meant(fs)
  {
    hide MeantBy;
    if k == |fs| {
      assert fs[..k] == fs;
    } else {
      MeantGrows(fs[..|fs| - 1], k);
      assert fs[..|fs| - 1][..k] == fs[..k];
    }
  }

  /** A file written to: all that was fed is there, or a beginning of it. */
  predicate Extends(enabled: bool, es: seq<Entry>, t: Tracker, fs: seq<Feed>, p: Bytes) {
    |EncodeLog(es)| <= |p| && p <= EncodeLog(Fed(enabled, es, t, fs))
  }

  /** What a write that stopped somewhere has flushed, in commands. */
  function Flushed(enabled: bool, es: seq<Entry>, t: Tracker, fs: seq<Feed>, p: Bytes): seq<DbCommand>
    requires Extends(enabled, es, t, fs, p)
  {
    Meant(Closed(InFull(enabled, es, t, fs, p)))
  }

  lemma FlushedIsFront(enabled: bool, es: seq<Entry>, t: Tracker, fs: seq<Feed>, p: Bytes)
    requires Extends(enabled, es, t, fs, p)
    ensures Flushed(enabled, es, t, fs, p) <= Meant(fs)
  {
    hide Meant, FeedsIn, EncodeLog, Fed;
    var front := Closed(InFull(enabled, es, t, fs, p));
    assert front == fs[..|front|];
    MeantGrows(fs, |front|);
  }

  /** What a written file holds. */
  lemma WriteHolds(cfg: Config, enabled: bool, es: seq<Entry>, t: Tracker, fs: seq<Feed>, p: Bytes)
    requires Ready(cfg, es, t) && AllFeedable(cfg, fs) && Extends(enabled, es, t, fs, p)
    ensures Holds(cfg, Fed(enabled, es, t, fs), p, RanBehind(cfg, es, InFull(enabled, es, t, fs, p)))
  {
    hide Ready, AllFeedable, AllWritable, EncodeLog, Fed, RanBehind, InFull, StandAt;
    FedWritable(cfg, enabled, es, t, fs);
    TornIs(cfg, enabled, es, t, fs, p);
  }

  lemma WholeHolds(cfg: Config, es: seq<Entry>, cs: seq<DbCommand>)
    requires Holds(cfg, es, EncodeLog(es), cs)
    ensures EnterAll(cfg, START, es).effect.ran == cs
  {
    hide EncodeLog, EnterAll, Whole, AllWritable;
    WholeAll(es);
    assert es[..|es|] == es;
  }

  lemma ReplacedHeld(cfg: Config, d: Doubles, disk: P.Disk<seq<Db>, DbCommand>, m: P.Manifest, img: Image, logs: seq<seq<Entry>>,
                     i: nat, es: seq<Entry>, p: Bytes, cs: seq<DbCommand>)
    requires Held(cfg, d, disk, m, img, logs) && i < |m.incrs| && P.Rising(m.incrs)
    ensures Held(cfg, d, Replaced(disk, m.incrs[i], cs), m, img.(incrs := img.incrs[i := p]), logs[i := es]) <==> Holds(cfg, es, p, cs)
  {
    hide Holds, HoldsBase;
    var disk', img', logs' := Replaced(disk, m.incrs[i], cs), img.(incrs := img.incrs[i := p]), logs[i := es];
    forall j | 0 <= j < |m.incrs| && j != i ensures disk'.incrs[m.incrs[j]] == disk.incrs[m.incrs[j]] { }
    forall j | 0 <= j < |logs'| && j != i ensures Holds(cfg, logs'[j], img'.incrs[j], disk'.incrs[m.incrs[j]]) { }
    assert logs'[i] == es && img'.incrs[i] == p && disk'.incrs[m.incrs[i]] == cs;
  }

  /**
   A write and the protocol's disk: a file of whole entries, extended by any beginning of the bytes of the buffered feeds,
   is the file of the protocol extended by the commands that this beginning holds in full, if and only if no transaction
   is open in the file or the one that is makes no difference.
   */
  lemma WriteKeepsHeld(cfg: Config, d: Doubles, s: P.State<seq<Db>, DbCommand>, m: P.Manifest, img: Image, logs: seq<seq<Entry>>,
                       i: nat, enabled: bool, t: Tracker, fs: seq<Feed>, p: Bytes)
    requires Held(cfg, d, s.disk, m, img, logs) && i < |m.incrs| && P.Rising(m.incrs) && s.fd == P.ToIncr(m.incrs[i])
    requires img.incrs[i] == EncodeLog(logs[i]) && Ready(cfg, logs[i], t)
    requires AllFeedable(cfg, fs) && Meant(fs) == s.buf && Extends(enabled, logs[i], t, fs, p)
    ensures var cs := Flushed(enabled, logs[i], t, fs, p);
      && cs <= s.buf
      && (Held(cfg, d, P.WriteOut(DataSem(d, cfg.dbnum), s, |cs|).disk, m, img.(incrs := img.incrs[i := p]),
               logs[i := Fed(enabled, logs[i], t, fs)])
          <==> Recovers(cfg, logs[i], InFull(enabled, logs[i], t, fs, p)))
  {
    var cs, x := Flushed(enabled, logs[i], t, fs, p), m.incrs[i];
    hide HoldsBase, DataSem, EncodeLog, AllWritable, StandAt, Ready, AllFeedable, Meant, Closed, InFull, Fed, EnterAll, RanBehind, Recovers, P.Fold;
    FlushedIsFront(enabled, logs[i], t, fs, p);
    WholeHolds(cfg, logs[i], s.disk.incrs[x]);
    WriteHolds(cfg, enabled, logs[i], t, fs, p);
    RecoversIff(cfg, logs[i], InFull(enabled, logs[i], t, fs, p));
    assert s.buf[..|cs|] == cs;
    assert P.WriteOut(DataSem(d, cfg.dbnum), s, |cs|).disk == Replaced(s.disk, x, s.disk.incrs[x] + cs);
    ReplacedHeld(cfg, d, s.disk, m, img, logs, i, Fed(enabled, logs[i], t, fs), p, s.disk.incrs[x] + cs);
  }

  /** No file of the image is torn, one aside. */
  ghost predicate OthersWhole(cfg: Config, img: Image, logs: seq<seq<Entry>>, i: nat)
    requires |img.incrs| == |logs| && forall j | 0 <= j < |logs| :: img.incrs[j] <= EncodeLog(logs[j])
  {
    forall j | 0 <= j < |logs| && j != i :: !Torn(cfg, logs[j], img.incrs[j])
  }

  /** The image a crash leaves in the middle of a write. */
  function Cut(img: Image, i: nat, p: Bytes): Image
    requires i < |img.incrs|
  {
    img.(incrs := img.incrs[i := p])
  }

  /**
   A crash in the middle of a write, at any byte, after any run of the protocol with the log on. If what is written ends
   inside a command or a transaction, the server starts again if and only if it may load cut logs and the file is the
   last one of the manifest on disk; otherwise it starts again. It then has what the files hold; and if no transaction
   was open in the file, or the one that was makes no difference, that is the state after all commands flushed before and
   those that the write holds in full.
   */
  lemma TornWrite(cfg: Config, d: Doubles, data: seq<Db>, es: seq<P.Event<seq<Db>, DbCommand>>, img: Image, logs: seq<seq<Entry>>,
                  s: P.State<seq<Db>, DbCommand>, i: nat, enabled: bool, t: Tracker, fs: seq<Feed>, p: Bytes)
    requires var sem := DataSem(d, cfg.dbnum); P.AllowedRun(sem, P.Fresh(sem, data), es) && s == P.Run(sem, P.Fresh(sem, data), es)
    requires s.pc.Idle? && !s.waiting && i == P.WrittenIndex(s)
    requires Held(cfg, d, s.disk, s.disk.manifest, img, logs) && OthersWhole(cfg, img, logs, i)
    requires i < |logs| ==> img.incrs[i] == EncodeLog(logs[i]) && Ready(cfg, logs[i], t) && Extends(enabled, logs[i], t, fs, p)
    requires AllFeedable(cfg, fs) && Meant(fs) == s.buf
    ensures i < |logs| && p <= EncodeLog(Fed(enabled, logs[i], t, fs))
    ensures var sem, m := DataSem(d, cfg.dbnum), s.disk.manifest; var whole := InFull(enabled, logs[i], t, fs, p);
      var torn := Torn(cfg, Fed(enabled, logs[i], t, fs), p); var r := LoadImage(cfg, d, Cut(img, i, p));
      && (r.Some? <==> torn ==> cfg.loadTruncated && P.WritesLast(s))
      && (r.Some? ==> r == P.LoadUnder(sem, Replaced(s.disk, m.incrs[i], RanBehind(cfg, logs[i], whole)), m))
      && (r.Some? && Recovers(cfg, logs[i], whole) ==> r == Some(P.Fold(sem, s.flushed, Flushed(enabled, logs[i], t, fs, p))))
  {
    var sem, m := DataSem(d, cfg.dbnum), s.disk.manifest;
    P.CrashSafe(sem, data, es);
    P.WritesLastIff(sem, s);
    hide *;
    ImageIs(cfg, d, s.disk, m, img, logs);
    ExtendsIs(enabled, logs[i], t, fs, p);
    CutLoads(cfg, d, s.disk, m, img, logs, i, enabled, t, fs, p);
    if Recovers(cfg, logs[i], InFull(enabled, logs[i], t, fs, p)) { RecoveredLoads(cfg, d, s, m, img, logs, i, enabled, t, fs, p); }
  }

  /** What a start reads when one file is cut: whether it loads, and from which disk. */
  lemma CutLoads(cfg: Config, d: Doubles, disk: P.Disk<seq<Db>, DbCommand>, m: P.Manifest, img: Image, logs: seq<seq<Entry>>,
                 i: nat, enabled: bool, t: Tracker, fs: seq<Feed>, p: Bytes)
    requires Held(cfg, d, disk, m, img, logs) && i < |m.incrs| == |logs| == |img.incrs| && P.Rising(m.incrs) && OthersWhole(cfg, img, logs, i)
    requires Ready(cfg, logs[i], t) && AllFeedable(cfg, fs) && Extends(enabled, logs[i], t, fs, p)
    ensures var disk' := Replaced(disk, m.incrs[i], RanBehind(cfg, logs[i], InFull(enabled, logs[i], t, fs, p)));
      var r := LoadImage(cfg, d, Cut(img, i, p));
      && (r.Some? <==> Torn(cfg, Fed(enabled, logs[i], t, fs), p) ==> cfg.loadTruncated && i == |logs| - 1)
      && (r.Some? ==> r == P.LoadUnder(DataSem(d, cfg.dbnum), disk', m))
  {
    hide *;
    ImageIs(cfg, d, disk, m, img, logs);
    ExtendsIs(enabled, logs[i], t, fs, p);
    var es, cs := Fed(enabled, logs[i], t, fs), RanBehind(cfg, logs[i], InFull(enabled, logs[i], t, fs, p));
    WriteHolds(cfg, enabled, logs[i], t, fs, p);
    ReplacedHeld(cfg, d, disk, m, img, logs, i, es, p, cs);
    CutIs(img, i, p);
    DiskHoldsBytes(cfg, d, Replaced(disk, m.incrs[i], cs), m, Cut(img, i, p), logs[i := es]);
    OnlyOneTorn(cfg, img, logs, i, logs[i := es], p);
  }

  lemma ImageIs(cfg: Config, d: Doubles, disk: P.Disk<seq<Db>, DbCommand>, m: P.Manifest, img: Image, logs: seq<seq<Entry>>)
    requires Held(cfg, d, disk, m, img, logs)
    ensures |img.incrs| == |m.incrs| == |logs| && forall j | 0 <= j < |logs| :: img.incrs[j] <= EncodeLog(logs[j])
  {
    hide EncodeLog, AllWritable, StandAt, HoldsBase;
    forall j | 0 <= j < |logs| ensures img.incrs[j] <= EncodeLog(logs[j]) { assert Holds(cfg, logs[j], img.incrs[j], disk.incrs[m.incrs[j]]); }
  }

  lemma ExtendsIs(enabled: bool, es: seq<Entry>, t: Tracker, fs: seq<Feed>, p: Bytes)
    requires Extends(enabled, es, t, fs, p)
    ensures |EncodeLog(es)| <= |p| && p <= EncodeLog(Fed(enabled, es, t, fs))
  {
  }

  lemma CutIs(img: Image, i: nat, p: Bytes)
    requires i < |img.incrs|
    ensures Cut(img, i, p) == img.(incrs := img.incrs[i := p])
  {
  }

  /** What is recovered is what the protocol has flushed. */
  lemma RecoveredLoads(cfg: Config, d: Doubles, s: P.State<seq<Db>, DbCommand>, m: P.Manifest, img: Image, logs: seq<seq<Entry>>,
                       i: nat, enabled: bool, t: Tracker, fs: seq<Feed>, p: Bytes)
    requires P.Inv(DataSem(d, cfg.dbnum), s) && s.pc.Idle? && !s.waiting && m == s.disk.manifest
    requires Held(cfg, d, s.disk, m, img, logs) && i < |m.incrs| && s.fd == P.ToIncr(m.incrs[i]) && img.incrs[i] == EncodeLog(logs[i])
    requires Extends(enabled, logs[i], t, fs, p) && |EncodeLog(logs[i])| <= |p|
    requires Meant(fs) == s.buf && Recovers(cfg, logs[i], InFull(enabled, logs[i], t, fs, p))
    ensures var sem, whole := DataSem(d, cfg.dbnum), InFull(enabled, logs[i], t, fs, p);
      P.LoadUnder(sem, Replaced(s.disk, m.incrs[i], RanBehind(cfg, logs[i], whole)), m)
        == Some(P.Fold(sem, s.flushed, Flushed(enabled, logs[i], t, fs, p)))
  {
    var sem, cs, x := DataSem(d, cfg.dbnum), Flushed(enabled, logs[i], t, fs, p), m.incrs[i];
    hide *;
    FlushedIsFront(enabled, logs[i], t, fs, p);
    FileIsThere(cfg, d, s.disk, m, img, logs, i);
    WholeHolds(cfg, logs[i], s.disk.incrs[x]);
    RanIsFlushed(cfg, enabled, logs[i], t, fs, p);
    assert s.buf[..|cs|] == cs;
    WrittenIsReplaced(sem, s, x, |cs|);
    WrittenLoads(sem, s, |cs|);
  }

  lemma FileIsThere(cfg: Config, d: Doubles, disk: P.Disk<seq<Db>, DbCommand>, m: P.Manifest, img: Image, logs: seq<seq<Entry>>, i: nat)
    requires Held(cfg, d, disk, m, img, logs) && i < |m.incrs|
    ensures |img.incrs| == |m.incrs| == |logs| && m.incrs[i] in disk.incrs && Holds(cfg, logs[i], img.incrs[i], disk.incrs[m.incrs[i]])
  {
    hide Holds, HoldsBase;
  }

  lemma RanIsFlushed(cfg: Config, enabled: bool, es: seq<Entry>, t: Tracker, fs: seq<Feed>, p: Bytes)
    requires Extends(enabled, es, t, fs, p) && |EncodeLog(es)| <= |p| && Recovers(cfg, es, InFull(enabled, es, t, fs, p))
    ensures RanBehind(cfg, es, InFull(enabled, es, t, fs, p)) == EnterAll(cfg, START, es).effect.ran + Flushed(enabled, es, t, fs, p)
  {
    hide EnterAll, RanBehind, Recovers, Meant, Closed, InFull, EncodeLog, Fed;
    RecoversIff(cfg, es, InFull(enabled, es, t, fs, p));
  }

  lemma WrittenIsReplaced(sem: P.Sem<seq<Db>, DbCommand>, s: P.State<seq<Db>, DbCommand>, x: nat, n: nat)
    requires s.fd == P.ToIncr(x) && x in s.disk.incrs && n <= |s.buf|
    ensures P.WriteOut(sem, s, n).disk == Replaced(s.disk, x, s.disk.incrs[x] + s.buf[..n])
  {
    hide P.Fold;
  }

  lemma WrittenLoads(sem: P.Sem<seq<Db>, DbCommand>, s: P.State<seq<Db>, DbCommand>, n: nat)
    requires P.Inv(sem, s) && s.pc.Idle? && n <= |s.buf| && !s.waiting
    ensures var s' := P.WriteOut(sem, s, n);
      s'.disk.manifest == s.disk.manifest && P.LoadUnder(sem, s'.disk, s.disk.manifest) == Some(P.Fold(sem, s.flushed, s.buf[..n]))
  {
    hide P.LoadUnder, P.Fold;
    P.KeepWrite(sem, s, n);
  }

  lemma OnlyOneTorn(cfg: Config, img: Image, logs: seq<seq<Entry>>, i: nat, logs': seq<seq<Entry>>, p: Bytes)
    requires |img.incrs| == |logs| && (forall j | 0 <= j < |logs| :: img.incrs[j] <= EncodeLog(logs[j])) && OthersWhole(cfg, img, logs, i)
    requires i < |logs| && |logs'| == |logs| && p <= EncodeLog(logs'[i]) && forall j | 0 <= j < |logs| && j != i :: logs'[j] == logs[j]
    ensures forall j | 0 <= j < |logs'| :: Cut(img, i, p).incrs[j] <= EncodeLog(logs'[j])
    ensures Loadable(cfg, Cut(img, i, p), logs') <==> (Torn(cfg, logs'[i], p) ==> i == |logs| - 1 && cfg.loadTruncated)
  {
    hide Torn, EncodeLog;
    var img' := Cut(img, i, p);
    forall j | 0 <= j < |logs'| ensures img'.incrs[j] <= EncodeLog(logs'[j]) { if j == i { } else { assert img'.incrs[j] == img.incrs[j]; } }
    forall j | 0 <= j < |logs'| && j != i ensures !Torn(cfg, logs'[j], img'.incrs[j]) { assert !Torn(cfg, logs[j], img.incrs[j]); }
  }

  // ------------------------------------------------------------------ a run that ends so

  lemma EmptyHolds(cfg: Config)
    ensures Holds(cfg, [], [], []) && EncodeLog([]) == [] && !Torn(cfg, [], [])
  {
    hide Load;
    var none: seq<Entry> := [];
    assert none[..0] == none;
  }

  lemma EmptyBase(cfg: Config, d: Doubles)
    ensures HoldsBase(cfg, d, [], Blank(cfg.dbnum))
  {
    hide Apply;
    LoadNothing(cfg, START);
  }

  /**
   The sync fails when a new incr file is published, a command is fed, and the process ends in the middle of writing it:
   the server does not start again, whatever its settings.
   */
  lemma TornNotLast(cfg: Config, d: Doubles, data: seq<Db>, f: Feed, p: Bytes)
    requires Feedable(cfg, f) && f.Feed? && !IsMulti(f.argv) && !IsExec(f.argv)
    requires p <= EncodeLog(LogOf(false, Tracker(-1, 0), [f])) && Torn(cfg, LogOf(false, Tracker(-1, 0), [f]), p)
    ensures var sem := DataSem(d, cfg.dbnum); var es := P.ToExtraIncr((f.db, f.argv)); var s := P.Run(sem, P.Fresh(sem, data), es);
      && P.AllowedRun(sem, P.Fresh(sem, data), es) && s.disk.manifest.incrs == [1, 2] && s.fd == P.ToIncr(1)
      && LoadImage(cfg, d, Image(Some([]), [p, []])) == None
  {
    hide P.AllowedRun, P.Fresh, P.Run, LoadImage, Torn, Feedable, EncodeLog, LogOf, Holds, HoldsBase, Ready, Meant, P.ToExtraIncr;
    var sem, c := DataSem(d, cfg.dbnum), (f.db, f.argv);
    var es: seq<P.Event<seq<Db>, DbCommand>> := P.ToExtraIncr(c);
    P.ExtraIncrReached(sem, data, c);
    var s := P.Run(sem, P.Fresh(sem, data), es);
    var img, none: seq<Entry>, t := Image(Some([]), [[], []]), [], Tracker(-1, 0);
    var logs := [none, none];
    EmptyHolds(cfg);
    EmptyBase(cfg, d);
    NothingWritable(cfg);
    NewIsReady(cfg, none, 0);
    OneFeed(f);
    assert Fed(false, none, t, [f]) == LogOf(false, t, [f]);
    TornWrite(cfg, d, data, es, img, logs, s, 0, false, t, [f], p);
    assert img.incrs[0 := p] == [p, []];
  }

  lemma NothingWritable(cfg: Config)
    ensures AllWritable(cfg, [])
  {
  }

  lemma OneFeed(f: Feed)
    requires f.Feed? && !IsMulti(f.argv) && !IsExec(f.argv)
    ensures Meant([f]) == [(f.db, f.argv)]
  {
    assert [f][..0] == [];
  }

  // ------------------------------------------------------------------ the next life

  /**
   What the loader cuts off a torn file leaves a whole one with the same commands, to which the next process appends. A
   transaction is open in it if one was open at a cut inside a command; a cut between two commands of a transaction goes
   back to before its MULTI.
   */
  lemma CutBackHolds(cfg: Config, es: seq<Entry>, file: Bytes, cs: seq<DbCommand>, stamp: nat)
    requires Holds(cfg, es, file, cs) && Torn(cfg, es, file) && cfg.loadTruncated
    ensures var kept := Kept(cfg, es, file); var st, w := EnterAll(cfg, START, kept), es[..Whole(es, |file|)];
      && Load(cfg, file, START).status.Truncated? && Left(cfg, file) == EncodeLog(kept)
      && Holds(cfg, kept, EncodeLog(kept), cs) && Ready(cfg, kept, Tracker(-1, stamp))
      && (!EndsCleanly(es, file) ==> (st.multi <==> StandAt(cfg, es, file).multi))
      && (EndsCleanly(es, file) ==> (st.multi <==> EnterAll(cfg, START, w[..LastMulti(w)]).multi))
  {
    hide Load, EncodeLog, AllWritable, EnterAll, Whole, Settled, EndsCleanly, LastMulti, Left;
    var w, kept := es[..Whole(es, |file|)], Kept(cfg, es, file);
    LeftIs(cfg, es, file);
    CutStatus(cfg, es, file);
    SettledStands(cfg, w);
    SettledStands(cfg, w[..LastMulti(w)]);
    WholeAll(kept);
    assert kept[..|kept|] == kept;
    NewIsReady(cfg, kept, stamp);
  }

  /**
   So the next process writes in step with the protocol, whatever it feeds, if and only if no transaction is open in the
   file that it finds.
   */
  lemma NextWriteKeeps(cfg: Config, kept: seq<Entry>)
    ensures var st := EnterAll(cfg, START, kept);
      (forall fs :: Recovers(cfg, kept, fs)) <==> !st.multi
  {
    hide EnterAll;
    var st := EnterAll(cfg, START, kept);
    if st.multi {
      var f := Feed(0, PING_ARGV, 0);
      PingIsMeant();
      PingCloses();
      assert !Recovers(cfg, kept, [f]);
    }
  }

  lemma PingCloses()
    ensures Closed([Feed(0, PING_ARGV, 0)]) == [Feed(0, PING_ARGV, 0)]
  {
    hide Meant;
    WordsAre(Config(true, 1, _ => true));
    assert [Feed(0, PING_ARGV, 0)][..0] == [];
  }
}
