/**
 The manifest with its file names and the manifest of the rewrite protocol (aof.c): each change of the one is the change
 of the other that the protocol makes at that point, and files with one name are one file.
 */
module AofNames {
  import opened AofLog
  import opened Options
  import opened AofFormat
  import M = AofManifest
  import P = AofProtocol

  /** The file a line of the manifest stands for. */
  function FileOf(fn: Bytes, i: M.Info): P.File
    requires i.seqno >= 0
  {
    if i.name == M.IncrName(fn, i.seqno) then P.IncrFile(i.seqno) else P.BaseFile(i.seqno)
  }

  ghost predicate Numbered(infos: seq<M.Info>) { forall i | 0 <= i < |infos| :: infos[i].seqno >= 0 }

  function FilesOf(fn: Bytes, infos: seq<M.Info>): seq<P.File>
    requires Numbered(infos)
  {
    seq(|infos|, i requires 0 <= i < |infos| => FileOf(fn, infos[i]))
  }

  function NumbersOf(infos: seq<M.Info>): seq<nat>
    requires Numbered(infos)
  {
    seq(|infos|, i requires 0 <= i < |infos| => infos[i].seqno as nat)
  }

  ghost predicate Counts(b: M.Book) {
    b.baseSeq >= 0 && b.incrSeq >= 0 && Numbered(b.incrs) && Numbered(b.hist) && (b.base.Some? ==> b.base.value.seqno >= 0)
  }

  lemma GoodCounts(fn: Bytes, b: M.Book)
    requires M.Good(fn, b)
    ensures Counts(b)
  {
    hide M.IncrName, M.BaseName;
    forall i | 0 <= i < |b.incrs| ensures b.incrs[i].seqno >= 0 { assert M.GoodIncr(fn, b, b.incrs[i]); }
    forall i | 0 <= i < |b.hist| ensures b.hist[i].seqno >= 0 { assert M.GoodHist(fn, b, b.hist[i]); }
  }

  /** The manifest of the protocol: the numbers alone. */
  function Numbers(fn: Bytes, b: M.Book): P.Manifest
    requires Counts(b)
  {
    P.Manifest(if b.base.Some? then Some(b.base.value.seqno as nat) else None, NumbersOf(b.incrs), FilesOf(fn, b.hist), b.baseSeq, b.incrSeq)
  }

  lemma BaseIsBase(fn: Bytes, i: M.Info)
    requires M.NamesBase(fn, i)
    ensures FileOf(fn, i.(kind := M.HIST)) == P.BaseFile(i.seqno)
  {
    hide M.IncrName, M.BaseName;
    M.IncrNameIs(fn, i, i.seqno);
  }

  lemma SameNewBase(fn: Bytes, b: M.Book, rdb: bool)
    requires M.Good(fn, b)
    ensures Counts(b) && Counts(M.NewBase(fn, b, rdb)) && Numbers(fn, M.NewBase(fn, b, rdb)) == P.NewBase(Numbers(fn, b))
  {
    hide M.IncrName, M.BaseName, FileOf, M.NamesBase;
    GoodCounts(fn, b);
    var b' := M.NewBase(fn, b, rdb);
    if b.base.Some? {
      var h := b.base.value.(kind := M.HIST);
      BaseIsBase(fn, b.base.value);
      assert b'.hist == [h] + b.hist;
      assert FilesOf(fn, [h] + b.hist) == [FileOf(fn, h)] + FilesOf(fn, b.hist);
    }
  }

  lemma SameNewIncr(fn: Bytes, b: M.Book)
    requires Counts(b)
    ensures Counts(M.NewIncr(fn, b)) && Numbers(fn, M.NewIncr(fn, b)) == P.NewIncr(Numbers(fn, b))
  {
    hide M.IncrName, M.BaseName, FileOf;
    var b' := M.NewIncr(fn, b);
    assert NumbersOf(b'.incrs) == NumbersOf(b.incrs) + [b.incrSeq + 1];
  }

  lemma SameMarked(fn: Bytes, b: M.Book)
    requires M.Good(fn, b)
    ensures Counts(b) && Counts(M.MarkRewritten(b, true)) && Numbers(fn, M.MarkRewritten(b, true)) == P.MarkRewritten(Numbers(fn, b))
  {
    hide M.IncrName, M.BaseName;
    GoodCounts(fn, b);
    if |b.incrs| > 0 {
      var k, b' := |b.incrs| - 1, M.MarkRewritten(b, true);
      var gone := M.AsHistory(b.incrs[..k]);
      forall i | 0 <= i < k ensures FileOf(fn, gone[i]) == P.IncrFile(b.incrs[i].seqno) { assert M.GoodIncr(fn, b, b.incrs[i]); }
      hide FileOf;
      assert FilesOf(fn, gone + b.hist) == FilesOf(fn, gone) + FilesOf(fn, b.hist);
      assert FilesOf(fn, gone) == P.IncrFiles(NumbersOf(b.incrs)[..k]);
      assert NumbersOf(b'.incrs) == NumbersOf(b.incrs)[k..];
    }
  }

  lemma SameReloaded(fn: Bytes, b: M.Book)
    requires M.Good(fn, b)
    ensures Counts(b) && Counts(M.Reloaded(b)) && Numbers(fn, M.Reloaded(b)) == P.Reread(Numbers(fn, b))
  {
    hide M.IncrName, M.BaseName, FileOf;
    GoodCounts(fn, b);
  }

  /**
   Every change of the manifest is the protocol's: a new incr file, the manifest that a finished rewrite publishes, with
   the log on or being switched on, the first files at a start, and the history losing its first file.
   */
  lemma ChangesAgree(fn: Bytes, b: M.Book, c: M.Change)
    requires M.Good(fn, b)
    ensures Counts(b) && Counts(M.Apply(fn, b, c)) && Counts(M.Reloaded(b))
    ensures var m, m' := Numbers(fn, b), Numbers(fn, M.Apply(fn, b, c));
      && (c == M.OpenIncr ==> m' == P.NewIncr(m))
      && (c.FinishRewrite? && c.writing && !c.addIncr ==> m' == P.MarkRewritten(P.NewBase(m)))
      && (c.FinishRewrite? && c.writing && c.addIncr ==> m' == P.MarkRewritten(P.NewIncr(P.NewBase(m))))
      && (c.StartUp? && |m.incrs| == 0 ==> m' == P.NewIncr(if m.base.Some? then m else P.NewBase(m)))
      && (c.StartUp? && |m.incrs| > 0 ==> m' == m)
      && (c == M.DropHistory && |m.hist| > 0 ==> m' == m.(hist := m.hist[1..]))
    ensures Numbers(fn, M.Reloaded(b)) == P.Reread(Numbers(fn, b))
  {
    hide M.IncrName, M.BaseName, M.Good, FileOf, M.NewBase, M.NewIncr, M.MarkRewritten, P.NewBase, P.NewIncr, P.MarkRewritten;
    GoodCounts(fn, b);
    SameReloaded(fn, b);
    M.ChangeKeepsGood(fn, b, c);
    GoodCounts(fn, M.Apply(fn, b, c));
    match c {
      case OpenIncr => SameNewIncr(fn, b);
      case FinishRewrite(rdb, addIncr, writing) => SameFinish(fn, b, rdb, addIncr);
      case StartUp(rdb) =>
        SameNewBase(fn, b, rdb);
        if b.base.None? && |b.incrs| == 0 { SameNewIncr(fn, M.NewBase(fn, b, rdb)); KeepsIncrs(fn, b, rdb); } else { SameNewIncr(fn, b); }
      case DropHistory => if |b.hist| > 0 { assert FilesOf(fn, b.hist[1..]) == FilesOf(fn, b.hist)[1..]; }
      case Upgrade =>
    }
  }

  lemma KeepsIncrs(fn: Bytes, b: M.Book, rdb: bool)
    requires b.baseSeq >= 0
    ensures M.NewBase(fn, b, rdb).incrs == b.incrs
  {
  }

  lemma SameFinish(fn: Bytes, b: M.Book, rdb: bool, addIncr: bool)
    requires M.Good(fn, b)
    ensures Counts(b) && Counts(M.Apply(fn, b, M.FinishRewrite(rdb, addIncr, true)))
    ensures Numbers(fn, M.Apply(fn, b, M.FinishRewrite(rdb, addIncr, true))) ==
      P.MarkRewritten(if addIncr then P.NewIncr(P.NewBase(Numbers(fn, b))) else P.NewBase(Numbers(fn, b)))
  {
    hide M.IncrName, M.BaseName, M.Good, FileOf, M.NewBase, M.NewIncr, M.MarkRewritten, P.NewBase, P.NewIncr, P.MarkRewritten, Numbers;
    SameNewBase(fn, b, rdb);
    M.GoodNewBase(fn, b, rdb);
    var b1 := M.NewBase(fn, b, rdb);
    if addIncr {
      SameNewIncr(fn, b1);
      M.GoodNewIncr(fn, b1);
      SameMarked(fn, M.NewIncr(fn, b1));
    } else {
      SameMarked(fn, b1);
    }
  }

  /** Lines with one name are one file: unlinking by name takes away no other file of the protocol. */
  lemma OneNameOneFile(fn: Bytes, i: M.Info, j: M.Info)
    requires M.NamesBase(fn, i) || M.NamesIncr(fn, i)
    requires M.NamesBase(fn, j) || M.NamesIncr(fn, j)
    requires i.name == j.name
    ensures FileOf(fn, i) == FileOf(fn, j)
  {
    hide Decimal;
    assert |M.BaseName(fn, i.seqno, true)| > |fn| && |M.BaseName(fn, i.seqno, false)| > |fn| && |M.IncrName(fn, i.seqno)| > |fn|;
    assert |M.BaseName(fn, j.seqno, true)| > |fn| && |M.BaseName(fn, j.seqno, false)| > |fn| && |M.IncrName(fn, j.seqno)| > |fn|;
    hide M.IncrName, M.BaseName;
    M.IncrNameIs(fn, i, j.seqno);
    M.IncrNameIs(fn, j, i.seqno);
    M.IncrNameIs(fn, i, i.seqno);
    M.IncrNameIs(fn, j, j.seqno);
    M.BaseNameIsNot(fn, i, j.seqno, true);
    M.BaseNameIsNot(fn, i, j.seqno, false);
  }

  // ------------------------------------------------------------------ names and lines in letters

  lemma Suffixes()
    ensures IsAscii(".base.rdb") && IsAscii(".base.aof") && IsAscii(".incr.aof") && IsAscii(".")
    ensures Ascii(".base.rdb") == M.BASE_RDB && Ascii(".base.aof") == M.BASE_AOF && Ascii(".incr.aof") == M.INCR_AOF && Ascii(".") == [M.DOT]
  {
  }

  /** appendonly.aof.1.base.rdb and its kin, for numbers of one digit. */
  lemma NamesRead(fn: string, n: nat)
    requires IsAscii(fn) && n < 10
    ensures IsAscii(fn + "." + Digit(n) + ".base.rdb") && M.BaseName(Ascii(fn), n, true) == Ascii(fn + "." + Digit(n) + ".base.rdb")
    ensures IsAscii(fn + "." + Digit(n) + ".base.aof") && M.BaseName(Ascii(fn), n, false) == Ascii(fn + "." + Digit(n) + ".base.aof")
    ensures IsAscii(fn + "." + Digit(n) + ".incr.aof") && M.IncrName(Ascii(fn), n) == Ascii(fn + "." + Digit(n) + ".incr.aof")
  {
    Suffixes();
    DigitText(n);
    hide Ascii, IsAscii, Digit, Decimal;
    AsciiConcat(fn, ".");
    AsciiConcat(fn + ".", Digit(n));
    AsciiConcat(fn + "." + Digit(n), ".base.rdb");
    AsciiConcat(fn + "." + Digit(n), ".base.aof");
    AsciiConcat(fn + "." + Digit(n), ".incr.aof");
  }

  lemma LineWords()
    ensures IsAscii("file") && IsAscii(" ") && IsAscii("seq") && IsAscii("type") && IsAscii("b") && IsAscii("h") && IsAscii("i")
    ensures Ascii("file") == M.FILE_KEY && Ascii(" ") == [M.SPACE] && Ascii("seq") == M.SEQ_KEY && Ascii("type") == M.TYPE_KEY
    ensures Ascii("b") == [M.BASE] && Ascii("h") == [M.HIST] && Ascii("i") == [M.INCR]
  {
  }

  /** "file NAME seq N type T", with T one of b, h and i. */
  lemma LineReads(name: string, n: nat, kind: string)
    requires IsAscii(name) && n < 10 && !M.NeedsRepr(Ascii(name)) && kind in {"b", "h", "i"}
    ensures IsAscii("file" + " " + name + " " + ("seq" + " " + Digit(n) + " " + "type" + " " + kind))
    ensures IsAscii(kind) && |Ascii(kind)| == 1
    ensures M.LineText(M.Info(Ascii(name), n, Ascii(kind)[0])) == Ascii("file" + " " + name + " " + ("seq" + " " + Digit(n) + " " + "type" + " " + kind))
  {
    LineWords();
    DigitText(n);
    hide Ascii, IsAscii, Digit, Decimal, M.NeedsRepr;
    AsciiConcat("seq", " ");
    AsciiConcat("seq" + " ", Digit(n));
    AsciiConcat("seq" + " " + Digit(n), " ");
    AsciiConcat("seq" + " " + Digit(n) + " ", "type");
    AsciiConcat("seq" + " " + Digit(n) + " " + "type", " ");
    AsciiConcat("seq" + " " + Digit(n) + " " + "type" + " ", kind);
    AsciiConcat("file", " ");
    AsciiConcat("file" + " ", name);
    AsciiConcat("file" + " " + name, " ");
    AsciiConcat("file" + " " + name + " ", "seq" + " " + Digit(n) + " " + "type" + " " + kind);
    assert [Ascii(kind)[0]] == Ascii(kind);
  }
}
