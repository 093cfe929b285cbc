/**
 The manifest of the append-only files (aof.c): how it changes, how it is printed, and how it is read back.
 */
module AofManifest {
  import opened AofLog
  import opened Options

  // ------------------------------------------------------------------ manifests

  const BASE: byte := 98
  const HIST: byte := 104
  const INCR: byte := 105

  /** One file: its name, its sequence number and its type letter. */
  datatype Info = Info(name: Bytes, seqno: int, kind: byte)

  datatype Book = Book(base: Option<Info>, incrs: seq<Info>, hist: seq<Info>, baseSeq: int, incrSeq: int)

  const EMPTY := Book(None, [], [], 0, 0)

  const DOT: byte := 46
  /** ".base.rdb", ".base.aof" and ".incr.aof" */
  const BASE_RDB: Bytes := [46, 98, 97, 115, 101, 46, 114, 100, 98]
  const BASE_AOF: Bytes := [46, 98, 97, 115, 101, 46, 97, 111, 102]
  const INCR_AOF: Bytes := [46, 105, 110, 99, 114, 46, 97, 111, 102]

  function BaseName(fn: Bytes, n: nat, rdb: bool): Bytes { fn + [DOT] + Decimal(n) + (if rdb then BASE_RDB else BASE_AOF) }
  function IncrName(fn: Bytes, n: nat): Bytes { fn + [DOT] + Decimal(n) + INCR_AOF }

  /** `getNewBaseFileNameAndMarkPreAsHistory` */
  function NewBase(fn: Bytes, b: Book, rdb: bool): Book
    requires b.baseSeq >= 0
  {
    b.(hist := if b.base.Some? then [b.base.value.(kind := HIST)] + b.hist else b.hist,
       base := Some(Info(BaseName(fn, b.baseSeq + 1, rdb), b.baseSeq + 1, BASE)), baseSeq := b.baseSeq + 1)
  }

  /** `getNewIncrAofName` */
  function NewIncr(fn: Bytes, b: Book): Book
    requires b.incrSeq >= 0
  {
    b.(incrs := b.incrs + [Info(IncrName(fn, b.incrSeq + 1), b.incrSeq + 1, INCR)], incrSeq := b.incrSeq + 1)
  }

  function AsHistory(infos: seq<Info>): seq<Info> { seq(|infos|, i requires 0 <= i < |infos| => infos[i].(kind := HIST)) }

  /** `markRewrittenIncrAofAsHistory`: all incr files, or all but the one being written. */
  function MarkRewritten(b: Book, writing: bool): Book {
    if |b.incrs| == 0 then b
    else
      var k := if writing then |b.incrs| - 1 else |b.incrs|;
      b.(hist := AsHistory(b.incrs[..k]) + b.hist, incrs := b.incrs[k..])
  }

  /** How the code changes a manifest. */
  datatype Change =
    | StartUp(rdb: bool)                                 // aofOpenIfNeededOnServerStart
    | OpenIncr                                           // openNewIncrAofForAppend
    | FinishRewrite(rdb: bool, addIncr: bool, writing: bool) // backgroundRewriteDoneHandler
    | DropHistory                                        // one step of aofDelHistoryFiles
    | Upgrade                                            // aofUpgradePrepare

  function Apply(fn: Bytes, b: Book, c: Change): (r: Book)
    requires b.baseSeq >= 0 && b.incrSeq >= 0
    ensures r.baseSeq >= 0 && r.incrSeq >= 0
  {
    match c
    case StartUp(rdb) =>
      var b1 := if b.base.None? && |b.incrs| == 0 then NewBase(fn, b, rdb) else b;
      if |b1.incrs| == 0 then NewIncr(fn, b1) else b1
    case OpenIncr => NewIncr(fn, b)
    case FinishRewrite(rdb, addIncr, writing) =>
      var b1 := NewBase(fn, b, rdb);
      MarkRewritten(if addIncr then NewIncr(fn, b1) else b1, writing)
    case DropHistory => if |b.hist| > 0 then b.(hist := b.hist[1..]) else b
    case Upgrade =>
      if |b.incrs| == 0 && (b.base.None? || b.base.value.name == fn) then b.(base := Some(Info(fn, 1, BASE)), baseSeq := 1) else b
  }

  // ------------------------------------------------------------------ what every manifest looks like

  predicate NamesBase(fn: Bytes, i: Info) {
    && i.seqno >= 1
    && ((i.name == fn && i.seqno == 1) || i.name == BaseName(fn, i.seqno, true) || i.name == BaseName(fn, i.seqno, false))
  }

  predicate NamesIncr(fn: Bytes, i: Info) { i.seqno >= 1 && i.name == IncrName(fn, i.seqno) }

  ghost predicate Rising(infos: seq<Info>) { forall i, j | 0 <= i < j < |infos| :: infos[i].seqno < infos[j].seqno }

  predicate GoodIncr(fn: Bytes, b: Book, i: Info) { i.kind == INCR && NamesIncr(fn, i) && i.seqno <= b.incrSeq }

  /** A restart forgets how far the incr numbers had come, so only base files have their numbers bounded here. */
  predicate GoodHist(fn: Bytes, b: Book, i: Info) {
    i.kind == HIST && ((NamesBase(fn, i) && i.seqno < b.baseSeq) || NamesIncr(fn, i))
  }

  ghost predicate Good(fn: Bytes, b: Book) {
    && b.baseSeq >= 0 && b.incrSeq >= 0
    && (b.base.Some? ==> b.base.value.kind == BASE && NamesBase(fn, b.base.value) && b.base.value.seqno == b.baseSeq)
    && Rising(b.incrs) && (forall i | 0 <= i < |b.incrs| :: GoodIncr(fn, b, b.incrs[i]))
    && (|b.incrs| > 0 ==> b.incrs[|b.incrs| - 1].seqno == b.incrSeq)
    && (forall i | 0 <= i < |b.hist| :: GoodHist(fn, b, b.hist[i]))
    && (|b.hist| > 0 ==> b.base.Some?)
  }

  lemma GoodNewBase(fn: Bytes, b: Book, rdb: bool)
    requires Good(fn, b)
    ensures Good(fn, NewBase(fn, b, rdb))
  {
    hide BaseName, IncrName;
    var b' := NewBase(fn, b, rdb);
    forall i | 0 <= i < |b'.incrs| ensures GoodIncr(fn, b', b'.incrs[i]) { assert GoodIncr(fn, b, b.incrs[i]); }
    forall i | 0 <= i < |b'.hist| ensures GoodHist(fn, b', b'.hist[i]) {
      if b.base.Some? && i > 0 { assert GoodHist(fn, b, b.hist[i - 1]); }
    }
  }

  lemma GoodNewIncr(fn: Bytes, b: Book)
    requires Good(fn, b)
    ensures Good(fn, NewIncr(fn, b))
  {
    hide BaseName, IncrName;
    var b' := NewIncr(fn, b);
    forall i | 0 <= i < |b'.incrs| ensures GoodIncr(fn, b', b'.incrs[i]) {
      if i < |b.incrs| { assert GoodIncr(fn, b, b.incrs[i]); }
    }
    forall i | 0 <= i < |b'.hist| ensures GoodHist(fn, b', b'.hist[i]) { assert GoodHist(fn, b, b.hist[i]); }
  }

  lemma GoodMark(fn: Bytes, b: Book, writing: bool)
    requires Good(fn, b) && b.base.Some?
    ensures Good(fn, MarkRewritten(b, writing))
  {
    hide BaseName, IncrName;
    if |b.incrs| > 0 {
      var b' := MarkRewritten(b, writing);
      var k := if writing then |b.incrs| - 1 else |b.incrs|;
      forall i | 0 <= i < |b'.incrs| ensures GoodIncr(fn, b', b'.incrs[i]) { assert GoodIncr(fn, b, b.incrs[k + i]); }
      forall i | 0 <= i < |b'.hist| ensures GoodHist(fn, b', b'.hist[i]) {
        if i < k { assert GoodIncr(fn, b, b.incrs[i]); } else { assert GoodHist(fn, b, b.hist[i - k]); }
      }
    }
  }

  lemma GoodDrop(fn: Bytes, b: Book)
    requires Good(fn, b)
    ensures Good(fn, Apply(fn, b, DropHistory))
  {
    hide NamesBase, NamesIncr;
    if |b.hist| > 0 {
      var b' := b.(hist := b.hist[1..]);
      forall i | 0 <= i < |b'.incrs| ensures GoodIncr(fn, b', b'.incrs[i]) { assert GoodIncr(fn, b, b.incrs[i]); }
      forall i | 0 <= i < |b'.hist| ensures GoodHist(fn, b', b'.hist[i]) { assert GoodHist(fn, b, b.hist[i + 1]); }
    }
  }

  /** An upgrade finds no base and no history, or the base that an earlier one entered. */
  lemma GoodUpgrade(fn: Bytes, b: Book)
    requires Good(fn, b)
    ensures Good(fn, Apply(fn, b, Upgrade))
  {
    if b.base.Some? {
      var i := b.base.value;
      assert |BaseName(fn, i.seqno, true)| > |fn| && |BaseName(fn, i.seqno, false)| > |fn|;
      assert i.name == fn ==> i == Info(fn, 1, BASE);
      assert i.name == fn && |b.incrs| == 0 ==> Apply(fn, b, Upgrade) == b;
    }
  }

  /** Every change keeps the shape. */
  lemma ChangeKeepsGood(fn: Bytes, b: Book, c: Change)
    requires Good(fn, b)
    ensures Good(fn, Apply(fn, b, c))
  {
    hide Good;
    GoodCounts(fn, b);
    match c {
      case StartUp(rdb) =>
        var b1 := if b.base.None? && |b.incrs| == 0 then NewBase(fn, b, rdb) else b;
        GoodNewBase(fn, b, rdb);
        GoodNewIncr(fn, b1);
      case OpenIncr => GoodNewIncr(fn, b);
      case FinishRewrite(rdb, addIncr, writing) =>
        GoodNewBase(fn, b, rdb);
        var b1 := NewBase(fn, b, rdb);
        GoodNewIncr(fn, b1);
        assert b1.base.Some?;
        GoodMark(fn, if addIncr then NewIncr(fn, b1) else b1, writing);
      case DropHistory => GoodDrop(fn, b);
      case Upgrade => GoodUpgrade(fn, b);
    }
  }

  lemma EmptyIsGood(fn: Bytes)
    ensures Good(fn, EMPTY)
  {
  }

  // ------------------------------------------------------------------ names

  /** The number is read up to the dot, so names with different numbers or suffixes differ. */
  lemma NumberThenDot(a: nat, b: nat, x: Bytes, y: Bytes)
    requires |x| > 0 && |y| > 0 && x[0] == DOT && y[0] == DOT && Decimal(a) + x == Decimal(b) + y
    ensures a == b && x == y
  {
    hide Decimal;
    ScanDecimal(a, x);
    ScanDecimal(b, y);
    assert (Decimal(a) + x)[|Decimal(a)|..] == x;
    assert (Decimal(b) + y)[|Decimal(b)|..] == y;
  }

  lemma NamesApart(fn: Bytes, a: nat, b: nat, x: Bytes, y: Bytes)
    requires |x| > 0 && |y| > 0 && x[0] == DOT && y[0] == DOT && (a != b || x != y)
    ensures fn + [DOT] + Decimal(a) + x != fn + [DOT] + Decimal(b) + y
  {
    hide Decimal;
    var p, q := fn + [DOT] + Decimal(a) + x, fn + [DOT] + Decimal(b) + y;
    assert p[|fn| + 1..] == Decimal(a) + x && q[|fn| + 1..] == Decimal(b) + y;
    if Decimal(a) + x == Decimal(b) + y { NumberThenDot(a, b, x, y); }
  }

  // ------------------------------------------------------------------ quoting and splitting (sds.c)

  const SPACE: byte := 32
  const QUOTE: byte := 34
  const TICK: byte := 39
  const BACKSLASH: byte := 92
  const LETTER_X: byte := 120

  predicate IsPrint(c: byte) { 32 <= c <= 126 }

  /** A byte that makes `sdsneedsrepr` ask for quotes. */
  predicate Odd(c: byte) { c == BACKSLASH || c == QUOTE || !IsPrint(c) || IsSpace(c) }

  predicate NeedsRepr(s: Bytes) { exists i | 0 <= i < |s| :: Odd(s[i]) }

  function HexDigit(n: nat): byte
    requires n < 16
  {
    if n < 10 then 48 + n else 87 + n
  }

  predicate IsHex(c: byte) { 48 <= c <= 57 || 97 <= c <= 102 || 65 <= c <= 70 }

  function HexValue(c: byte): nat
    requires IsHex(c)
  {
    if c <= 57 then c - 48 else if c >= 97 then c - 87 else c - 55
  }

  /** One byte inside quotes, as `sdscatrepr` writes it. */
  function Escape(c: byte): Bytes {
    if c == BACKSLASH || c == QUOTE then [BACKSLASH, c]
    else if c == 10 then [BACKSLASH, 110]
    else if c == 13 then [BACKSLASH, 114]
    else if c == 9 then [BACKSLASH, 116]
    else if c == 7 then [BACKSLASH, 97]
    else if c == 8 then [BACKSLASH, 98]
    else if IsPrint(c) then [c]
    else [BACKSLASH, LETTER_X, HexDigit(c / 16), HexDigit(c % 16)]
  }

  function EscapeAll(s: Bytes): Bytes { if |s| == 0 then [] else Escape(s[0]) + EscapeAll(s[1..]) }

  function Repr(s: Bytes): Bytes { [QUOTE] + EscapeAll(s) + [QUOTE] }

  function Unescape(c: byte): byte {
    if c == 110 then 10 else if c == 114 then 13 else if c == 116 then 9 else if c == 98 then 8 else if c == 97 then 7 else c
  }

  datatype Mode = Bare | InQuotes | InTicks

  datatype Token = Bad | Got(text: Bytes, rest: Bytes)

  /** The inner loop of `sdssplitargs`. */
  function Scanned(p: Bytes, mode: Mode, cur: Bytes): Token
    decreases |p|
  {
    match mode
    case InQuotes =>
      if |p| == 0 then Bad
      else if |p| >= 4 && p[0] == BACKSLASH && p[1] == LETTER_X && IsHex(p[2]) && IsHex(p[3]) then
        Scanned(p[4..], mode, cur + [HexValue(p[2]) * 16 + HexValue(p[3])])
      else if p[0] == BACKSLASH && |p| >= 2 then Scanned(p[2..], mode, cur + [Unescape(p[1])])
      else if p[0] == QUOTE then (if |p| > 1 && !IsSpace(p[1]) then Bad else Got(cur, p[1..]))
      else Scanned(p[1..], mode, cur + [p[0]])
    case InTicks =>
      if |p| == 0 then Bad
      else if p[0] == BACKSLASH && |p| >= 2 && p[1] == TICK then Scanned(p[2..], mode, cur + [TICK])
      else if p[0] == TICK then (if |p| > 1 && !IsSpace(p[1]) then Bad else Got(cur, p[1..]))
      else Scanned(p[1..], mode, cur + [p[0]])
    case Bare =>
      if |p| == 0 then Got(cur, [])
      else if p[0] == SPACE || p[0] == 10 || p[0] == 13 || p[0] == 9 then Got(cur, p[1..])
      else if p[0] == QUOTE then Scanned(p[1..], InQuotes, cur)
      else if p[0] == TICK then Scanned(p[1..], InTicks, cur)
      else Scanned(p[1..], Bare, cur + [p[0]])
  }

  lemma {:induction false} ScannedShrinks(p: Bytes, mode: Mode, cur: Bytes)
    ensures Scanned(p, mode, cur).Got? ==> |Scanned(p, mode, cur).rest| <= |p| && (|p| > 0 ==> |Scanned(p, mode, cur).rest| < |p|)
    decreases |p|
  {
    if |p| > 0 {
      if mode == InQuotes && |p| >= 4 && p[0] == BACKSLASH && p[1] == LETTER_X && IsHex(p[2]) && IsHex(p[3]) {
        ScannedShrinks(p[4..], mode, cur + [HexValue(p[2]) * 16 + HexValue(p[3])]);
      } else if mode == InQuotes && p[0] == BACKSLASH && |p| >= 2 {
        ScannedShrinks(p[2..], mode, cur + [Unescape(p[1])]);
      } else if mode == InTicks && p[0] == BACKSLASH && |p| >= 2 && p[1] == TICK {
        ScannedShrinks(p[2..], mode, cur + [TICK]);
      } else if mode == Bare && p[0] == QUOTE {
        ScannedShrinks(p[1..], InQuotes, cur);
      } else if mode == Bare && p[0] == TICK {
        ScannedShrinks(p[1..], InTicks, cur);
      } else {
        ScannedShrinks(p[1..], mode, cur + [p[0]]);
      }
    }
  }

  function SkipBlanks(p: Bytes): (r: Bytes)
    ensures |r| <= |p| && (|r| > 0 ==> !IsSpace(r[0]))
  {
    if |p| > 0 && IsSpace(p[0]) then SkipBlanks(p[1..]) else p
  }

  /** `sdssplitargs` */
  function SplitArgs(p: Bytes): Option<seq<Bytes>>
    decreases |p|
  {
    var s := SkipBlanks(p);
    if |s| == 0 then Some([])
    else
      ScannedShrinks(s, Bare, []);
      match Scanned(s, Bare, [])
      case Bad => None
      case Got(t, rest) =>
        match SplitArgs(rest)
        case None => None
        case Some(ts) => Some([t] + ts)
  }

  lemma HexBack(c: byte)
    ensures IsHex(HexDigit(c / 16)) && IsHex(HexDigit(c % 16))
    ensures HexValue(HexDigit(c / 16)) * 16 + HexValue(HexDigit(c % 16)) == c
  {
  }

  lemma EscapeRead(c: byte, tail: Bytes, cur: Bytes)
    ensures Scanned(Escape(c) + tail, InQuotes, cur) == Scanned(tail, InQuotes, cur + [c])
  {
    var p := Escape(c) + tail;
    assert p[|Escape(c)|..] == tail;
    if |Escape(c)| == 4 { HexBack(c); }
  }

  lemma {:induction false} EscapesRead(s: Bytes, tail: Bytes, cur: Bytes)
    ensures Scanned(EscapeAll(s) + tail, InQuotes, cur) == Scanned(tail, InQuotes, cur + s)
  {
    hide Scanned, Escape;
    if |s| == 0 {
      assert EscapeAll(s) + tail == tail && cur + s == cur;
    } else {
      EscapeRead(s[0], EscapeAll(s[1..]) + tail, cur);
      assert EscapeAll(s) + tail == Escape(s[0]) + (EscapeAll(s[1..]) + tail);
      EscapesRead(s[1..], tail, cur + [s[0]]);
      assert cur + [s[0]] + s[1..] == cur + s;
    }
  }

  /** A quoted name is read back exactly, whatever bytes it holds. */
  lemma ReprRead(s: Bytes, tail: Bytes)
    requires |tail| > 0 ==> IsSpace(tail[0])
    ensures Scanned(Repr(s) + tail, Bare, []) == Got(s, tail)
  {
    hide EscapeAll;
    var p := Repr(s) + tail;
    assert p[0] == QUOTE && p[1..] == EscapeAll(s) + ([QUOTE] + tail);
    EscapesRead(s, [QUOTE] + tail, []);
    assert [] + s == s && ([QUOTE] + tail)[1..] == tail;
    assert Scanned(p, Bare, []) == Scanned(p[1..], InQuotes, []);
    assert Scanned([QUOTE] + tail, InQuotes, s) == Got(s, tail);
  }

  predicate BareSafe(s: Bytes) { forall i | 0 <= i < |s| :: !Odd(s[i]) && s[i] != TICK }

  lemma {:induction false} BareRead(s: Bytes, tail: Bytes, cur: Bytes)
    requires BareSafe(s)
    ensures Scanned(s + ([SPACE] + tail), Bare, cur) == Got(cur + s, tail)
    ensures Scanned(s, Bare, cur) == Got(cur + s, [])
  {
    if |s| == 0 {
      assert s + ([SPACE] + tail) == [SPACE] + tail && cur + s == cur && ([SPACE] + tail)[1..] == tail;
    } else {
      BareRead(s[1..], tail, cur + [s[0]]);
      assert (s + ([SPACE] + tail))[1..] == s[1..] + ([SPACE] + tail);
      assert cur + [s[0]] + s[1..] == cur + s;
      assert !Odd(s[0]) && s[0] != TICK;
    }
  }

  // ------------------------------------------------------------------ a name with a tick

  predicate NoOdd(s: Bytes) { forall i | 0 <= i < |s| :: !Odd(s[i]) }

  lemma {:induction false} TickNeverCloses(p: Bytes, cur: Bytes)
    requires TICK !in p
    ensures Scanned(p, InTicks, cur) == Bad
  {
    if |p| > 0 { TickNeverCloses(p[1..], cur + [p[0]]); }
  }

  /** After an opening tick: no token at all, or a shorter one that stops where the name stops. */
  lemma {:induction false} TickLosesBytes(b: Bytes, tail: Bytes, cur: Bytes)
    requires NoOdd(b) && TICK !in tail
    ensures var r := Scanned(b + ([SPACE] + tail), InTicks, cur);
      r.Bad? || (r.rest == [SPACE] + tail && |r.text| < |cur| + |b|)
  {
    var p := b + ([SPACE] + tail);
    if |b| == 0 {
      assert p == [SPACE] + tail;
      TickNeverCloses(p, cur);
    } else {
      assert p[1..] == b[1..] + ([SPACE] + tail);
      assert !Odd(b[0]);
      if b[0] == TICK {
        if |b| > 1 { assert p[1] == b[1] && !Odd(b[1]); } else { assert p[1..] == [SPACE] + tail; }
      } else {
        TickLosesBytes(b[1..], tail, cur + [b[0]]);
      }
    }
  }

  lemma {:induction false} BareTick(s: Bytes, tail: Bytes, cur: Bytes)
    requires NoOdd(s) && TICK in s && TICK !in tail
    ensures var r := Scanned(s + ([SPACE] + tail), Bare, cur);
      r.Bad? || (r.rest == [SPACE] + tail && |r.text| < |cur| + |s|)
  {
    var p := s + ([SPACE] + tail);
    assert p[1..] == s[1..] + ([SPACE] + tail);
    assert !Odd(s[0]);
    if s[0] == TICK {
      TickLosesBytes(s[1..], tail, cur);
    } else {
      BareTick(s[1..], tail, cur + [s[0]]);
    }
  }

  // ------------------------------------------------------------------ one line

  const FILE_KEY: Bytes := [102, 105, 108, 101]
  const SEQ_KEY: Bytes := [115, 101, 113]
  const TYPE_KEY: Bytes := [116, 121, 112, 101]

  function Shown(name: Bytes): Bytes { if NeedsRepr(name) then Repr(name) else name }

  /** " seq N type T" without the leading blank. */
  function LineEnd(i: Info): Bytes
    requires i.seqno >= 0
  {
    SEQ_KEY + [SPACE] + Decimal(i.seqno) + [SPACE] + TYPE_KEY + [SPACE] + [i.kind]
  }

  function LineText(i: Info): Bytes
    requires i.seqno >= 0
  {
    FILE_KEY + [SPACE] + Shown(i.name) + [SPACE] + LineEnd(i)
  }

  /** `aofInfoFormat` */
  function Format(i: Info): Bytes
    requires i.seqno >= 0
  {
    LineText(i) + [LF]
  }

  /** `pathIsBaseName` */
  predicate IsBaseName(s: Bytes) { 47 !in s && BACKSLASH !in s }

  /** What has been read of a line so far: name, number and type, each missing at first. */
  datatype Fields = Fields(name: Option<Bytes>, seqno: int, kind: byte)

  function ReadFields(args: seq<Bytes>, f: Fields): Option<Fields> {
    if |args| < 2 then Some(f)
    else
      var key, v := Lower(args[0]), args[1];
      if key == FILE_KEY then
        (if IsBaseName(v) then ReadFields(args[2..], f.(name := Some(v))) else None)
      else if key == SEQ_KEY then ReadFields(args[2..], f.(seqno := Atoi(v)))
      else if key == TYPE_KEY then ReadFields(args[2..], f.(kind := if |v| == 0 then 0 else v[0]))
      else ReadFields(args[2..], f)
  }

  function ParseArgs(args: seq<Bytes>): Option<Info> {
    if |args| < 6 || |args| % 2 == 1 then None
    else
      match ReadFields(args, Fields(None, 0, 0))
      case None => None
      case Some(f) => if f.name.None? || f.seqno == 0 || f.kind == 0 then None else Some(Info(f.name.value, f.seqno, f.kind))
  }

  predicate TrimByte(c: byte) { c == SPACE || c == 9 || c == 13 || c == 10 }

  function TrimEnd(s: Bytes): Bytes { if |s| > 0 && TrimByte(s[|s| - 1]) then TrimEnd(s[..|s| - 1]) else s }
  function TrimStart(s: Bytes): Bytes { if |s| > 0 && TrimByte(s[0]) then TrimStart(s[1..]) else s }

  /** A line of the file, its newline included. */
  function ParseLine(line: Bytes): Option<Info> {
    var text := TrimEnd(TrimStart(line));
    if |text| == 0 then None
    else
      match SplitArgs(text)
      case None => None
      case Some(args) => ParseArgs(args)
  }

  predicate Letter(c: byte) { c == BASE || c == HIST || c == INCR }

  lemma LineIsTrimmed(i: Info)
    requires i.seqno >= 0 && Letter(i.kind)
    ensures TrimEnd(TrimStart(Format(i))) == LineText(i) && |LineText(i)| > 0
  {
    hide Decimal, Shown;
    var s := Format(i);
    assert s[0] == FILE_KEY[0];
    assert TrimStart(s) == s;
    assert s[..|s| - 1] == LineText(i);
    assert LineText(i)[|LineText(i)| - 1] == i.kind;
    assert TrimEnd(LineText(i)) == LineText(i);
  }

  lemma {:induction false} SplitOne(w: Bytes, tail: Bytes)
    requires BareSafe(w) && |w| > 0
    ensures SplitArgs(w + ([SPACE] + tail)) == (match SplitArgs(tail) case None => None case Some(ts) => Some([w] + ts))
    ensures SplitArgs(w) == Some([w])
  {
    hide Scanned;
    var s := w + ([SPACE] + tail);
    assert !Odd(w[0]);
    assert SkipBlanks(s) == s && SkipBlanks(w) == w;
    BareRead(w, tail, []);
    assert [] + w == w;
    assert SplitArgs([]) == Some([]);
    assert [w] + [] == [w];
  }

  lemma DigitsAreBare(n: nat)
    ensures BareSafe(Decimal(n))
  {
    hide Decimal;
  }

  lemma LineEndSplits(i: Info)
    requires i.seqno >= 0 && Letter(i.kind)
    ensures SplitArgs(LineEnd(i)) == Some([SEQ_KEY, Decimal(i.seqno), TYPE_KEY, [i.kind]])
    ensures SplitArgs([SPACE] + LineEnd(i)) == SplitArgs(LineEnd(i))
    ensures TICK !in LineEnd(i)
  {
    hide SplitArgs, Decimal;
    var d := Decimal(i.seqno);
    DigitsAreBare(i.seqno);
    var t1 := TYPE_KEY + ([SPACE] + [i.kind]);
    var t2 := d + ([SPACE] + t1);
    assert LineEnd(i) == SEQ_KEY + ([SPACE] + t2);
    SplitOne([i.kind], []);
    SplitOne(TYPE_KEY, [i.kind]);
    SplitOne(d, t1);
    SplitOne(SEQ_KEY, t2);
    assert [TYPE_KEY] + [[i.kind]] == [TYPE_KEY, [i.kind]];
    assert [d] + [TYPE_KEY, [i.kind]] == [d, TYPE_KEY, [i.kind]];
    assert [SEQ_KEY] + [d, TYPE_KEY, [i.kind]] == [SEQ_KEY, d, TYPE_KEY, [i.kind]];
    BlankFirst(LineEnd(i));
    assert TICK !in d by { assert BareSafe(d); }
  }

  lemma BlankFirst(t: Bytes)
    ensures SplitArgs([SPACE] + t) == SplitArgs(t)
  {
    hide Scanned;
    assert ([SPACE] + t)[1..] == t;
    assert SkipBlanks([SPACE] + t) == SkipBlanks(t);
  }

  /** The line as tokens: the name token decides. */
  lemma LineSplits(i: Info)
    requires i.seqno >= 0 && Letter(i.kind) && |i.name| > 0
    ensures
      var r := Scanned(Shown(i.name) + ([SPACE] + LineEnd(i)), Bare, []);
      var args := SplitArgs(LineText(i));
      && (r.Bad? ==> args == None)
      && (r.Got? && (r.rest == [SPACE] + LineEnd(i) || r.rest == LineEnd(i)) ==>
            args == Some([FILE_KEY, r.text, SEQ_KEY, Decimal(i.seqno), TYPE_KEY, [i.kind]]))
  {
    hide Scanned, Decimal, LineEnd, Shown;
    var e := LineEnd(i);
    var rest := Shown(i.name) + ([SPACE] + e);
    assert LineText(i) == FILE_KEY + ([SPACE] + rest);
    SplitOne(FILE_KEY, rest);
    LineEndSplits(i);
    ShownStarts(i.name);
    assert rest[0] == Shown(i.name)[0];
    assert SkipBlanks(rest) == rest;
    var r := Scanned(rest, Bare, []);
    if r.Got? && (r.rest == [SPACE] + e || r.rest == e) {
      var ts := [SEQ_KEY, Decimal(i.seqno), TYPE_KEY, [i.kind]];
      assert SplitArgs(rest) == Some([r.text] + ts);
      assert [FILE_KEY] + ([r.text] + ts) == [FILE_KEY, r.text, SEQ_KEY, Decimal(i.seqno), TYPE_KEY, [i.kind]];
    }
  }

  lemma ShownStarts(name: Bytes)
    requires |name| > 0
    ensures |Shown(name)| > 0 && !IsSpace(Shown(name)[0])
  {
    hide EscapeAll;
    if !NeedsRepr(name) { assert !Odd(name[0]); }
  }

  lemma KeysAreLower()
    ensures Lower(FILE_KEY) == FILE_KEY && Lower(SEQ_KEY) == SEQ_KEY && Lower(TYPE_KEY) == TYPE_KEY
    ensures FILE_KEY != SEQ_KEY && FILE_KEY != TYPE_KEY && SEQ_KEY != TYPE_KEY
  {
    assert FILE_KEY[0] != TYPE_KEY[0];
  }

  lemma SixArgs(name: Bytes, i: Info)
    requires i.seqno >= 1 && i.kind != 0
    ensures ParseArgs([FILE_KEY, name, SEQ_KEY, Decimal(i.seqno), TYPE_KEY, [i.kind]]) ==
      if IsBaseName(name) then Some(Info(name, i.seqno, i.kind)) else None
  {
    hide Lower, Decimal, Atoi;
    var d := Decimal(i.seqno);
    var a := [FILE_KEY, name, SEQ_KEY, d, TYPE_KEY, [i.kind]];
    KeysAreLower();
    AtoiDecimal(i.seqno, []);
    assert d + [] == d;
    assert a[2..] == [SEQ_KEY, d, TYPE_KEY, [i.kind]] && a[2..][2..] == [TYPE_KEY, [i.kind]] && [TYPE_KEY, [i.kind]][2..] == [];
    var f0 := Fields(None, 0, 0);
    var f1 := f0.(name := Some(name));
    var f2 := f1.(seqno := i.seqno);
    var f3 := f2.(kind := i.kind);
    assert ReadFields([], f3) == Some(f3);
    assert ReadFields([TYPE_KEY, [i.kind]], f2) == Some(f3);
    assert ReadFields([SEQ_KEY, d, TYPE_KEY, [i.kind]], f1) == ReadFields([TYPE_KEY, [i.kind]], f2);
  }

  /** A name that prints so that it reads back: quoted, or free of single quotes. */
  predicate QuotedOrTickless(name: Bytes) { NeedsRepr(name) || TICK !in name }

  /**
   A line reads back as the file it was printed for if and only if the name is quoted or has no single quote;
   otherwise it is refused or read as a shorter name.
   */
  lemma LineReads(i: Info)
    requires i.seqno >= 1 && Letter(i.kind) && |i.name| > 0 && IsBaseName(i.name)
    ensures var r := ParseLine(Format(i));
      && (QuotedOrTickless(i.name) ==> r == Some(i))
      && (!QuotedOrTickless(i.name) ==> r.None? || (|r.value.name| < |i.name| && r.value.seqno == i.seqno && r.value.kind == i.kind))
  {
    hide SplitArgs, ParseArgs, Decimal, Scanned, LineEnd, LineText, Format, IsBaseName;
    LineIsTrimmed(i);
    LineSplits(i);
    LineEndSplits(i);
    var e := LineEnd(i);
    var r := Scanned(Shown(i.name) + ([SPACE] + e), Bare, []);
    if NeedsRepr(i.name) {
      ReprRead(i.name, [SPACE] + e);
    } else if TICK !in i.name {
      assert BareSafe(i.name);
      BareRead(i.name, e, []);
      assert [] + i.name == i.name;
    } else {
      BareTick(i.name, e, []);
    }
    if r.Got? { SixArgs(r.text, i); }
  }

  // ------------------------------------------------------------------ the file

  /** The order of the printed lines. */
  function Lines(b: Book): seq<Info> { (if b.base.Some? then [b.base.value] else []) + b.hist + b.incrs }

  ghost predicate Printable(infos: seq<Info>) { forall i | 0 <= i < |infos| :: infos[i].seqno >= 0 }

  function PrintAll(infos: seq<Info>): Bytes
    requires Printable(infos)
  {
    if |infos| == 0 then [] else Format(infos[0]) + PrintAll(infos[1..])
  }

  /** MANIFEST_MAX_LINE */
  const MAX_LINE := 1024

  function CStr(s: Bytes): Bytes { if |s| == 0 || s[0] == 0 then [] else [s[0]] + CStr(s[1..]) }

  /** One parsed line entered into the manifest. */
  function Enter(b: Book, i: Info): Option<Book> {
    if i.kind == BASE then (if b.base.Some? then None else Some(b.(base := Some(i), baseSeq := i.seqno)))
    else if i.kind == HIST then Some(b.(hist := b.hist + [i]))
    else if i.kind == INCR then (if i.seqno <= b.incrSeq then None else Some(b.(incrs := b.incrs + [i], incrSeq := i.seqno)))
    else None
  }

  function LoadFrom(s: Bytes, b: Book, lines: nat): Option<Book>
    decreases |s|
  {
    if |s| == 0 then (if lines == 0 then None else Some(b))
    else
      var n := LineLen(s, MAX_LINE);
      var line := CStr(s[..n]);
      if s[0] == HASH then LoadFrom(s[n..], b, lines + 1)
      else if LF !in line then None
      else
        match ParseLine(line)
        case None => None
        case Some(i) =>
          match Enter(b, i)
          case None => None
          case Some(b') => LoadFrom(s[n..], b', lines + 1)
  }

  predicate AllPrint(s: Bytes) { forall i | 0 <= i < |s| :: IsPrint(s[i]) }

  lemma {:induction false} EscapesPrint(s: Bytes)
    ensures AllPrint(EscapeAll(s))
  {
    if |s| > 0 {
      EscapesPrint(s[1..]);
      assert AllPrint(Escape(s[0]));
    }
  }

  lemma LinePrints(i: Info)
    requires i.seqno >= 0 && Letter(i.kind)
    ensures AllPrint(LineText(i)) && |LineText(i)| > 0 && LineText(i)[0] == FILE_KEY[0]
  {
    hide Decimal, EscapeAll, Repr;
    EscapesPrint(i.name);
    ReprPrints(i.name);
    assert AllPrint(Shown(i.name)) by { if !NeedsRepr(i.name) { assert NoOdd(i.name); } }
    assert AllPrint(Decimal(i.seqno)) by { assert forall k | 0 <= k < |Decimal(i.seqno)| :: IsDigit(Decimal(i.seqno)[k]); }
    assert AllPrint(LineEnd(i));
  }

  lemma ReprPrints(s: Bytes)
    ensures AllPrint(Repr(s))
  {
    EscapesPrint(s);
  }

  lemma {:induction false} CStrWhole(s: Bytes)
    requires 0 !in s
    ensures CStr(s) == s
  {
    if |s| > 0 { CStrWhole(s[1..]); }
  }

  lemma {:induction false} LineTooLong(line: Bytes, tail: Bytes, room: nat)
    requires LF !in line && |line| >= room
    ensures LineLen(line + tail, room) == room
  {
    if room > 0 {
      LineTooLong(line[1..], tail, room - 1);
      assert (line + tail)[1..] == line[1..] + tail;
    }
  }

  ghost predicate Fits(i: Info) { i.seqno >= 1 && QuotedOrTickless(i.name) && |LineText(i)| < MAX_LINE }

  /** A file that can be named: listed with a letter, a positive number, and a non-empty base name. */
  predicate Proper(i: Info) { i.seqno >= 1 && Letter(i.kind) && |i.name| > 0 && IsBaseName(i.name) }

  /** Reading one printed line. */
  lemma OneLineLoads(i: Info, tail: Bytes, b: Book, lines: nat)
    requires Proper(i)
    ensures
      var r := LoadFrom(Format(i) + tail, b, lines);
      if |LineText(i)| >= MAX_LINE then r == None
      else
        var p := ParseLine(Format(i));
        r == if p.None? || Enter(b, p.value).None? then None else LoadFrom(tail, Enter(b, p.value).value, lines + 1)
  {
    hide ParseLine, LineText, Enter, CStr, IsBaseName;
    var t := LineText(i);
    var s := Format(i) + tail;
    LinePrints(i);
    assert LF !in t && 0 !in t;
    assert s[0] == t[0];
    if |t| >= MAX_LINE {
      assert s == t + ([LF] + tail);
      LineTooLong(t, [LF] + tail, MAX_LINE);
      assert s[..MAX_LINE] == t[..MAX_LINE];
      CStrWhole(t[..MAX_LINE]);
    } else {
      assert s == t + [LF] + tail;
      LineStops(t, tail, MAX_LINE);
      var n := |t| + 1;
      assert s[..n] == t + [LF] == Format(i) && s[n..] == tail;
      CStrWhole(Format(i));
      assert LF in Format(i) by { assert Format(i)[|t|] == LF; }
    }
  }

  function EnterAll(b: Book, infos: seq<Info>): Option<Book>
    decreases |infos|
  {
    if |infos| == 0 then Some(b)
    else
      match Enter(b, infos[0])
      case None => None
      case Some(b') => EnterAll(b', infos[1..])
  }

  function NameBytes(infos: seq<Info>): nat { if |infos| == 0 then 0 else |infos[0].name| + NameBytes(infos[1..]) }

  function Size(b: Book): nat { NameBytes(Lines(b)) }

  lemma {:induction false} NameBytesConcat(a: seq<Info>, b: seq<Info>)
    ensures NameBytes(a + b) == NameBytes(a) + NameBytes(b)
  {
    if |a| == 0 {
      assert a + b == b;
    } else {
      NameBytesConcat(a[1..], b);
      assert (a + b)[1..] == a[1..] + b;
    }
  }

  lemma EnterAddsName(b: Book, i: Info)
    ensures Enter(b, i).Some? ==> Size(Enter(b, i).value) == Size(b) + |i.name|
  {
    hide NameBytes;
    if Enter(b, i).Some? {
      var b' := Enter(b, i).value;
      var base, base' := if b.base.Some? then [b.base.value] else [], if b'.base.Some? then [b'.base.value] else [];
      NameBytesConcat(base, b.hist);
      NameBytesConcat(base + b.hist, b.incrs);
      NameBytesConcat(base', b'.hist);
      NameBytesConcat(base' + b'.hist, b'.incrs);
      NameBytesConcat(b.hist, [i]);
      NameBytesConcat(b.incrs, [i]);
      OneName(i);
      NoName();
    }
  }

  lemma OneName(i: Info)
    ensures NameBytes([i]) == |i.name|
  {
    assert [i][1..] == [];
  }

  lemma NoName()
    ensures NameBytes([]) == 0
  {
  }

  ghost predicate AllProper(infos: seq<Info>) { forall i | 0 <= i < |infos| :: Proper(infos[i]) }
  ghost predicate AllFit(infos: seq<Info>) { forall i | 0 <= i < |infos| :: Fits(infos[i]) }

  /** Printed lines read in order: entered as they are if all fit, else refused or with bytes lost from a name. */
  lemma {:induction false} LinesLoad(infos: seq<Info>, b: Book, lines: nat)
    requires AllProper(infos) && (lines > 0 || |infos| > 0)
    ensures
      var r := LoadFrom(PrintAll(infos), b, lines);
      && (AllFit(infos) ==> r == EnterAll(b, infos))
      && (r.Some? ==> Size(r.value) <= Size(b) + NameBytes(infos))
      && (r.Some? && !AllFit(infos) ==> Size(r.value) < Size(b) + NameBytes(infos))
    decreases |infos|
  {
    hide LoadFrom, ParseLine, LineText, Format, Enter, Size, Proper, QuotedOrTickless;
    if |infos| == 0 {
      NoLines(b, lines);
    } else {
      var i, later := infos[0], infos[1..];
      ProperLater(infos);
      ProperLine(i);
      OneLineLoads(i, PrintAll(later), b, lines);
      assert AllFit(infos) <==> Fits(i) && AllFit(later) by { FitSplits(infos); }
      if |LineText(i)| < MAX_LINE {
        var p := ParseLine(Format(i));
        if p.Some? && Enter(b, p.value).Some? {
          var b' := Enter(b, p.value).value;
          EnterAddsName(b, p.value);
          LinesLoad(later, b', lines + 1);
        }
      }
    }
  }

  lemma ProperLater(infos: seq<Info>)
    requires AllProper(infos) && |infos| > 0
    ensures Proper(infos[0]) && AllProper(infos[1..]) && Printable(infos[1..])
  {
    hide IsBaseName;
  }

  lemma NoLines(b: Book, lines: nat)
    requires lines > 0
    ensures LoadFrom([], b, lines) == Some(b)
  {
  }

  lemma FitSplits(infos: seq<Info>)
    requires |infos| > 0
    ensures AllFit(infos) <==> Fits(infos[0]) && AllFit(infos[1..])
  {
    hide Fits;
    if Fits(infos[0]) && AllFit(infos[1..]) {
      forall k | 0 <= k < |infos| ensures Fits(infos[k]) { if k > 0 { assert Fits(infos[1..][k - 1]); } }
    }
  }

  lemma ProperLine(i: Info)
    requires Proper(i)
    ensures i.seqno >= 1
    ensures var r := ParseLine(Format(i));
      && (QuotedOrTickless(i.name) ==> r == Some(i))
      && (r.Some? ==> |r.value.name| <= |i.name|)
      && (r.Some? && !QuotedOrTickless(i.name) ==> |r.value.name| < |i.name|)
  {
    hide ParseLine, Format;
    LineReads(i);
  }

  // ------------------------------------------------------------------ the round trip

  /** What a restart makes of the counters. */
  function Reloaded(b: Book): Book {
    b.(baseSeq := if b.base.Some? then b.base.value.seqno else 0,
       incrSeq := if |b.incrs| > 0 then b.incrs[|b.incrs| - 1].seqno else 0)
  }

  lemma {:induction false} EnterConcat(b: Book, a: seq<Info>, c: seq<Info>)
    ensures EnterAll(b, a + c) == match EnterAll(b, a) case None => None case Some(b') => EnterAll(b', c)
    decreases |a|
  {
    hide Enter;
    if |a| == 0 {
      assert a + c == c;
    } else {
      assert (a + c)[1..] == a[1..] + c;
      if Enter(b, a[0]).Some? { EnterConcat(Enter(b, a[0]).value, a[1..], c); }
    }
  }

  lemma {:induction false} EnterHistory(b: Book, infos: seq<Info>)
    requires forall i | 0 <= i < |infos| :: infos[i].kind == HIST
    ensures EnterAll(b, infos) == Some(b.(hist := b.hist + infos))
    decreases |infos|
  {
    if |infos| == 0 {
      assert b.hist + infos == b.hist;
    } else {
      EnterHistory(b.(hist := b.hist + [infos[0]]), infos[1..]);
      assert b.hist + [infos[0]] + infos[1..] == b.hist + infos;
    }
  }

  lemma {:induction false} EnterIncrs(b: Book, infos: seq<Info>)
    requires Rising(infos) && forall i | 0 <= i < |infos| :: infos[i].kind == INCR && infos[i].seqno > b.incrSeq
    ensures EnterAll(b, infos) ==
      Some(b.(incrs := b.incrs + infos, incrSeq := if |infos| > 0 then infos[|infos| - 1].seqno else b.incrSeq))
    decreases |infos|
  {
    if |infos| == 0 {
      assert b.incrs + infos == b.incrs;
    } else {
      EnterIncrs(b.(incrs := b.incrs + [infos[0]], incrSeq := infos[0].seqno), infos[1..]);
      assert b.incrs + [infos[0]] + infos[1..] == b.incrs + infos;
    }
  }

  lemma LinesEnter(fn: Bytes, b: Book)
    requires Good(fn, b)
    ensures EnterAll(EMPTY, Lines(b)) == Some(Reloaded(b))
  {
    hide Good, EnterAll;
    var base := if b.base.Some? then [b.base.value] else [];
    var b1 := EMPTY.(base := b.base, baseSeq := if b.base.Some? then b.base.value.seqno else 0);
    BaseEnters(fn, b, b1);
    EnterConcat(EMPTY, base, b.hist);
    EnterConcat(EMPTY, base + b.hist, b.incrs);
    GoodKinds(fn, b);
    EnterHistory(b1, b.hist);
    EnterIncrs(b1.(hist := b1.hist + b.hist), b.incrs);
    assert [] + b.hist == b.hist && [] + b.incrs == b.incrs;
  }

  lemma BaseEnters(fn: Bytes, b: Book, b1: Book)
    requires Good(fn, b) && b1 == EMPTY.(base := b.base, baseSeq := if b.base.Some? then b.base.value.seqno else 0)
    ensures EnterAll(EMPTY, if b.base.Some? then [b.base.value] else []) == Some(b1)
  {
    hide NamesBase, NamesIncr, GoodHist, GoodIncr;
    if b.base.Some? {
      assert [b.base.value][1..] == [];
      assert Enter(EMPTY, b.base.value) == Some(b1);
      assert EnterAll(b1, []) == Some(b1);
    }
  }

  lemma GoodKinds(fn: Bytes, b: Book)
    requires Good(fn, b)
    ensures forall i | 0 <= i < |b.hist| :: b.hist[i].kind == HIST
    ensures Rising(b.incrs) && forall i | 0 <= i < |b.incrs| :: b.incrs[i].kind == INCR && b.incrs[i].seqno > 0
  {
    hide NamesBase, NamesIncr;
    forall i | 0 <= i < |b.hist| ensures b.hist[i].kind == HIST { assert GoodHist(fn, b, b.hist[i]); }
    forall i | 0 <= i < |b.incrs| ensures b.incrs[i].kind == INCR && b.incrs[i].seqno > 0 {
      assert GoodIncr(fn, b, b.incrs[i]);
      IncrPositive(fn, b.incrs[i]);
    }
  }

  lemma IncrPositive(fn: Bytes, i: Info)
    ensures NamesIncr(fn, i) ==> i.seqno >= 1
    ensures NamesBase(fn, i) ==> i.seqno >= 1
  {
  }

  /** A configured file name: not empty, and not a path. */
  predicate FileName(fn: Bytes) { |fn| > 0 && IsBaseName(fn) }

  lemma NameIsProper(fn: Bytes, i: Info)
    requires FileName(fn) && (NamesBase(fn, i) || NamesIncr(fn, i)) && Letter(i.kind)
    ensures Proper(i)
  {
    hide Decimal;
    if i.name != fn {
      var d := Decimal(i.seqno);
      assert forall k | 0 <= k < |d| :: IsDigit(d[k]);
      assert 47 !in d && BACKSLASH !in d;
      assert 47 !in BASE_RDB && BACKSLASH !in BASE_RDB && 47 !in BASE_AOF && BACKSLASH !in BASE_AOF;
      assert 47 !in INCR_AOF && BACKSLASH !in INCR_AOF;
    }
  }

  lemma LinesAreProper(fn: Bytes, b: Book)
    requires Good(fn, b) && FileName(fn)
    ensures AllProper(Lines(b))
  {
    hide Proper, NamesBase, NamesIncr, FileName;
    var ls := Lines(b);
    var k := if b.base.Some? then 1 else 0;
    forall i | 0 <= i < |ls| ensures Proper(ls[i]) {
      if i >= k + |b.hist| { assert GoodIncr(fn, b, b.incrs[i - k - |b.hist|]); } else if i >= k { assert GoodHist(fn, b, b.hist[i - k]); }
      NameIsProper(fn, ls[i]);
    }
  }

  /**
   A manifest of a run is printed so that the loader accepts it and gets back the same base, history and incr
   lists, if and only if every line is short enough and every name is quoted or free of single quotes.
   */
  lemma PrintedLoads(fn: Bytes, b: Book)
    requires Good(fn, b) && FileName(fn) && |Lines(b)| > 0
    ensures AllProper(Lines(b))
    ensures LoadFrom(PrintAll(Lines(b)), EMPTY, 0) == Some(Reloaded(b)) <==> AllFit(Lines(b))
  {
    hide Good, FileName, LoadFrom, EnterAll, NameBytes, AllFit, PrintAll, Proper;
    LinesAreProper(fn, b);
    LinesEnter(fn, b);
    LinesLoad(Lines(b), EMPTY, 0);
    assert Lines(EMPTY) == [];
    NoName();
    assert Lines(Reloaded(b)) == Lines(b);
  }

  /** The name with its number and suffix keeps the property of the configured name. */
  lemma TickOfName(fn: Bytes, d: Bytes, suffix: Bytes)
    requires BareSafe(d) && BareSafe(suffix)
    ensures QuotedOrTickless(fn + [DOT] + d + suffix) <==> QuotedOrTickless(fn)
  {
    var s := fn + [DOT] + d + suffix;
    assert forall i | 0 <= i < |fn| :: s[i] == fn[i];
    assert forall i | |fn| <= i < |s| :: !Odd(s[i]) && s[i] != TICK;
    if NeedsRepr(fn) {
      var i :| 0 <= i < |fn| && Odd(fn[i]);
      assert Odd(s[i]);
    }
    assert TICK in fn ==> TICK in s;
  }

  /** So what decides is the configured file name. */
  lemma FileNameDecides(fn: Bytes, i: Info)
    requires NamesBase(fn, i) || NamesIncr(fn, i)
    ensures QuotedOrTickless(i.name) <==> QuotedOrTickless(fn)
  {
    hide Decimal, QuotedOrTickless;
    DigitsAreBare(i.seqno);
    assert BareSafe(BASE_RDB) && BareSafe(BASE_AOF) && BareSafe(INCR_AOF);
    TickOfName(fn, Decimal(i.seqno), BASE_RDB);
    TickOfName(fn, Decimal(i.seqno), BASE_AOF);
    TickOfName(fn, Decimal(i.seqno), INCR_AOF);
  }

  /** "a'b" is such a name: the server prints a manifest that it refuses to load. */
  lemma TickExample()
    ensures var fn := [97, 39, 98]; var b := NewIncr(fn, NewBase(fn, EMPTY, true));
      && Good(fn, b) && FileName(fn) && !QuotedOrTickless(fn) && AllProper(Lines(b))
      && LoadFrom(PrintAll(Lines(b)), EMPTY, 0) != Some(Reloaded(b))
  {
    hide Good, FileName, LoadFrom, PrintAll, AllProper, QuotedOrTickless, BaseName, IncrName;
    var fn: Bytes := [97, 39, 98];
    TickName();
    EmptyIsGood(fn);
    GoodNewBase(fn, EMPTY, true);
    GoodNewIncr(fn, NewBase(fn, EMPTY, true));
    var b := NewIncr(fn, NewBase(fn, EMPTY, true));
    PrintedLoads(fn, b);
    FileNameDecides(fn, b.base.value);
    assert Lines(b)[0] == b.base.value;
  }

  lemma TickName()
    ensures FileName([97, 39, 98]) && !QuotedOrTickless([97, 39, 98])
  {
    assert [97, 39, 98][1] == TICK;
  }

  // ------------------------------------------------------------------ runs with restarts

  /**
   A step of the server: it works out a changed manifest, which the process may keep (the pointer is switched) and
   which may reach the disk (the rename is done), each on its own; or the process ends and another loads the disk.
   */
  datatype Step = Step(change: Change, kept: bool, stored: bool) | Restart

  datatype Server = Server(mem: Book, disk: Book)

  ghost predicate Counted(s: Server) { s.mem.baseSeq >= 0 && s.mem.incrSeq >= 0 }

  function Next(fn: Bytes, s: Server, t: Step): Server
    requires Counted(s)
  {
    match t
    case Step(c, kept, stored) =>
      var b := Apply(fn, s.mem, c);
      Server(if kept then b else s.mem, if stored then b else s.disk)
    case Restart => Server(Reloaded(s.disk), s.disk)
  }

  ghost predicate GoodServer(fn: Bytes, s: Server) { Good(fn, s.mem) && Good(fn, s.disk) }

  lemma ReloadKeepsGood(fn: Bytes, b: Book)
    requires Good(fn, b)
    ensures Good(fn, Reloaded(b))
  {
    hide NamesBase, NamesIncr;
    var b' := Reloaded(b);
    forall i | 0 <= i < |b'.incrs| ensures GoodIncr(fn, b', b'.incrs[i]) { assert GoodIncr(fn, b, b.incrs[i]); }
    forall i | 0 <= i < |b'.hist| ensures GoodHist(fn, b', b'.hist[i]) { assert GoodHist(fn, b, b.hist[i]); }
    if |b.incrs| > 0 { GoodKinds(fn, b); }
    if b.base.Some? { IncrPositive(fn, b.base.value); }
  }

  lemma NextKeepsGood(fn: Bytes, s: Server, t: Step)
    requires GoodServer(fn, s)
    ensures Counted(s) && GoodServer(fn, Next(fn, s, t))
  {
    GoodCounts(fn, s.mem);
    hide Good, Apply, Reloaded;
    match t {
      case Step(c, _, _) => ChangeKeepsGood(fn, s.mem, c);
      case Restart => ReloadKeepsGood(fn, s.disk);
    }
  }

  lemma GoodCounts(fn: Bytes, b: Book)
    requires Good(fn, b)
    ensures b.baseSeq >= 0 && b.incrSeq >= 0
  {
  }

  /** The states of a server that starts with no manifest at all, over any number of process lives. */
  ghost predicate Reachable(fn: Bytes, s: Server, ts: seq<Step>)
    decreases |ts|
  {
    if |ts| == 0 then s == Server(EMPTY, EMPTY)
    else exists s0 :: Reachable(fn, s0, ts[..|ts| - 1]) && Counted(s0) && s == Next(fn, s0, ts[|ts| - 1])
  }

  /** Every manifest of every run, in memory and on disk, restarts included, has the shape. */
  lemma {:induction false} ReachableIsGood(fn: Bytes, s: Server, ts: seq<Step>)
    requires Reachable(fn, s, ts)
    ensures GoodServer(fn, s)
    decreases |ts|
  {
    hide Good, Next;
    if |ts| == 0 {
      EmptyIsGood(fn);
    } else {
      var s0 :| Reachable(fn, s0, ts[..|ts| - 1]) && Counted(s0) && s == Next(fn, s0, ts[|ts| - 1]);
      ReachableIsGood(fn, s0, ts[..|ts| - 1]);
      NextKeepsGood(fn, s0, ts[|ts| - 1]);
    }
  }

  /** A restart at any point of any run reads the file back as the step says, if and only if every line fits. */
  lemma RestartReadsFile(fn: Bytes, s: Server, ts: seq<Step>)
    requires Reachable(fn, s, ts) && FileName(fn) && |Lines(s.disk)| > 0
    ensures AllProper(Lines(s.disk)) && Counted(s)
    ensures LoadFrom(PrintAll(Lines(s.disk)), EMPTY, 0) == Some(Next(fn, s, Restart).mem) <==> AllFit(Lines(s.disk))
  {
    ReachableIsGood(fn, s, ts);
    GoodCounts(fn, s.mem);
    hide Good, LoadFrom, PrintAll, AllFit, AllProper, FileName, Reachable;
    PrintedLoads(fn, s.disk);
  }

  // ------------------------------------------------------------------ fresh names and deleted files

  predicate Listed(b: Book, name: Bytes) { exists i | i in Lines(b) :: i.name == name }

  /** What `aofDelHistoryFiles` unlinks, in order. */
  function Unlinked(b: Book): seq<Bytes> { seq(|b.hist|, i requires 0 <= i < |b.hist| => b.hist[i].name) }

  /** It unlinks a file that the manifest calls live. */
  ghost predicate UnlinksLive(b: Book) {
    (b.base.Some? && b.base.value.name in Unlinked(b)) || exists i | i in b.incrs :: i.name in Unlinked(b)
  }

  ghost predicate OldIncr(fn: Bytes, b: Book, h: Info) { h in b.hist && NamesIncr(fn, h) }

  lemma IncrNameIs(fn: Bytes, i: Info, n: nat)
    ensures NamesIncr(fn, i) ==> (i.name == IncrName(fn, n) <==> i.seqno == n)
    ensures NamesBase(fn, i) ==> i.name != IncrName(fn, n)
  {
    hide Decimal;
    assert BASE_RDB[1] != INCR_AOF[1] && BASE_AOF[1] != INCR_AOF[1];
    if NamesIncr(fn, i) && i.seqno != n { NamesApart(fn, i.seqno, n, INCR_AOF, INCR_AOF); }
    if NamesBase(fn, i) {
      NamesApart(fn, i.seqno, n, BASE_RDB, INCR_AOF);
      NamesApart(fn, i.seqno, n, BASE_AOF, INCR_AOF);
      assert |IncrName(fn, n)| > |fn|;
    }
  }

  lemma BaseNameIsNot(fn: Bytes, i: Info, n: nat, rdb: bool)
    ensures NamesBase(fn, i) && i.seqno != n ==> i.name != BaseName(fn, n, rdb)
    ensures NamesIncr(fn, i) ==> i.name != BaseName(fn, n, rdb)
  {
    hide Decimal;
    var suffix := if rdb then BASE_RDB else BASE_AOF;
    assert BASE_RDB[1] != INCR_AOF[1] && BASE_AOF[1] != INCR_AOF[1];
    if NamesIncr(fn, i) { NamesApart(fn, i.seqno, n, INCR_AOF, suffix); }
    if NamesBase(fn, i) && i.seqno != n {
      NamesApart(fn, i.seqno, n, BASE_RDB, suffix);
      NamesApart(fn, i.seqno, n, BASE_AOF, suffix);
      assert |BaseName(fn, n, rdb)| > |fn|;
    }
  }

  lemma LineIs(fn: Bytes, b: Book, i: Info)
    requires Good(fn, b) && i in Lines(b)
    ensures (b.base == Some(i) && NamesBase(fn, i) && i.seqno == b.baseSeq) || (i in b.incrs && GoodIncr(fn, b, i)) ||
      (i in b.hist && GoodHist(fn, b, i))
  {
    hide NamesBase, NamesIncr;
  }

  /** The next incr name is taken already if and only if an incr file of that number is still history. */
  lemma NewIncrTaken(fn: Bytes, b: Book)
    requires Good(fn, b)
    ensures b.incrSeq >= 0
    ensures Listed(b, IncrName(fn, b.incrSeq + 1)) <==> exists h :: OldIncr(fn, b, h) && h.seqno == b.incrSeq + 1
  {
    GoodCounts(fn, b);
    hide Good, IncrName, NamesBase, NamesIncr;
    forall i | i in Lines(b)
      ensures i.name == IncrName(fn, b.incrSeq + 1) <==> OldIncr(fn, b, i) && i.seqno == b.incrSeq + 1
    {
      LineIs(fn, b, i);
      IncrNameIs(fn, i, b.incrSeq + 1);
    }
    assert forall h | OldIncr(fn, b, h) :: h in Lines(b);
  }

  /** The next base name is never taken. */
  lemma NewBaseIsFresh(fn: Bytes, b: Book, rdb: bool)
    requires Good(fn, b)
    ensures b.baseSeq >= 0 && !Listed(b, BaseName(fn, b.baseSeq + 1, rdb))
  {
    GoodCounts(fn, b);
    hide Good, BaseName, NamesBase, NamesIncr;
    forall i | i in Lines(b) ensures i.name != BaseName(fn, b.baseSeq + 1, rdb) {
      LineIs(fn, b, i);
      BaseNameIsNot(fn, i, b.baseSeq + 1, rdb);
    }
  }

  lemma {:induction false} InUnlinked(b: Book, name: Bytes)
    ensures name in Unlinked(b) <==> exists h | h in b.hist :: h.name == name
  {
    if name in Unlinked(b) {
      var k :| 0 <= k < |b.hist| && Unlinked(b)[k] == name;
      assert b.hist[k] in b.hist;
    }
    forall h | h in b.hist && h.name == name ensures name in Unlinked(b) {
      var k :| 0 <= k < |b.hist| && b.hist[k] == h;
      assert Unlinked(b)[k] == name;
    }
  }

  ghost predicate Shared(fn: Bytes, b: Book, h: Info, l: Info) { OldIncr(fn, b, h) && l in b.incrs && h.seqno == l.seqno }

  lemma BaseNotUnlinked(fn: Bytes, b: Book)
    requires Good(fn, b) && b.base.Some?
    ensures b.base.value.name !in Unlinked(b)
  {
    hide NamesIncr, BaseName, IncrName;
    var name := b.base.value.name;
    InUnlinked(b, name);
    forall h | h in b.hist ensures h.name != name {
      assert GoodHist(fn, b, h);
      BaseApart(fn, b.base.value, h);
    }
  }

  lemma BaseApart(fn: Bytes, i: Info, h: Info)
    requires NamesBase(fn, i) && ((NamesBase(fn, h) && h.seqno < i.seqno) || NamesIncr(fn, h))
    ensures h.name != i.name
  {
    assert |BaseName(fn, i.seqno, true)| > |fn| && |BaseName(fn, i.seqno, false)| > |fn| && |IncrName(fn, h.seqno)| > |fn|;
    if i.name == BaseName(fn, i.seqno, true) { BaseNameIsNot(fn, h, i.seqno, true); }
    if i.name == BaseName(fn, i.seqno, false) { BaseNameIsNot(fn, h, i.seqno, false); }
  }

  /** A live file is unlinked if and only if an incr file has its number in the history as well. */
  lemma UnlinksLiveIff(fn: Bytes, b: Book)
    requires Good(fn, b)
    ensures UnlinksLive(b) <==> exists h, l :: Shared(fn, b, h, l)
  {
    hide NamesBase, NamesIncr, IncrName, Unlinked;
    if b.base.Some? { BaseNotUnlinked(fn, b); }
    forall l | l in b.incrs ensures l.name in Unlinked(b) <==> exists h :: Shared(fn, b, h, l) {
      assert GoodIncr(fn, b, l);
      SharedNames(fn, b, l);
    }
  }

  lemma SharedNames(fn: Bytes, b: Book, l: Info)
    requires Good(fn, b) && l in b.incrs && NamesIncr(fn, l)
    ensures l.name in Unlinked(b) <==> exists h :: Shared(fn, b, h, l)
  {
    hide NamesBase, Unlinked, BaseName, IncrName;
    InUnlinked(b, l.name);
    forall h | h in b.hist ensures h.name == l.name <==> Shared(fn, b, h, l) {
      assert GoodHist(fn, b, h);
      IncrNameIs(fn, h, l.seqno);
    }
    assert forall h | Shared(fn, b, h, l) :: h in b.hist;
  }

  /** No incr number of the history is live, and none is still to be given out. */
  ghost predicate Clear(fn: Bytes, b: Book) {
    forall h | OldIncr(fn, b, h) :: h.seqno <= b.incrSeq && forall l | l in b.incrs :: h.seqno != l.seqno
  }

  /** Nothing wrong yet: the next incr name is free, and deleting the history deletes no live file. */
  ghost predicate Safe(fn: Bytes, b: Book)
    requires b.incrSeq >= 0
  {
    !Listed(b, IncrName(fn, b.incrSeq + 1)) && !UnlinksLive(b)
  }

  lemma ClearIsSafe(fn: Bytes, b: Book)
    requires Good(fn, b) && Clear(fn, b)
    ensures b.incrSeq >= 0 && Safe(fn, b)
  {
    hide Good;
    NewIncrTaken(fn, b);
    UnlinksLiveIff(fn, b);
  }

  lemma ClearMark(fn: Bytes, b: Book, writing: bool)
    requires Good(fn, b) && Clear(fn, b)
    ensures Clear(fn, MarkRewritten(b, writing))
  {
    hide NamesBase, NamesIncr;
    if |b.incrs| > 0 {
      var b' := MarkRewritten(b, writing);
      var k := if writing then |b.incrs| - 1 else |b.incrs|;
      forall h | OldIncr(fn, b', h) ensures h.seqno <= b'.incrSeq && forall l | l in b'.incrs :: h.seqno != l.seqno {
        if h in b.hist {
          assert OldIncr(fn, b, h);
        } else {
          var i :| 0 <= i < k && b'.hist[i] == h;
          assert GoodIncr(fn, b, b.incrs[i]);
        }
      }
    }
  }

  lemma ClearNewIncr(fn: Bytes, b: Book)
    requires Good(fn, b) && Clear(fn, b)
    ensures Clear(fn, NewIncr(fn, b))
  {
    hide NamesBase, NamesIncr, IncrName;
    var b' := NewIncr(fn, b);
    assert forall h | OldIncr(fn, b', h) :: OldIncr(fn, b, h);
  }

  lemma ClearNewBase(fn: Bytes, b: Book, rdb: bool)
    requires Good(fn, b) && Clear(fn, b)
    ensures Clear(fn, NewBase(fn, b, rdb))
  {
    hide IncrName, BaseName;
    var b' := NewBase(fn, b, rdb);
    forall h | OldIncr(fn, b', h) ensures OldIncr(fn, b, h) {
      if h !in b.hist { IncrNameIs(fn, h, h.seqno); }
    }
  }

  lemma ChangeKeepsClear(fn: Bytes, b: Book, c: Change)
    requires Good(fn, b) && Clear(fn, b)
    ensures Clear(fn, Apply(fn, b, c))
  {
    hide NamesBase, NamesIncr;
    match c {
      case StartUp(rdb) =>
        var b1 := if b.base.None? && |b.incrs| == 0 then NewBase(fn, b, rdb) else b;
        GoodNewBase(fn, b, rdb);
        ClearNewBase(fn, b, rdb);
        ClearNewIncr(fn, b1);
      case OpenIncr => ClearNewIncr(fn, b);
      case FinishRewrite(rdb, addIncr, writing) =>
        var b1 := NewBase(fn, b, rdb);
        GoodNewBase(fn, b, rdb);
        ClearNewBase(fn, b, rdb);
        GoodNewIncr(fn, b1);
        ClearNewIncr(fn, b1);
        ClearMark(fn, if addIncr then NewIncr(fn, b1) else b1, writing);
      case DropHistory => assert forall h | OldIncr(fn, Apply(fn, b, c), h) :: OldIncr(fn, b, h);
      case Upgrade => assert forall h | OldIncr(fn, Apply(fn, b, c), h) :: OldIncr(fn, b, h);
    }
  }

  /** What a process does with its manifest after it has started. */
  function Life(fn: Bytes, b: Book, cs: seq<Change>): (r: Book)
    requires b.baseSeq >= 0 && b.incrSeq >= 0
    ensures r.baseSeq >= 0 && r.incrSeq >= 0
  {
    if |cs| == 0 then b else Apply(fn, Life(fn, b, cs[..|cs| - 1]), cs[|cs| - 1])
  }

  lemma {:induction false} LifeKeepsClear(fn: Bytes, b: Book, cs: seq<Change>)
    requires Good(fn, b) && Clear(fn, b)
    ensures b.baseSeq >= 0 && b.incrSeq >= 0 && Good(fn, Life(fn, b, cs)) && Clear(fn, Life(fn, b, cs))
    decreases |cs|
  {
    GoodCounts(fn, b);
    hide Good, Clear, Apply;
    if |cs| > 0 {
      LifeKeepsClear(fn, b, cs[..|cs| - 1]);
      ChangeKeepsGood(fn, Life(fn, b, cs[..|cs| - 1]), cs[|cs| - 1]);
      ChangeKeepsClear(fn, Life(fn, b, cs[..|cs| - 1]), cs[|cs| - 1]);
    }
  }

  function Opens(n: nat): seq<Change> { seq(n, _ => OpenIncr) }

  /** `n` rewrites that open an incr file and then fail give out the next `n` numbers. */
  lemma {:induction false} OpensCount(fn: Bytes, b: Book, n: nat)
    requires b.baseSeq >= 0 && b.incrSeq >= 0
    ensures var r := Life(fn, b, Opens(n));
      r.hist == b.hist && r.base == b.base && r.incrSeq == b.incrSeq + n && (n > 0 ==> exists l | l in r.incrs :: l.seqno == b.incrSeq + n)
  {
    hide IncrName;
    if n > 0 {
      OpensCount(fn, b, n - 1);
      assert Opens(n)[..n - 1] == Opens(n - 1);
      var r0, r := Life(fn, b, Opens(n - 1)), Life(fn, b, Opens(n));
      assert r == NewIncr(fn, r0);
      assert r.incrs[|r.incrs| - 1].seqno == b.incrSeq + n;
    }
  }

  lemma {:induction false} OpensKeepGood(fn: Bytes, b: Book, n: nat)
    requires Good(fn, b)
    ensures b.baseSeq >= 0 && b.incrSeq >= 0 && Good(fn, Life(fn, b, Opens(n)))
  {
    GoodCounts(fn, b);
    hide Good, Apply;
    if n > 0 {
      OpensKeepGood(fn, b, n - 1);
      assert Opens(n)[..n - 1] == Opens(n - 1);
      ChangeKeepsGood(fn, Life(fn, b, Opens(n - 1)), OpenIncr);
    }
  }

  /** Otherwise the process may come to a manifest under which deleting the history deletes a live file. */
  lemma UnclearGoesWrong(fn: Bytes, b: Book, h: Info)
    requires Good(fn, b) && OldIncr(fn, b, h) && (h.seqno > b.incrSeq || exists l | l in b.incrs :: h.seqno == l.seqno)
    ensures b.baseSeq >= 0 && b.incrSeq >= 0
    ensures exists cs :: UnlinksLive(Life(fn, b, cs))
  {
    GoodCounts(fn, b);
    hide Good, NamesBase, NamesIncr, UnlinksLive, Life;
    var n := if h.seqno > b.incrSeq then h.seqno - b.incrSeq else 0;
    OpensKeepGood(fn, b, n);
    OpensCount(fn, b, n);
    var r := Life(fn, b, Opens(n));
    UnlinksLiveIff(fn, r);
    LifeNone(fn, b);
    assert Opens(0) == [];
    var l :| l in r.incrs && l.seqno == h.seqno;
    assert Shared(fn, r, h, l);
  }

  lemma LifeNone(fn: Bytes, b: Book)
    requires b.baseSeq >= 0 && b.incrSeq >= 0
    ensures Life(fn, b, []) == b
  {
  }

  /**
   Whatever manifest a process starts from: every later incr name is free and no deletion of history ever hits a live
   file, if and only if no incr file of the history has a live number or one still to be given out.
   */
  lemma SafeForeverIff(fn: Bytes, b: Book)
    requires Good(fn, b)
    ensures b.baseSeq >= 0 && b.incrSeq >= 0
    ensures (forall cs :: Safe(fn, Life(fn, b, cs))) <==> Clear(fn, b)
  {
    GoodCounts(fn, b);
    hide Good, Life, Safe, NamesIncr;
    if Clear(fn, b) {
      forall cs ensures Safe(fn, Life(fn, b, cs)) {
        LifeKeepsClear(fn, b, cs);
        ClearIsSafe(fn, Life(fn, b, cs));
      }
    } else {
      var h :| OldIncr(fn, b, h) && (h.seqno > b.incrSeq || exists l | l in b.incrs :: h.seqno == l.seqno);
      UnclearGoesWrong(fn, b, h);
      var cs :| UnlinksLive(Life(fn, b, cs));
      NotSafe(fn, Life(fn, b, cs));
    }
  }

  lemma NotSafe(fn: Bytes, b: Book)
    requires b.incrSeq >= 0 && UnlinksLive(b)
    ensures !Safe(fn, b)
  {
  }

  /** A restart that forgets nothing: an incr file is live, or the history lists none. */
  ghost predicate SafeRestart(fn: Bytes, b: Book) { |b.incrs| > 0 || forall h | h in b.hist :: !NamesIncr(fn, h) }

  /**
   Nothing goes wrong in the process that loads a manifest left by one where nothing could, if and only if the
   manifest lists a live incr file or no incr file in its history.
   */
  lemma RestartIsSafeIff(fn: Bytes, b: Book)
    requires Good(fn, b) && Clear(fn, b)
    ensures var r := Reloaded(b);
      r.baseSeq >= 0 && r.incrSeq >= 0 && ((forall cs :: Safe(fn, Life(fn, r, cs))) <==> SafeRestart(fn, b))
  {
    ReloadKeepsGood(fn, b);
    ReloadClearIff(fn, b);
    hide Good, Life, Safe, Clear, Reloaded, SafeRestart;
    SafeForeverIff(fn, Reloaded(b));
  }

  lemma ReloadClearIff(fn: Bytes, b: Book)
    requires Good(fn, b) && Clear(fn, b)
    ensures Clear(fn, Reloaded(b)) <==> SafeRestart(fn, b)
  {
    hide NamesBase, NamesIncr;
    var r := Reloaded(b);
    assert forall h :: OldIncr(fn, r, h) <==> OldIncr(fn, b, h);
    if |b.incrs| == 0 {
      forall h | h in b.hist && NamesIncr(fn, h) ensures !Clear(fn, r) {
        IncrPositive(fn, h);
        assert OldIncr(fn, r, h);
      }
    }
  }

  /** Every restart of the run was safe. */
  ghost predicate SafeRun(fn: Bytes, s: Server, ts: seq<Step>)
    decreases |ts|
  {
    if |ts| == 0 then s == Server(EMPTY, EMPTY)
    else
      exists s0 ::
        && SafeRun(fn, s0, ts[..|ts| - 1]) && Counted(s0) && s == Next(fn, s0, ts[|ts| - 1])
        && (ts[|ts| - 1].Restart? ==> SafeRestart(fn, s0.disk))
  }

  /** Over any number of lives: while the restarts are safe, names are fresh and no live file is ever unlinked. */
  lemma {:induction false} SafeRunIsSafe(fn: Bytes, s: Server, ts: seq<Step>)
    requires SafeRun(fn, s, ts)
    ensures GoodServer(fn, s) && Clear(fn, s.mem) && Clear(fn, s.disk)
    ensures Counted(s) && Safe(fn, s.mem)
    decreases |ts|
  {
    if |ts| == 0 {
      EmptyIsGood(fn);
    } else {
      hide Good, Next, Clear, Safe, SafeRestart;
      var s0 :| SafeRun(fn, s0, ts[..|ts| - 1]) && Counted(s0) && s == Next(fn, s0, ts[|ts| - 1])
        && (ts[|ts| - 1].Restart? ==> SafeRestart(fn, s0.disk));
      SafeRunIsSafe(fn, s0, ts[..|ts| - 1]);
      NextKeepsGood(fn, s0, ts[|ts| - 1]);
      NextKeepsClear(fn, s0, ts[|ts| - 1]);
      GoodCounts(fn, s.mem);
    }
    ClearIsSafe(fn, s.mem);
  }

  lemma NextKeepsClear(fn: Bytes, s: Server, t: Step)
    requires Counted(s) && GoodServer(fn, s) && Clear(fn, s.mem) && Clear(fn, s.disk)
    requires t.Restart? ==> SafeRestart(fn, s.disk)
    ensures Clear(fn, Next(fn, s, t).mem) && Clear(fn, Next(fn, s, t).disk)
  {
    hide Good, Clear, Apply, Reloaded, SafeRestart;
    match t {
      case Step(c, _, _) => ChangeKeepsClear(fn, s.mem, c);
      case Restart => ReloadClearIff(fn, s.disk);
    }
  }

  lemma ReachedNext(fn: Bytes, s: Server, ts: seq<Step>, k: nat)
    requires k < |ts| && Reachable(fn, s, ts[..k]) && Counted(s)
    ensures Reachable(fn, Next(fn, s, ts[k]), ts[..k + 1])
  {
    hide Next;
    assert ts[..k + 1][..k] == ts[..k];
  }

  function Done(c: Change): Step { Step(c, true, true) }

  function BaseInfo(fn: Bytes, n: nat, kind: byte): Info { Info(BaseName(fn, n, true), n, kind) }
  function IncrInfo(fn: Bytes, n: nat, kind: byte): Info { Info(IncrName(fn, n), n, kind) }

  /**
   Under every file name: a rewrite finishes with AOF off, the process ends before the history is deleted, and the
   next one starts with AOF on. Its only incr file is then the first in the history that it deletes.
   */
  lemma LiveFileUnlinked(fn: Bytes)
    ensures
      var ts := [Done(StartUp(true)), Done(FinishRewrite(true, false, false)), Restart, Done(StartUp(true))];
      exists s :: Reachable(fn, s, ts) && |s.mem.incrs| == 1 && |s.mem.hist| == 2 &&
        Unlinked(s.mem)[0] == s.mem.incrs[0].name && UnlinksLive(s.mem)
  {
    hide BaseName, IncrName, Reachable;
    var ts := [Done(StartUp(true)), Done(FinishRewrite(true, false, false)), Restart, Done(StartUp(true))];
    var s0 := Server(EMPTY, EMPTY);
    var s1 := Next(fn, s0, ts[0]);
    var s2 := Next(fn, s1, ts[1]);
    var s3 := Next(fn, s2, ts[2]);
    var s4 := Next(fn, s3, ts[3]);
    assert s1.mem == Book(Some(BaseInfo(fn, 1, BASE)), [IncrInfo(fn, 1, INCR)], [], 1, 1);
    assert s2.mem == Book(Some(BaseInfo(fn, 2, BASE)), [], [IncrInfo(fn, 1, HIST), BaseInfo(fn, 1, HIST)], 2, 1);
    assert s4.mem == Book(Some(BaseInfo(fn, 2, BASE)), [IncrInfo(fn, 1, INCR)], [IncrInfo(fn, 1, HIST), BaseInfo(fn, 1, HIST)], 2, 1);
    StartReached(fn, ts);
    ReachedNext(fn, s0, ts, 0);
    ReachedNext(fn, s1, ts, 1);
    ReachedNext(fn, s2, ts, 2);
    ReachedNext(fn, s3, ts, 3);
    assert ts[..4] == ts;
    assert s4.mem.incrs[0] in s4.mem.incrs && Unlinked(s4.mem)[0] == s4.mem.incrs[0].name;
  }

  lemma StartReached(fn: Bytes, ts: seq<Step>)
    ensures Reachable(fn, Server(EMPTY, EMPTY), ts[..0])
  {
  }

  /** The manifest on disk when a second rewrite has finished with AOF off, the history of the first being gone. */
  function SecondOff(fn: Bytes): Book {
    Book(Some(BaseInfo(fn, 3, BASE)), [], [IncrInfo(fn, 2, HIST), BaseInfo(fn, 2, HIST)], 3, 2)
  }

  const SECOND_OFF: seq<Step> := [Done(StartUp(true)), Done(OpenIncr), Done(FinishRewrite(true, false, true)),
    Done(DropHistory), Done(DropHistory), Done(FinishRewrite(true, false, false))]

  lemma SecondOffReached(fn: Bytes)
    ensures Reachable(fn, Server(SecondOff(fn), SecondOff(fn)), SECOND_OFF)
  {
    hide BaseName, IncrName, Reachable;
    var ts := SECOND_OFF;
    var s0 := Server(EMPTY, EMPTY);
    var s1 := Next(fn, s0, ts[0]);
    var s2 := Next(fn, s1, ts[1]);
    var s3 := Next(fn, s2, ts[2]);
    assert s1.mem == Book(Some(BaseInfo(fn, 1, BASE)), [IncrInfo(fn, 1, INCR)], [], 1, 1);
    assert s3.mem == Book(Some(BaseInfo(fn, 2, BASE)), [IncrInfo(fn, 2, INCR)], [IncrInfo(fn, 1, HIST), BaseInfo(fn, 1, HIST)], 2, 2);
    var s4 := Next(fn, s3, ts[3]);
    var s5 := Next(fn, s4, ts[4]);
    assert s5.mem == Book(Some(BaseInfo(fn, 2, BASE)), [IncrInfo(fn, 2, INCR)], [], 2, 2);
    assert Next(fn, s5, ts[5]).mem == SecondOff(fn);
    StartReached(fn, ts);
    ReachedNext(fn, s0, ts, 0);
    ReachedNext(fn, s1, ts, 1);
    ReachedNext(fn, s2, ts, 2);
    ReachedNext(fn, s3, ts, 3);
    ReachedNext(fn, s4, ts, 4);
    ReachedNext(fn, s5, ts, 5);
    assert ts[..6] == ts;
  }

  /** There the first incr name of the next process is free, and the second is the one that its history lists. */
  lemma SecondNameTaken(fn: Bytes)
    ensures
      var r := Reloaded(SecondOff(fn));
      && !Listed(r, IncrName(fn, r.incrSeq + 1))
      && var b := Life(fn, r, [StartUp(true), OpenIncr]);
        |b.incrs| == 2 && |b.hist| == 2 && Unlinked(b)[0] == b.incrs[1].name && UnlinksLive(b)
  {
    hide BaseName, IncrName;
    var r := Reloaded(SecondOff(fn));
    IncrNameIs(fn, IncrInfo(fn, 2, HIST), 1);
    IncrNameIs(fn, BaseInfo(fn, 2, HIST), 1);
    IncrNameIs(fn, BaseInfo(fn, 3, BASE), 1);
    NamesOfInfos(fn, 2);
    NamesOfInfos(fn, 3);
    assert Lines(r) == [BaseInfo(fn, 3, BASE), IncrInfo(fn, 2, HIST), BaseInfo(fn, 2, HIST)];
    var cs := [StartUp(true), OpenIncr];
    assert cs[..1] == [StartUp(true)] && cs[..1][..0] == [];
    var b := Life(fn, r, cs);
    assert Life(fn, r, cs[..1]) == Apply(fn, r, StartUp(true));
    assert b.incrs[1] in b.incrs && Unlinked(b)[0] == b.incrs[1].name;
  }

  lemma NamesOfInfos(fn: Bytes, n: nat)
    requires n >= 1
    ensures forall k :: NamesBase(fn, BaseInfo(fn, n, k)) && NamesIncr(fn, IncrInfo(fn, n, k))
  {
  }

  // ------------------------------------------------------------------ the object

  /** `aofManifest` */
  class Manifest {
    var base: Option<Info>
    var incrs: seq<Info>
    var hist: seq<Info>
    var baseSeq: nat
    var incrSeq: nat
    var dirty: bool

    constructor ()
      ensures Value() == EMPTY && !dirty
    {
      base, incrs, hist, baseSeq, incrSeq, dirty := None, [], [], 0, 0, false;
    }

    function Value(): Book
      reads this
    {
      Book(base, incrs, hist, baseSeq, incrSeq)
    }

    method GetNewBaseFileNameAndMarkPreAsHistory(fn: Bytes, rdb: bool) returns (name: Bytes)
      modifies this
      ensures Value() == NewBase(fn, old(Value()), rdb) && dirty
      ensures base.Some? && name == base.value.name
    {
      if base.Some? { hist := [base.value.(kind := HIST)] + hist; }
      baseSeq := baseSeq + 1;
      name := BaseName(fn, baseSeq, rdb);
      base, dirty := Some(Info(name, baseSeq, BASE)), true;
    }

    method GetNewIncrAofName(fn: Bytes) returns (name: Bytes)
      modifies this
      ensures Value() == NewIncr(fn, old(Value())) && dirty
      ensures name == IncrName(fn, incrSeq)
    {
      incrSeq := incrSeq + 1;
      name := IncrName(fn, incrSeq);
      incrs, dirty := incrs + [Info(name, incrSeq, INCR)], true;
    }

    method GetLastIncrAofName(fn: Bytes) returns (name: Bytes)
      modifies this
      ensures Value() == if |old(incrs)| == 0 then NewIncr(fn, old(Value())) else old(Value())
      ensures |incrs| > 0 && name == incrs[|incrs| - 1].name
    {
      if |incrs| == 0 { name := GetNewIncrAofName(fn); } else { name := incrs[|incrs| - 1].name; }
    }

    /** From the tail of the list, each file put at the head of the history. */
    method MarkRewrittenIncrAofAsHistory(writing: bool)
      modifies this
      ensures Value() == MarkRewritten(old(Value()), writing)
    {
      if |incrs| == 0 { return; }
      ghost var all, hist0 := incrs, hist;
      var k := if writing then |incrs| - 1 else |incrs|;
      var kept := incrs[k..];
      ghost var end := k;
      while k > 0
        invariant 0 <= k <= end && incrs == all[..k] + kept && kept == all[end..]
        invariant hist == AsHistory(all[k..end]) + hist0
        invariant base == old(base) && baseSeq == old(baseSeq) && incrSeq == old(incrSeq)
      {
        k := k - 1;
        hist := [incrs[k].(kind := HIST)] + hist;
        incrs := incrs[..k] + incrs[k + 1..];
        assert AsHistory(all[k..end]) == [all[k].(kind := HIST)] + AsHistory(all[k + 1..end]);
      }
      assert all[..end] == all[0..end];
      dirty := true;
    }

    /** `getAofManifestAsString` */
    method AsString() returns (buf: Bytes)
      requires Printable(Lines(Value()))
      ensures buf == PrintAll(Lines(Value()))
    {
      hide Format, PrintAll;
      ghost var first := if base.Some? then [base.value] else [];
      PrintableParts(first, hist, incrs);
      buf := AppendLines([], if base.Some? then [base.value] else []);
      buf := AppendLines(buf, hist);
      buf := AppendLines(buf, incrs);
      PrintConcat(first, hist);
      PrintConcat(first + hist, incrs);
      assert [] + PrintAll(first) == PrintAll(first);
    }

    /** `aofDelHistoryFiles`: the files to unlink, in order. */
    method DelHistoryFiles() returns (unlinked: seq<Bytes>)
      requires forall i | 0 <= i < |hist| :: hist[i].kind == HIST
      modifies this
      ensures Value() == old(Value()).(hist := [])
      ensures unlinked == Unlinked(old(Value()))
    {
      ghost var all := hist;
      unlinked := [];
      while |hist| > 0
        invariant |unlinked| + |hist| == |all| && hist == all[|unlinked|..]
        invariant forall i | 0 <= i < |unlinked| :: unlinked[i] == all[i].name
        invariant base == old(base) && incrs == old(incrs) && baseSeq == old(baseSeq) && incrSeq == old(incrSeq)
      {
        unlinked := unlinked + [hist[0].name];
        hist := hist[1..];
      }
      assert unlinked == Unlinked(old(Value()));
      dirty := true;
    }
  }

  lemma PrintableParts(a: seq<Info>, b: seq<Info>, c: seq<Info>)
    requires Printable(a + b + c)
    ensures Printable(a) && Printable(b) && Printable(c) && Printable(a + b)
  {
    assert forall i | 0 <= i < |a + b| :: (a + b + c)[i] == (a + b)[i];
    assert forall i | 0 <= i < |a| :: (a + b)[i] == a[i];
    assert forall i | 0 <= i < |b| :: (a + b)[|a| + i] == b[i];
    assert forall i | 0 <= i < |c| :: (a + b + c)[|a + b| + i] == c[i];
  }

  lemma {:induction false} PrintConcat(a: seq<Info>, b: seq<Info>)
    requires Printable(a) && Printable(b)
    ensures Printable(a + b) && PrintAll(a + b) == PrintAll(a) + PrintAll(b)
    decreases |a|
  {
    hide Format;
    if |a| == 0 {
      assert a + b == b;
    } else {
      PrintConcat(a[1..], b);
      assert (a + b)[1..] == a[1..] + b;
    }
  }

  /** One of the three loops of `getAofManifestAsString`. */
  method AppendLines(buf0: Bytes, infos: seq<Info>) returns (buf: Bytes)
    requires Printable(infos)
    ensures buf == buf0 + PrintAll(infos)
  {
    hide Format;
    buf := buf0;
    for j := 0 to |infos|
      invariant buf == buf0 + PrintAll(infos[..j])
    {
      assert infos[..j + 1] == infos[..j] + [infos[j]];
      PrintConcat(infos[..j], [infos[j]]);
      assert [infos[j]][1..] == [];
      assert PrintAll([infos[j]]) == Format(infos[j]) + [];
      Assoc(buf0, PrintAll(infos[..j]), Format(infos[j]));
      buf := buf + Format(infos[j]);
    }
    assert infos[..|infos|] == infos;
  }

  /** `aofLoadManifestFromFile` on the bytes of the file; None is every fatal error. */
  method LoadManifestFromFile(data: Bytes) returns (r: Option<Book>)
    ensures r == LoadFrom(data, EMPTY, 0)
  {
    hide ParseLine, CStr;
    var pos, lines, maxseq := 0, 0, 0;
    var am := EMPTY;
    assert data[0..] == data;
    while true
      invariant 0 <= pos <= |data| && lines >= 0 && maxseq == am.incrSeq
      invariant LoadFrom(data[pos..], am, lines) == LoadFrom(data, EMPTY, 0)
      decreases |data| - pos
    {
      var s := data[pos..];
      if |s| == 0 { return if lines == 0 then None else Some(am); }
      var n := LineLen(s, MAX_LINE);
      assert s[n..] == data[pos + n..];
      var line := CStr(s[..n]);
      if s[0] == HASH { pos, lines := pos + n, lines + 1; continue; }
      if LF !in line { return None; }
      var parsed := ParseLine(line);
      if parsed.None? { return None; }
      var ai := parsed.value;
      if ai.kind == BASE {
        if am.base.Some? { return None; }
        am := am.(base := Some(ai), baseSeq := ai.seqno);
      } else if ai.kind == HIST {
        am := am.(hist := am.hist + [ai]);
      } else if ai.kind == INCR {
        if ai.seqno <= maxseq { return None; }
        am := am.(incrs := am.incrs + [ai], incrSeq := ai.seqno);
        maxseq := ai.seqno;
      } else {
        return None;
      }
      pos, lines := pos + n, lines + 1;
    }
  }
}
