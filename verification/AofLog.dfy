/**
 The append-only log (aof.c): how commands are written into it, and how the loader reads it back,
 byte by byte.
 */
module AofLog {

  type byte = b: int | 0 <= b < 256
  type Bytes = seq<byte>

  /** A command as its argument vector. */
  type Argv = seq<Bytes>

  const STAR: byte := 42
  const DOLLAR: byte := 36
  const HASH: byte := 35
  const CR: byte := 13
  const LF: byte := 10
  const ZERO: byte := 48
  const CRLF: Bytes := [13, 10]

  /** AOF_ANNOTATION_LINE_MAX_LEN: fgets takes one byte less. */
  const LINE_MAX := 1024

  // ------------------------------------------------------------------ numbers

  predicate IsDigit(b: byte) { 48 <= b <= 57 }

  /** ll2string on a number that is not negative. */
  function Decimal(n: nat): (s: Bytes)
    ensures |s| > 0 && forall i | 0 <= i < |s| :: IsDigit(s[i])
  {
    if n < 10 then [ZERO + n] else Decimal(n / 10) + [ZERO + n % 10]
  }

  /** The digits at the front of `s`, read after the digits of `acc`. */
  function Scan(s: Bytes, acc: nat): nat {
    if |s| == 0 || !IsDigit(s[0]) then acc else Scan(s[1..], 10 * acc + (s[0] - 48))
  }

  predicate IsSpace(b: byte) { b == 32 || 9 <= b <= 13 }

  /** atoi and strtol, without their overflow. */
  function Atoi(s: Bytes): int {
    if |s| == 0 then 0
    else if IsSpace(s[0]) then Atoi(s[1..])
    else if s[0] == 45 then -(Scan(s[1..], 0) as int)
    else if s[0] == 43 then Scan(s[1..], 0)
    else Scan(s, 0)
  }

  lemma {:induction false} ScanDecimal(n: nat, tail: Bytes)
    ensures Scan(Decimal(n) + tail, 0) == Scan(tail, n)
  {
    if n < 10 {
      assert (Decimal(n) + tail)[1..] == tail;
    } else {
      var d: byte := ZERO + n % 10;
      ScanDecimal(n / 10, [d] + tail);
      assert Decimal(n) + tail == Decimal(n / 10) + ([d] + tail);
      assert ([d] + tail)[1..] == tail;
    }
  }

  lemma AtoiDecimal(n: nat, tail: Bytes)
    requires |tail| > 0 ==> !IsDigit(tail[0])
    ensures Atoi(Decimal(n) + tail) == n
  {
    ScanDecimal(n, tail);
    assert (Decimal(n) + tail)[0] == Decimal(n)[0];
  }

  /** The numbers of the source are machine words, so their text is short. */
  lemma {:induction false} DecimalIsShort(n: nat, k: nat)
    requires n < Power10(k) && k > 0
    ensures |Decimal(n)| <= k
  {
    if n >= 10 {
      assert Power10(k) == 10 * Power10(k - 1) && Power10(0) == 1;
      DecimalIsShort(n / 10, k - 1);
    }
  }

  function Power10(k: nat): nat { if k == 0 then 1 else 10 * Power10(k - 1) }

  // ------------------------------------------------------------------ writing

  function Bulk(s: Bytes): Bytes { [DOLLAR] + Decimal(|s|) + CRLF + s + CRLF }

  function Bulks(argv: Argv): Bytes {
    if |argv| == 0 then [] else Bulk(argv[0]) + Bulks(argv[1..])
  }

  function Header(n: nat): Bytes { [STAR] + Decimal(n) + CRLF }

  /** A command in the log. */
  function Encode(argv: Argv): Bytes { Header(|argv|) + Bulks(argv) }

  lemma {:induction false} BulksConcat(a: Argv, b: Argv)
    ensures Bulks(a + b) == Bulks(a) + Bulks(b)
  {
    hide Bulk, Bulks;
    if |a| == 0 {
      assert a + b == b && a[..0] == a;
      BulksNone(a);
    } else {
      BulksConcat(a[1..], b);
      BulksFirst(a);
      BulksFirst(a + b);
      assert (a + b)[0] == a[0] && (a + b)[1..] == a[1..] + b;
      Assoc(Bulk(a[0]), Bulks(a[1..]), Bulks(b));
    }
  }

  /** `catAppendOnlyGenericCommand` */
  method CatAppendOnlyGenericCommand(dst0: Bytes, argv: Argv) returns (dst: Bytes)
    ensures dst == dst0 + Encode(argv)
  {
    hide Bulks;
    dst := dst0 + Header(|argv|);
    ghost var start := dst;
    BulksNone(argv);
    for j := 0 to |argv|
      invariant dst == start + Bulks(argv[..j])
    {
      var o := argv[j];
      ghost var before := dst;
      dst := dst + ([DOLLAR] + Decimal(|o|) + CRLF);
      dst := dst + o;
      dst := dst + CRLF;
      OneBulk(before, o, dst);
      BulksGrow(argv, j);
      assert (start + Bulks(argv[..j])) + Bulk(o) == start + (Bulks(argv[..j]) + Bulk(o));
    }
    assert argv[..|argv|] == argv;
  }

  lemma BulksNone(argv: Argv)
    ensures Bulks(argv[..0]) == []
  {
  }

  lemma OneBulk(before: Bytes, o: Bytes, after: Bytes)
    requires after == before + ([DOLLAR] + Decimal(|o|) + CRLF) + o + CRLF
    ensures after == before + Bulk(o)
  {
  }

  lemma BulksGrow(argv: Argv, j: nat)
    requires j < |argv|
    ensures Bulks(argv[..j + 1]) == Bulks(argv[..j]) + Bulk(argv[j])
  {
    hide Bulk;
    assert argv[..j + 1] == argv[..j] + [argv[j]];
    BulksConcat(argv[..j], [argv[j]]);
    assert Bulks([argv[j]]) == Bulk(argv[j]) + Bulks([argv[j]][1..]);
  }

  // ------------------------------------------------------------------ reading

  /** How many bytes fgets takes: up to and including the next newline, at most `room`. */
  function LineLen(s: Bytes, room: nat): (n: nat)
    ensures n <= |s| && n <= room
    ensures |s| > 0 && room > 0 ==> n > 0
  {
    if |s| == 0 || room == 0 then 0
    else if s[0] == LF then 1
    else 1 + LineLen(s[1..], room - 1)
  }

  function Line(s: Bytes): (n: nat)
    ensures n <= |s| && (|s| > 0 ==> n > 0)
  {
    LineLen(s, LINE_MAX - 1)
  }

  /** fgets ran into the end of the file: no newline and room left. */
  predicate HitEof(s: Bytes) {
    Line(s) == |s| && Line(s) < LINE_MAX - 1 && (|s| == 0 || s[|s| - 1] != LF)
  }

  /** What the loader finds at the front of the rest of the file. */
  datatype Item =
    | EndOfFile
    | Annotation(used: nat)
    | Command(argv: Argv, used: nat)
    | FormatError
    | ReadError(eof: bool)
    | Abort // sdsnewlen on a negative length

  function ReadArgs(s: Bytes, k: nat, argv: Argv, used: nat): (r: Item)
    ensures !r.Annotation? && !r.EndOfFile?
    decreases k
  {
    if k == 0 then Command(argv, used)
    else if |s| == 0 then ReadError(true)
    else if s[0] != DOLLAR then FormatError
    else
      var n := Line(s);
      var len := Atoi(s[1..n]);
      if len < 0 then Abort
      else if |s| < n + len then ReadError(true)
      else if |s| < n + len + 2 then ReadError(true)
      else ReadArgs(s[n + len + 2..], k - 1, argv + [s[n..n + len]], used + n + len + 2)
  }

  function NextItem(s: Bytes): Item {
    if |s| == 0 then EndOfFile
    else
      var n := Line(s);
      if s[0] == HASH then Annotation(n)
      else if s[0] != STAR then FormatError
      else if n == 1 || s[1] == 0 then ReadError(HitEof(s))
      else
        var argc := Atoi(s[1..n]);
        if argc < 1 then FormatError else ReadArgs(s[n..], argc, [], n)
  }

  lemma {:induction false} ReadArgsUses(s: Bytes, k: nat, argv: Argv, used: nat)
    ensures ReadArgs(s, k, argv, used).Command? ==> used <= ReadArgs(s, k, argv, used).used <= used + |s|
    decreases k
  {
    hide Atoi, Line;
    if k > 0 && |s| > 0 && s[0] == DOLLAR {
      var n := Line(s);
      var len := Atoi(s[1..n]);
      if 0 <= len && n + len + 2 <= |s| {
        ReadArgsUses(s[n + len + 2..], k - 1, argv + [s[n..n + len]], used + n + len + 2);
      }
    }
  }

  lemma ItemsAdvance(s: Bytes)
    ensures NextItem(s).Command? ==> 0 < NextItem(s).used <= |s|
    ensures NextItem(s).Annotation? ==> 0 < NextItem(s).used <= |s|
  {
    hide Atoi, Line, ReadArgs;
    if |s| > 0 {
      var n := Line(s);
      if s[0] == STAR && n > 1 && Atoi(s[1..n]) >= 1 { ReadArgsUses(s[n..], Atoi(s[1..n]), [], n); }
    }
  }

  // ------------------------------------------------------------------ one item of a well-formed log

  lemma {:induction false} LineStops(line: Bytes, tail: Bytes, room: nat)
    requires forall i | 0 <= i < |line| :: line[i] != LF
    requires |line| < room
    ensures LineLen(line + [LF] + tail, room) == |line| + 1
  {
    var s := line + [LF] + tail;
    if |line| > 0 {
      LineStops(line[1..], tail, room - 1);
      assert s[1..] == line[1..] + [LF] + tail;
    }
  }

  lemma {:induction false} LineRunsOut(line: Bytes, room: nat)
    requires forall i | 0 <= i < |line| :: line[i] != LF
    requires |line| <= room
    ensures LineLen(line, room) == |line|
  {
    if |line| > 0 { LineRunsOut(line[1..], room - 1); }
  }

  /** A number the loader can read back: its text fits a line. */
  predicate Readable(n: nat) { |Decimal(n)| < LINE_MAX - 10 }

  /** "*3\r\n" or "$3\r\n" followed by anything: the line and its number. */
  lemma NumberLine(mark: byte, n: nat, tail: Bytes)
    requires mark != LF && Readable(n)
    ensures var s := [mark] + Decimal(n) + CRLF + tail;
      Line(s) == |Decimal(n)| + 3 && s[0] == mark && Atoi(s[1..Line(s)]) == n && s[1] == Decimal(n)[0]
  {
    var text := [mark] + Decimal(n) + [CR];
    var s := [mark] + Decimal(n) + CRLF + tail;
    assert s == text + [LF] + tail;
    LineStops(text, tail, LINE_MAX - 1);
    assert s[1..Line(s)] == Decimal(n) + CRLF;
    AtoiDecimal(n, CRLF);
  }

  ghost predicate ReadableArgv(argv: Argv) {
    |argv| > 0 && Readable(|argv|) && forall a | a in argv :: Readable(|a|)
  }

  lemma BulkRead(a: Bytes, tail: Bytes, k: nat, argv: Argv, used: nat)
    requires Readable(|a|) && k > 0
    ensures ReadArgs(Bulk(a) + tail, k, argv, used) == ReadArgs(tail, k - 1, argv + [a], used + |Bulk(a)|)
  {
    hide *;
    var s := Bulk(a) + tail;
    BulkParts(a, tail);
    ReadOneArg(s, |a|, k, argv, used);
  }

  /** Where the line ends, the argument stands and the rest begins. */
  lemma BulkParts(a: Bytes, tail: Bytes)
    requires Readable(|a|)
    ensures var s := Bulk(a) + tail; var n := Line(s);
      && |s| == n + |a| + 2 + |tail| && n + |a| + 2 == |Bulk(a)| && 1 <= n && s[0] == DOLLAR && Atoi(s[1..n]) == |a|
      && s[n..n + |a|] == a && s[n + |a| + 2..] == tail
  {
    hide Decimal, Atoi, Line, Readable;
    var s, rest := Bulk(a) + tail, a + CRLF + tail;
    assert s == [DOLLAR] + Decimal(|a|) + CRLF + rest;
    NumberLine(DOLLAR, |a|, rest);
    var n := Line(s);
    assert s[n..] == rest;
    assert s[n..n + |a|] == rest[..|a|];
    assert s[n + |a| + 2..] == rest[|a| + 2..];
  }

  lemma ReadOneArg(s: Bytes, len: nat, k: nat, argv: Argv, used: nat)
    requires k > 0 && |s| > 0 && s[0] == DOLLAR && 1 <= Line(s) && Line(s) + len + 2 <= |s| && Atoi(s[1..Line(s)]) == len
    ensures var n := Line(s);
      ReadArgs(s, k, argv, used) == ReadArgs(s[n + len + 2..], k - 1, argv + [s[n..n + len]], used + (n + len + 2))
  {
    hide Line, Atoi;
  }

  lemma ReadNoArgs(s: Bytes, done: Argv, used: nat)
    ensures ReadArgs(s, 0, done, used) == Command(done, used)
  {
  }

  lemma {:induction false} BulksRead(argv: Argv, tail: Bytes, done: Argv, used: nat)
    requires forall a | a in argv :: Readable(|a|)
    ensures ReadArgs(Bulks(argv) + tail, |argv|, done, used) == Command(done + argv, used + |Bulks(argv)|)
  {
    hide Bulk, ReadArgs, Bulks, Readable;
    if |argv| == 0 {
      assert done + argv == done;
      BulksNone(argv);
      assert argv[..0] == argv;
      ReadNoArgs(Bulks(argv) + tail, done, used);
    } else {
      var first, later := Bulk(argv[0]), Bulks(argv[1..]);
      BulksFirst(argv);
      assert first + later + tail == first + (later + tail);
      BulkRead(argv[0], later + tail, |argv|, done, used);
      BulksRead(argv[1..], tail, done + [argv[0]], used + |first|);
      assert done + [argv[0]] + argv[1..] == done + argv;
    }
  }

  lemma BulksFirst(argv: Argv)
    requires |argv| > 0
    ensures Bulks(argv) == Bulk(argv[0]) + Bulks(argv[1..])
  {
  }

  /** A whole command at the front is read back exactly, whatever follows. */
  lemma CommandRead(argv: Argv, tail: Bytes)
    requires ReadableArgv(argv)
    ensures NextItem(Encode(argv) + tail) == Command(argv, |Encode(argv)|)
  {
    hide Decimal, Atoi, Line, ReadArgs, Bulks;
    var rest := Bulks(argv) + tail;
    var s := Encode(argv) + tail;
    assert s == [STAR] + Decimal(|argv|) + CRLF + rest;
    NumberLine(STAR, |argv|, rest);
    var n := Line(s);
    assert s[n..] == rest;
    assert IsDigit(Decimal(|argv|)[0]);
    BulksRead(argv, tail, [], n);
    assert [] + argv == argv;
  }

  // ------------------------------------------------------------------ a command cut short

  lemma {:induction false} ScanGrows(s: Bytes, acc: nat)
    ensures Scan(s, acc) >= acc
  {
    if |s| > 0 && IsDigit(s[0]) { ScanGrows(s[1..], 10 * acc + (s[0] - 48)); }
  }

  lemma {:induction false} NoLeadingZero(n: nat)
    requires n > 0
    ensures Decimal(n)[0] != ZERO
  {
    if n >= 10 { NoLeadingZero(n / 10); }
  }

  /** A number cut short is still positive. */
  lemma CutNumber(n: nat, q: Bytes)
    requires n > 0 && |q| > 0 && q <= Decimal(n) + CRLF
    ensures Atoi(q) >= 1
  {
    NoLeadingZero(n);
    assert q[0] == (Decimal(n) + CRLF)[0] == Decimal(n)[0];
    ScanGrows(q[1..], q[0] - 48);
  }

  lemma CutLine(mark: byte, n: nat, q: Bytes)
    requires mark != LF && Readable(n) && |q| > 0 && |q| < |Decimal(n)| + 3 && q <= [mark] + Decimal(n) + CRLF
    ensures Line(q) == |q| && HitEof(q) && q[0] == mark && q[1..] <= Decimal(n) + CRLF
  {
    var s := [mark] + Decimal(n) + CRLF;
    assert forall i | 0 <= i < |q| :: q[i] == s[i];
    assert s[1..] == Decimal(n) + CRLF;
    assert forall i | 0 <= i < |Decimal(n)| :: s[i + 1] == Decimal(n)[i];
    assert forall i | 1 <= i <= |Decimal(n)| :: s[i] != LF;
    LineRunsOut(q, LINE_MAX - 1);
  }

  lemma AtoiOfDigits(q: Bytes)
    requires |q| > 0 ==> IsDigit(q[0]) || q[0] == CR
    requires |q| > 1 && q[0] == CR ==> q[1] == LF && |q| == 2
    ensures Atoi(q) >= 0
  {
    if |q| > 1 && q[0] == CR { assert Atoi(q) == Atoi(q[1..]) == Atoi(q[2..]) == 0; }
  }

  lemma BulkCut(a: Bytes, p: Bytes, k: nat, done: Argv, used: nat)
    requires Readable(|a|) && k > 0 && p <= Bulk(a) && |p| < |Bulk(a)|
    ensures ReadArgs(p, k, done, used) == ReadError(true)
  {
    hide Decimal, Atoi, Line;
    if |p| > 0 {
      var head := [DOLLAR] + Decimal(|a|) + CRLF;
      assert Bulk(a) == head + (a + CRLF);
      if |p| < |head| {
        assert p <= head;
        CutLine(DOLLAR, |a|, p);
        assert p[1..] <= Decimal(|a|) + CRLF && |p[1..]| < |Decimal(|a|) + CRLF|;
        CutLengthReads(|a|, p[1..]);
        assert p[1..|p|] == p[1..];
      } else {
        var rest := p[|head|..];
        assert p == head + rest;
        NumberLine(DOLLAR, |a|, rest);
      }
    }
  }

  lemma CutLengthReads(n: nat, q: Bytes)
    requires q <= Decimal(n) + CRLF && |q| < |Decimal(n)| + 2
    ensures Atoi(q) >= 0
  {
    if |q| > 0 {
      assert q[0] == (Decimal(n) + CRLF)[0] == Decimal(n)[0];
      AtoiOfDigits(q);
    }
  }

  lemma {:induction false} BulksCut(argv: Argv, p: Bytes, done: Argv, used: nat)
    requires forall a | a in argv :: Readable(|a|)
    requires p <= Bulks(argv) && |p| < |Bulks(argv)|
    ensures ReadArgs(p, |argv|, done, used) == ReadError(true)
  {
    hide Bulk, ReadArgs, Readable;
    var first, later := Bulk(argv[0]), Bulks(argv[1..]);
    assert Bulks(argv) == first + later;
    if |p| < |first| {
      assert p <= first;
      BulkCut(argv[0], p, |argv|, done, used);
    } else {
      var rest := p[|first|..];
      assert p == first + rest && rest <= later;
      BulkRead(argv[0], rest, |argv|, done, used);
      BulksCut(argv[1..], rest, done + [argv[0]], used + |first|);
    }
  }

  /** Any proper non-empty prefix of a command reads as an unexpected end of file, never as a format error. */
  lemma CommandCut(argv: Argv, q: Bytes)
    requires ReadableArgv(argv) && q <= Encode(argv) && 0 < |q| < |Encode(argv)|
    ensures NextItem(q) == ReadError(true)
  {
    hide Decimal, Atoi, Line, ReadArgs, Bulks, HitEof;
    var head := Header(|argv|);
    assert Encode(argv) == head + Bulks(argv);
    if |q| < |head| {
      assert q <= head;
      CutLine(STAR, |argv|, q);
      if |q| > 1 {
        CutNumber(|argv|, q[1..]);
        assert q[1..|q|] == q[1..];
        assert q[1] == (Decimal(|argv|) + CRLF)[0];
        assert IsDigit(Decimal(|argv|)[0]);
        NothingLeft(q, Atoi(q[1..]));
      }
    } else {
      var rest := q[|head|..];
      assert q == head + rest;
      assert rest <= Bulks(argv);
      NumberLine(STAR, |argv|, rest);
      assert IsDigit(Decimal(|argv|)[0]);
      assert q[Line(q)..] == rest;
      BulksCut(argv, rest, [], Line(q));
    }
  }

  lemma NothingLeft(q: Bytes, k: int)
    requires k >= 1
    ensures ReadArgs(q[|q|..], k, [], |q|) == ReadError(true)
  {
  }

  // ------------------------------------------------------------------ the loader

  const MULTI: Bytes := [109, 117, 108, 116, 105]
  const EXEC: Bytes := [101, 120, 101, 99]
  const SELECT: Bytes := [115, 101, 108, 101, 99, 116]

  function Lower(s: Bytes): Bytes {
    seq(|s|, i requires 0 <= i < |s| => if 65 <= s[i] <= 90 then (s[i] + 32) as byte else s[i])
  }

  predicate Named(argv: Argv, name: Bytes) { |argv| > 0 && Lower(argv[0]) == name }
  predicate IsMulti(argv: Argv) { Named(argv, MULTI) }
  predicate IsExec(argv: Argv) { Named(argv, EXEC) }
  predicate IsSelect(argv: Argv) { Named(argv, SELECT) }

  /** aof-load-truncated, the number of databases, and which commands exist. */
  datatype Config = Config(loadTruncated: bool, dbnum: nat, known: Argv -> bool)

  /** What the fake client did: the selected database, and each command run with the database it ran in. */
  datatype Effect = Effect(db: nat, ran: seq<(nat, Argv)>)

  function RunOne(cfg: Config, e: Effect, argv: Argv): Effect {
    if IsSelect(argv) then
      // getIntFromObjectOrReply takes the strict decimal form only
      if |argv| >= 2 && 0 <= Atoi(argv[1]) < cfg.dbnum && argv[1] == Decimal(Atoi(argv[1]))
      then e.(db := Atoi(argv[1])) else e
    else if IsMulti(argv) || IsExec(argv) then e
    else e.(ran := e.ran + [(e.db, argv)])
  }

  function RunAll(cfg: Config, e: Effect, queue: seq<Argv>): Effect {
    if |queue| == 0 then e
    else RunOne(cfg, RunAll(cfg, e, queue[..|queue| - 1]), queue[|queue| - 1])
  }

  datatype Loader = Loader(pos: nat, effect: Effect, multi: bool, queue: seq<Argv>, validUpTo: nat, validBeforeMulti: nat)

  const START := Loader(0, Effect(0, []), false, [], 0, 0)

  /** One command of the file, run or queued. */
  function Step(cfg: Config, st: Loader, argv: Argv, used: nat): Loader {
    var st1 := if IsMulti(argv) then st.(validBeforeMulti := st.validUpTo) else st;
    var st2 :=
      if st.multi && !IsExec(argv) then st1.(queue := st1.queue + [argv])
      else if IsMulti(argv) then st1.(multi := true, queue := [])
      else if IsExec(argv) then
        (if st.multi then st1.(effect := RunAll(cfg, st1.effect, st1.queue), multi := false, queue := []) else st1)
      else st1.(effect := RunOne(cfg, st1.effect, argv));
    st2.(pos := st.pos + used, validUpTo := if cfg.loadTruncated then st.pos + used else st.validUpTo)
  }

  /** AOF_OK, AOF_TRUNCATED with the length the file is cut to, or AOF_FAILED. */
  datatype Status = Ok | Truncated(size: nat) | Failed | Aborted

  datatype Outcome = Outcome(status: Status, effect: Effect)

  function UnexpectedEof(cfg: Config, st: Loader): Outcome {
    Outcome(if cfg.loadTruncated then Truncated(st.validUpTo) else Failed, st.effect)
  }

  function AtEof(cfg: Config, st: Loader): Outcome {
    if st.multi then UnexpectedEof(cfg, st.(validUpTo := st.validBeforeMulti)) else Outcome(Ok, st.effect)
  }

  function Load(cfg: Config, rest: Bytes, st: Loader): Outcome
    decreases |rest|
  {
    ItemsAdvance(rest);
    match NextItem(rest)
    case EndOfFile => AtEof(cfg, st)
    case Annotation(n) => Load(cfg, rest[n..], st.(pos := st.pos + n))
    case Command(argv, n) =>
      if !cfg.known(argv) then Outcome(Failed, st.effect)
      else Load(cfg, rest[n..], Step(cfg, st, argv, n))
    case FormatError => Outcome(Failed, st.effect)
    case ReadError(eof) => if eof then UnexpectedEof(cfg, st) else Outcome(Failed, st.effect)
    case Abort => Outcome(Aborted, st.effect)
  }

  /** The argument loop of `loadSingleAppendOnlyFile`. */
  method ReadArguments(data: Bytes, pos0: nat, argc: nat) returns (item: Item)
    requires pos0 <= |data|
    ensures item == ReadArgs(data[pos0..], argc, [], pos0)
  {
    hide Atoi, Line;
    var pos, argv := pos0, [];
    for j := 0 to argc
      invariant 0 <= pos <= |data|
      invariant ReadArgs(data[pos..], argc - j, argv, pos) == ReadArgs(data[pos0..], argc, [], pos0)
    {
      var s := data[pos..];
      if |s| == 0 { return ReadError(true); }
      if s[0] != DOLLAR { return FormatError; }
      var n := Line(s);
      var len := Atoi(s[1..n]);
      if len < 0 { return Abort; }
      if |s| < n + len { return ReadError(true); }
      if |s| < n + len + 2 { return ReadError(true); }
      argv := argv + [s[n..n + len]];
      assert s[n + len + 2..] == data[pos + n + len + 2..];
      pos := pos + n + len + 2;
    }
    return Command(argv, pos);
  }

  lemma {:induction false} ReadArgsShift(s: Bytes, k: nat, argv: Argv, used: nat, more: nat)
    ensures var r := ReadArgs(s, k, argv, used);
      ReadArgs(s, k, argv, used + more) == if r.Command? then r.(used := r.used + more) else r
    decreases k
  {
    hide Atoi, Line;
    if k > 0 && |s| > 0 && s[0] == DOLLAR {
      var n := Line(s);
      var len := Atoi(s[1..n]);
      if 0 <= len && n + len + 2 <= |s| {
        ReadArgsShift(s[n + len + 2..], k - 1, argv + [s[n..n + len]], used + n + len + 2, more);
      }
    }
  }

  /** One round of the loop's reading: an annotation, or a command with its arguments. */
  method ReadItem(data: Bytes, pos: nat) returns (item: Item)
    requires pos <= |data|
    ensures item == NextItem(data[pos..])
  {
    hide Atoi, Line, ReadArgs, HitEof;
    var s := data[pos..];
    if |s| == 0 { return EndOfFile; }
    var n := Line(s);
    if s[0] == HASH { return Annotation(n); }
    if s[0] != STAR { return FormatError; }
    if n == 1 || s[1] == 0 { return ReadError(HitEof(s)); }
    var argc := Atoi(s[1..n]);
    if argc < 1 { return FormatError; }
    var read := ReadArguments(data, pos + n, argc);
    assert data[pos + n..] == s[n..];
    ReadArgsShift(s[n..], argc, [], n, pos);
    return if read.Command? then read.(used := read.used - pos) else read;
  }

  /** `loadSingleAppendOnlyFile` on a file that is not empty and not in RDB format. */
  method LoadSingleAppendOnlyFile(cfg: Config, data: Bytes) returns (r: Outcome)
    ensures r == Load(cfg, data, START)
  {
    hide NextItem, Step;
    var st := START;
    assert data[0..] == data;
    while true
      invariant st.pos <= |data|
      invariant Load(cfg, data[st.pos..], st) == Load(cfg, data, START)
      decreases |data| - st.pos
    {
      ItemsAdvance(data[st.pos..]);
      var item := ReadItem(data, st.pos);
      match item {
        case EndOfFile => break;
        case Annotation(n) =>
          assert data[st.pos..][n..] == data[st.pos + n..];
          st := st.(pos := st.pos + n);
        case Command(argv, n) =>
          if !cfg.known(argv) { return Outcome(Failed, st.effect); }
          assert data[st.pos..][n..] == data[st.pos + n..];
          StepMoves(cfg, st, argv, n);
          st := Step(cfg, st, argv, n);
        case ReadError(eof) => return if eof then UnexpectedEof(cfg, st) else Outcome(Failed, st.effect);
        case FormatError => return Outcome(Failed, st.effect);
        case Abort => return Outcome(Aborted, st.effect);
      }
    }
    r := AtEof(cfg, st);
  }

  lemma StepMoves(cfg: Config, st: Loader, argv: Argv, used: nat)
    ensures Step(cfg, st, argv, used).pos == st.pos + used
  {
  }

  // ------------------------------------------------------------------ whole logs

  /** A timestamp annotation (the text between '#' and the line end) or a command. */
  datatype Entry = Note(text: Bytes) | Cmd(argv: Argv)

  function EncodeEntry(e: Entry): Bytes {
    match e
    case Note(text) => [HASH] + text + CRLF
    case Cmd(argv) => Encode(argv)
  }

  function EncodeLog(es: seq<Entry>): Bytes {
    if |es| == 0 then [] else EncodeLog(es[..|es| - 1]) + EncodeEntry(es[|es| - 1])
  }

  ghost predicate Writable(cfg: Config, e: Entry) {
    match e
    case Note(text) => LF !in text && |text| + 3 < LINE_MAX
    case Cmd(argv) => ReadableArgv(argv) && cfg.known(argv)
  }

  ghost predicate AllWritable(cfg: Config, es: seq<Entry>) {
    forall e | e in es :: Writable(cfg, e)
  }

  /** The loader after one whole entry. */
  function Enter(cfg: Config, st: Loader, e: Entry): Loader {
    match e
    case Note(_) => st.(pos := st.pos + |EncodeEntry(e)|)
    case Cmd(argv) => Step(cfg, st, argv, |Encode(argv)|)
  }

  function EnterAll(cfg: Config, st: Loader, es: seq<Entry>): Loader {
    if |es| == 0 then st else Enter(cfg, EnterAll(cfg, st, es[..|es| - 1]), es[|es| - 1])
  }

  lemma NoteRead(text: Bytes, tail: Bytes)
    requires LF !in text && |text| + 3 < LINE_MAX
    ensures NextItem([HASH] + text + CRLF + tail) == Annotation(|text| + 3)
  {
    var line := [HASH] + text + [CR];
    assert [HASH] + text + CRLF + tail == line + [LF] + tail;
    LineStops(line, tail, LINE_MAX - 1);
  }

  lemma EntryLoads(cfg: Config, e: Entry, tail: Bytes, st: Loader)
    requires Writable(cfg, e)
    ensures Load(cfg, EncodeEntry(e) + tail, st) == Load(cfg, tail, Enter(cfg, st, e))
  {
    hide Step, Encode, Line, Load, NextItem;
    var s := EncodeEntry(e) + tail;
    assert s[|EncodeEntry(e)|..] == tail;
    match e
    case Note(text) =>
      NoteRead(text, tail);
      SkipAnnotation(cfg, s, |text| + 3, st);
    case Cmd(argv) =>
      CommandRead(argv, tail);
      TakeCommand(cfg, s, argv, |Encode(argv)|, st);
  }

  lemma TakeCommand(cfg: Config, s: Bytes, argv: Argv, n: nat, st: Loader)
    requires NextItem(s) == Command(argv, n) && n <= |s| && cfg.known(argv)
    ensures Load(cfg, s, st) == Load(cfg, s[n..], Step(cfg, st, argv, n))
  {
    hide NextItem, Step;
  }

  lemma SkipAnnotation(cfg: Config, s: Bytes, n: nat, st: Loader)
    requires NextItem(s) == Annotation(n) && n <= |s|
    ensures Load(cfg, s, st) == Load(cfg, s[n..], st.(pos := st.pos + n))
  {
    hide NextItem, Step;
  }

  /** Reading a whole log is entering its entries one by one. */
  lemma {:induction false} LogLoads(cfg: Config, es: seq<Entry>, tail: Bytes, st: Loader)
    requires AllWritable(cfg, es)
    ensures Load(cfg, EncodeLog(es) + tail, st) == Load(cfg, tail, EnterAll(cfg, st, es))
  {
    hide Load, Enter, EncodeEntry, Writable;
    if |es| == 0 {
      assert EncodeLog(es) + tail == tail;
    } else {
      var front, last := es[..|es| - 1], es[|es| - 1];
      assert EncodeLog(es) + tail == EncodeLog(front) + (EncodeEntry(last) + tail);
      LogLoads(cfg, front, EncodeEntry(last) + tail, st);
      EntryLoads(cfg, last, tail, EnterAll(cfg, st, front));
    }
  }

  lemma {:induction false} EnterAllMoves(cfg: Config, st: Loader, es: seq<Entry>)
    ensures EnterAll(cfg, st, es).pos == st.pos + |EncodeLog(es)|
  {
    hide Step, EncodeEntry;
    if |es| > 0 {
      var front, last := es[..|es| - 1], es[|es| - 1];
      EnterAllMoves(cfg, st, front);
      if last.Cmd? { StepMoves(cfg, EnterAll(cfg, st, front), last.argv, |Encode(last.argv)|); EncodeEntryIs(last); }
    }
  }

  lemma EncodeEntryIs(e: Entry)
    ensures e.Cmd? ==> EncodeEntry(e) == Encode(e.argv)
    ensures |EncodeEntry(e)| > 0
  {
  }

  // ------------------------------------------------------------------ logs cut anywhere

  /** How many entries lie wholly within the first `n` bytes. */
  function Whole(es: seq<Entry>, n: nat): (k: nat)
    ensures k <= |es|
  {
    if |EncodeLog(es)| <= n then |es| else Whole(es[..|es| - 1], n)
  }

  /** A prefix of a log is some whole entries and a proper piece of the next. */
  lemma {:induction false} CutWhere(es: seq<Entry>, p: Bytes)
    requires p <= EncodeLog(es)
    ensures var k := Whole(es, |p|);
      && |EncodeLog(es[..k])| <= |p| && EncodeLog(es[..k]) == p[..|EncodeLog(es[..k])|]
      && (k < |es| ==> var q := p[|EncodeLog(es[..k])|..]; q <= EncodeEntry(es[k]) && |q| < |EncodeEntry(es[k])|)
      && (k == |es| ==> p == EncodeLog(es))
  {
    hide EncodeEntry;
    if |EncodeLog(es)| <= |p| {
      assert es[..|es|] == es;
      assert p == EncodeLog(es);
    } else {
      var front, last := es[..|es| - 1], es[|es| - 1];
      var f := EncodeLog(front);
      if |p| < |f| {
        assert p <= f by { assert f == EncodeLog(es)[..|f|]; }
        CutWhere(front, p);
        var k := Whole(front, |p|);
        assert front[..k] == es[..k];
      } else {
        assert Whole(es, |p|) == |front|;
        assert es[..|front|] == front;
        assert p[..|f|] == EncodeLog(es)[..|f|] == f;
        var q := p[|f|..];
        assert q == EncodeLog(es)[|f|..|p|];
        assert EncodeEntry(last) == EncodeLog(es)[|f|..];
      }
    }
  }

  lemma NoteCut(text: Bytes, q: Bytes)
    requires LF !in text && |text| + 3 < LINE_MAX && q <= [HASH] + text + CRLF && 0 < |q| < |text| + 3
    ensures NextItem(q) == Annotation(|q|)
  {
    var s := [HASH] + text + CRLF;
    forall i | 0 <= i < |q| ensures q[i] != LF {
      assert q[i] == s[i];
      if 1 <= i <= |text| { assert s[i] == text[i - 1] && text[i - 1] in text; }
    }
    LineRunsOut(q, LINE_MAX - 1);
    assert q[0] == s[0];
  }

  /** What loading a piece of one entry does after the state `st`. */
  lemma PieceLoads(cfg: Config, e: Entry, q: Bytes, st: Loader)
    requires Writable(cfg, e) && q <= EncodeEntry(e) && |q| < |EncodeEntry(e)|
    ensures Load(cfg, q, st) ==
      if |q| == 0 || e.Note? then AtEof(cfg, st.(pos := st.pos + |q|)) else UnexpectedEof(cfg, st)
  {
    hide Encode, Line, Step;
    if |q| > 0 {
      match e
      case Note(text) =>
        NoteCut(text, q);
        assert q[|q|..] == [];
      case Cmd(argv) => CommandCut(argv, q);
    }
  }

  lemma WritableFront(cfg: Config, es: seq<Entry>, k: nat)
    requires AllWritable(cfg, es) && k <= |es|
    ensures AllWritable(cfg, es[..k]) && (k < |es| ==> Writable(cfg, es[k]))
  {
  }

  /** Where the loader stands when a prefix `p` of a log ends. */
  function StandAt(cfg: Config, es: seq<Entry>, p: Bytes): Loader {
    EnterAll(cfg, START, es[..Whole(es, |p|)])
  }

  /** `p` ends between two entries, or inside an annotation. */
  predicate EndsCleanly(es: seq<Entry>, p: Bytes) {
    var k := Whole(es, |p|);
    p == EncodeLog(es[..k]) || (k < |es| && es[k].Note?)
  }

  /** Loading a prefix of a log runs exactly its whole commands; it is never a format error. */
  lemma CutLogLoads(cfg: Config, es: seq<Entry>, p: Bytes)
    requires AllWritable(cfg, es) && p <= EncodeLog(es)
    ensures Load(cfg, p, START) ==
      if EndsCleanly(es, p) then AtEof(cfg, StandAt(cfg, es, p)) else UnexpectedEof(cfg, StandAt(cfg, es, p))
  {
    hide AllWritable, Writable, EncodeEntry, Load, EncodeLog, EnterAll, Whole, AtEof, UnexpectedEof;
    CutWhere(es, p);
    var k := Whole(es, |p|);
    var f := EncodeLog(es[..k]);
    var q := p[|f|..];
    assert p == f + q;
    WritableFront(cfg, es, k);
    LogLoads(cfg, es[..k], q, START);
    var st := EnterAll(cfg, START, es[..k]);
    LoadNothing(cfg, st);
    if k < |es| {
      PieceLoads(cfg, es[k], q, st);
      EofIgnoresPos(cfg, st, st.pos + |q|);
      assert |q| == 0 <==> p == f;
    } else {
      assert es[..k] == es;
      assert q == [];
    }
  }

  lemma EofIgnoresPos(cfg: Config, st: Loader, pos: nat)
    ensures AtEof(cfg, st.(pos := pos)) == AtEof(cfg, st)
  {
  }

  lemma LoadNothing(cfg: Config, st: Loader)
    ensures Load(cfg, [], st) == AtEof(cfg, st)
  {
  }

  // ------------------------------------------------------------------ truncation recovery

  /** The entries up to and including the last command. */
  function Settled(es: seq<Entry>): (k: nat)
    ensures k <= |es|
  {
    if |es| == 0 || es[|es| - 1].Cmd? then |es| else Settled(es[..|es| - 1])
  }

  lemma {:induction false} SettledStands(cfg: Config, es: seq<Entry>)
    requires cfg.loadTruncated
    ensures var st := EnterAll(cfg, START, es); var head := es[..Settled(es)];
      st.validUpTo == |EncodeLog(head)| && st == EnterAll(cfg, START, head).(pos := st.pos)
  {
    hide EncodeEntry, Encode, EncodeLog;
    assert es[..|es|] == es;
    if |es| == 0 {
      assert EncodeLog(es) == [] by { EncodeNothing(es); }
    } else {
      var front, last := es[..|es| - 1], es[|es| - 1];
      if last.Cmd? {
        EnterAllMoves(cfg, START, es);
      } else {
        SettledStands(cfg, front);
        assert es[..Settled(es)] == front[..Settled(front)];
      }
    }
  }

  lemma EncodeNothing(es: seq<Entry>)
    requires |es| == 0
    ensures EncodeLog(es) == []
  {
  }

  lemma {:induction false} EncodeFront(es: seq<Entry>, k: nat)
    requires k <= |es|
    ensures EncodeLog(es[..k]) <= EncodeLog(es)
  {
    hide EncodeEntry;
    if k == |es| {
      assert es[..k] == es;
    } else {
      EncodeFront(es[..|es| - 1], k);
      assert es[..|es| - 1][..k] == es[..k];
    }
  }

  /** Loading a whole log. */
  lemma WholeLogLoads(cfg: Config, es: seq<Entry>)
    requires AllWritable(cfg, es)
    ensures Load(cfg, EncodeLog(es), START) == AtEof(cfg, EnterAll(cfg, START, es))
  {
    hide *;
    LogLoads(cfg, es, [], START);
    assert EncodeLog(es) + [] == EncodeLog(es);
    LoadNothing(cfg, EnterAll(cfg, START, es));
  }

  /**
   The recovery of a log cut inside a command: the file is cut back to the end of the last whole command, the
   whole commands and no others have taken effect, and the shorter file stands exactly where the loader stood.
   It then loads cleanly if and only if no transaction is open there.
   */
  lemma TruncatedReload(cfg: Config, es: seq<Entry>, p: Bytes)
    requires cfg.loadTruncated && AllWritable(cfg, es) && p <= EncodeLog(es) && !EndsCleanly(es, p)
    ensures var st := StandAt(cfg, es, p); var r := Load(cfg, p, START);
      && r == Outcome(Truncated(st.validUpTo), st.effect)
      && st.validUpTo <= |p|
      && p[..st.validUpTo] == EncodeLog(es[..Settled(es[..Whole(es, |p|)])])
      && Load(cfg, p[..st.validUpTo], START) == AtEof(cfg, st)
      && (Load(cfg, p[..st.validUpTo], START) == Outcome(Ok, r.effect) <==> !st.multi)
  {
    hide AllWritable, EncodeEntry, EncodeLog, Load, EnterAll, Whole, Settled, EndsCleanly;
    CutLogLoads(cfg, es, p);
    CutWhere(es, p);
    var k := Whole(es, |p|);
    var whole := es[..k];
    var j := Settled(whole);
    var st := StandAt(cfg, es, p);
    SettledStands(cfg, whole);
    EncodeFront(whole, j);
    assert whole[..j] == es[..j];
    assert p[..st.validUpTo] == EncodeLog(es[..j]);
    WritableFront(cfg, es, j);
    WholeLogLoads(cfg, es[..j]);
    EofIgnoresPos(cfg, EnterAll(cfg, START, es[..j]), st.pos);
  }

  function Commands(es: seq<Entry>): seq<Argv> {
    if |es| == 0 then []
    else Commands(es[..|es| - 1]) + (if es[|es| - 1].Cmd? then [es[|es| - 1].argv] else [])
  }

  predicate NoMulti(es: seq<Entry>) { forall e | e in es :: e.Cmd? ==> !IsMulti(e.argv) }

  lemma RunAllGrows(cfg: Config, e: Effect, queue: seq<Argv>, argv: Argv)
    ensures RunAll(cfg, e, queue + [argv]) == RunOne(cfg, RunAll(cfg, e, queue), argv)
  {
    hide RunOne;
    assert (queue + [argv])[..|queue|] == queue;
  }

  lemma {:induction false} PlainRuns(cfg: Config, es: seq<Entry>)
    requires NoMulti(es)
    ensures var st := EnterAll(cfg, START, es);
      !st.multi && st.effect == RunAll(cfg, START.effect, Commands(es))
  {
    hide Encode, EncodeEntry, RunAll, Named;
    if |es| == 0 {
      RunNone(cfg, START.effect);
    } else {
      var front, last := es[..|es| - 1], es[|es| - 1];
      PlainRuns(cfg, front);
      assert last in es;
      if last.Cmd? {
        RunAllGrows(cfg, START.effect, Commands(front), last.argv);
        if IsExec(last.argv) { NamesDiffer(last.argv); }
      } else {
        assert Commands(front) + [] == Commands(front);
      }
    }
  }

  lemma NamesDiffer(argv: Argv)
    ensures !(IsExec(argv) && IsSelect(argv)) && !(IsExec(argv) && IsMulti(argv)) && !(IsMulti(argv) && IsSelect(argv))
  {
  }

  lemma RunNone(cfg: Config, e: Effect)
    ensures RunAll(cfg, e, []) == e
  {
  }

  /**
   Without transactions: every prefix of a log runs exactly its whole commands in order, and if it ends inside a
   command, the file cut at the reported size loads cleanly to the same state.
   */
  lemma TruncationRecovers(cfg: Config, es: seq<Entry>, p: Bytes)
    requires cfg.loadTruncated && AllWritable(cfg, es) && NoMulti(es) && p <= EncodeLog(es)
    ensures var k := Whole(es, |p|); var r := Load(cfg, p, START);
      && r.effect == RunAll(cfg, START.effect, Commands(es[..k]))
      && r.status == (if EndsCleanly(es, p) then Ok else Truncated(|EncodeLog(es[..Settled(es[..k])])|))
      && (r.status.Truncated? ==> r.status.size <= |p| && Load(cfg, p[..r.status.size], START) == Outcome(Ok, r.effect))
  {
    hide AllWritable, EncodeLog, Load, EnterAll, Whole, Settled, EndsCleanly, RunAll, Commands;
    CutLogLoads(cfg, es, p);
    var k := Whole(es, |p|);
    PlainRuns(cfg, es[..k]);
    if !EndsCleanly(es, p) { TruncatedReload(cfg, es, p); }
  }

  predicate NoTransactionEnds(es: seq<Entry>) { forall e | e in es :: e.Cmd? ==> !IsMulti(e.argv) && !IsExec(e.argv) }

  /** Inside an open transaction nothing has run since its MULTI. */
  lemma {:induction false} OpenStands(cfg: Config, before: seq<Entry>, m: Argv, inner: seq<Entry>)
    requires IsMulti(m) && !EnterAll(cfg, START, before).multi && NoTransactionEnds(inner)
    ensures var st := EnterAll(cfg, START, before + [Cmd(m)] + inner); var st0 := EnterAll(cfg, START, before);
      st.multi && st.effect == st0.effect && st.validBeforeMulti == st0.validUpTo
  {
    hide Encode, EncodeEntry, Named, RunAll, RunOne;
    if |inner| == 0 {
      assert before + [Cmd(m)] + inner == before + [Cmd(m)];
      EnterLast(cfg, before, Cmd(m));
      NamesDiffer(m);
    } else {
      var front, last := inner[..|inner| - 1], inner[|inner| - 1];
      OpenStands(cfg, before, m, front);
      assert before + [Cmd(m)] + inner == (before + [Cmd(m)] + front) + [last];
      EnterLast(cfg, before + [Cmd(m)] + front, last);
      assert last in inner;
    }
  }

  lemma EnterLast(cfg: Config, es: seq<Entry>, e: Entry)
    ensures EnterAll(cfg, START, es + [e]) == Enter(cfg, EnterAll(cfg, START, es), e)
  {
    hide Enter;
    assert (es + [e])[..|es|] == es;
  }

  /** A log that ends at a command boundary inside a transaction goes back to just before its MULTI. */
  lemma TransactionReverted(cfg: Config, before: seq<Entry>, m: Argv, inner: seq<Entry>)
    requires IsMulti(m) && !EnterAll(cfg, START, before).multi && NoTransactionEnds(inner)
    requires cfg.loadTruncated && AllWritable(cfg, before + [Cmd(m)] + inner)
    ensures var st0 := EnterAll(cfg, START, before); var kept := EncodeLog(before[..Settled(before)]);
      && Load(cfg, EncodeLog(before + [Cmd(m)] + inner), START) == Outcome(Truncated(|kept|), st0.effect)
      && kept <= EncodeLog(before + [Cmd(m)] + inner)
      && Load(cfg, kept, START) == Outcome(Ok, st0.effect)
  {
    hide AllWritable, EncodeLog, Load, EnterAll, Settled, IsMulti, NoTransactionEnds;
    var es := before + [Cmd(m)] + inner;
    var j := Settled(before);
    OpenStands(cfg, before, m, inner);
    WholeLogLoads(cfg, es);
    SettledStands(cfg, before);
    assert es[..j] == before[..j];
    EncodeFront(es, j);
    WritableFront(cfg, es, j);
    WholeLogLoads(cfg, before[..j]);
  }

  /**
   A cut inside a command of an open transaction is not taken back to the MULTI: the first load cuts at the last
   whole command and leaves the transaction open, so that only a second load goes back to just before it.
   */
  lemma CutTransactionNeedsTwoLoads(cfg: Config, before: seq<Entry>, m: Argv, inner: seq<Entry>, next: Argv, p: Bytes)
    requires IsMulti(m) && !EnterAll(cfg, START, before).multi && NoTransactionEnds(inner)
    requires cfg.loadTruncated && AllWritable(cfg, before + [Cmd(m)] + inner + [Cmd(next)])
    requires p <= EncodeLog(before + [Cmd(m)] + inner + [Cmd(next)])
    requires |EncodeLog(before + [Cmd(m)] + inner)| < |p| < |EncodeLog(before + [Cmd(m)] + inner + [Cmd(next)])|
    ensures var st0 := EnterAll(cfg, START, before); var kept := EncodeLog(before[..Settled(before)]);
      && Load(cfg, p, START).status.Truncated? && Load(cfg, p, START).effect == st0.effect
      && Load(cfg, p, START).status.size <= |p|
      && Load(cfg, p[..Load(cfg, p, START).status.size], START) == Outcome(Truncated(|kept|), st0.effect)
  {
    hide AllWritable, EncodeLog, Load, EnterAll, Settled, IsMulti, NoTransactionEnds, Whole, EncodeEntry;
    var open := before + [Cmd(m)] + inner;
    var es := open + [Cmd(next)];
    WholeIs(open, Cmd(next), p);
    assert es[..|open|] == open && es[|open|] == Cmd(next);
    TruncatedReload(cfg, es, p);
    OpenStands(cfg, before, m, inner);
    SettledStands(cfg, before);
  }

  lemma WholeIs(open: seq<Entry>, e: Entry, p: Bytes)
    requires |EncodeLog(open)| < |p| < |EncodeLog(open + [e])|
    ensures Whole(open + [e], |p|) == |open|
  {
    hide EncodeLog;
    assert (open + [e])[..|open|] == open;
  }

  // ------------------------------------------------------------------ a log cut inside an annotation

  /** The file "#T", all that was written of a timestamp, loads well; with a PING appended it does not load at all. */
  lemma CutAnnotationExample(cfg: Config)
    ensures var p, ping := [HASH, 84], [[80, 73, 78, 71]];
      && Load(cfg, p, START) == Outcome(Ok, START.effect)
      && Load(cfg, p + Encode(ping), START) == Outcome(Failed, START.effect)
  {
    hide Decimal, Load, EncodeLog, Whole, EnterAll, Encode;
    var p: Bytes, note, ping: Argv := [HASH, 84], Note([84, 83, 58, 49]), [[80, 73, 78, 71]];
    OneDigit(1);
    OneDigit(4);
    HeaderOfOne();
    var whole := EncodeEntry(note);
    assert whole == [HASH, 84, 83, 58, 49, CR, LF] && p == whole[..2];
    Swallowed(cfg, note, p, ping, [], START);
    assert p + Encode(ping) + [] == p + Encode(ping);
    CutNote(cfg, note, p);
  }

  lemma OneDigit(n: nat)
    requires n < 10
    ensures |Decimal(n)| == 1
  {
  }

  lemma HeaderOfOne()
    ensures |Header(1)| == 4
  {
  }

  lemma CutNote(cfg: Config, e: Entry, q: Bytes)
    requires Writable(cfg, e) && e.Note? && q <= EncodeEntry(e) && 0 < |q| < |EncodeEntry(e)|
    ensures Load(cfg, q, START) == Outcome(Ok, START.effect)
  {
    hide Load, EncodeLog, EncodeEntry, EnterAll, Whole;
    var none: seq<Entry> := [];
    EncodeNothing(none);
    EncodeOneMore(none, e);
    assert none + [e] == [e] && [] + EncodeEntry(e) == EncodeEntry(e);
    WholeIs(none, e, q);
    assert [e][..0] == none;
    CutLogLoads(cfg, [e], q);
    EnterNothing(cfg, START);
  }

  lemma WritableCmd(cfg: Config, b: Argv)
    requires ReadableArgv(b) && cfg.known(b)
    ensures Writable(cfg, Cmd(b)) && EncodeEntry(Cmd(b)) == Encode(b)
  {
  }

  /** A piece of an annotation takes the header of the command behind it, and the load stops at what is left of it. */
  lemma Swallowed(cfg: Config, e: Entry, q: Bytes, b: Argv, tail: Bytes, st: Loader)
    requires Writable(cfg, e) && e.Note? && q <= EncodeEntry(e) && 0 < |q| < |EncodeEntry(e)|
    requires ReadableArgv(b) && |q| + |Header(|b|)| < LINE_MAX
    ensures Load(cfg, q + Encode(b) + tail, st) == Outcome(Failed, st.effect)
  {
    hide *;
    var s, rest := q + Encode(b) + tail, Bulks(b) + tail;
    var n := |q| + |Header(|b|)|;
    assert s == q + Header(|b|) + rest by { hide *; EncodeIs(b); }
    NoteIs(cfg, e);
    SwallowedLine(e.text, q, |b|, rest);
    assert s[n..] == rest;
    SkipAnnotation(cfg, s, n, st);
    BulksAlone(b, tail);
    StopAtFormatError(cfg, rest, st.(pos := st.pos + n));
  }

  lemma EncodeIs(b: Argv)
    ensures Encode(b) == Header(|b|) + Bulks(b)
  {
  }

  lemma NoteIs(cfg: Config, e: Entry)
    requires Writable(cfg, e) && e.Note?
    ensures LF !in e.text && EncodeEntry(e) == [HASH] + e.text + CRLF && |EncodeEntry(e)| == |e.text| + 3
  {
  }

  lemma BulksAlone(b: Argv, tail: Bytes)
    requires ReadableArgv(b)
    ensures NextItem(Bulks(b) + tail) == FormatError
  {
    hide Decimal, Line, ReadArgs, Atoi;
    BulksFirst(b);
    assert Bulks(b)[0] == DOLLAR && (Bulks(b) + tail)[0] == DOLLAR;
  }

  /** A log whose first command has lost its header to another file is refused, and nothing of it is run. */
  lemma HalfCommandRefused(cfg: Config, b: Argv, tail: Bytes)
    requires ReadableArgv(b)
    ensures Encode(b) + tail == Header(|b|) + (Bulks(b) + tail)
    ensures Load(cfg, Bulks(b) + tail, START) == Outcome(Failed, START.effect)
  {
    hide Load, NextItem, Bulks, Header;
    BulksAlone(b, tail);
    StopAtFormatError(cfg, Bulks(b) + tail, START);
  }

  lemma StopAtFormatError(cfg: Config, s: Bytes, st: Loader)
    requires NextItem(s) == FormatError
    ensures Load(cfg, s, st) == Outcome(Failed, st.effect)
  {
    hide NextItem, Step;
  }

  lemma SwallowedLine(text: Bytes, q: Bytes, n: nat, tail: Bytes)
    requires LF !in text && q <= [HASH] + text + CRLF && 0 < |q| < |text| + 3
    requires |q| + |Header(n)| < LINE_MAX
    ensures NextItem(q + Header(n) + tail) == Annotation(|q| + |Header(n)|)
  {
    var s := [HASH] + text + CRLF;
    forall i | 0 <= i < |q| ensures q[i] != LF {
      assert q[i] == s[i];
      if 1 <= i <= |text| { assert s[i] == text[i - 1] && text[i - 1] in text; }
    }
    var line := q + [STAR] + Decimal(n) + [CR];
    assert q + Header(n) + tail == line + [LF] + tail;
    LineStops(line, tail, LINE_MAX - 1);
    assert q[0] == s[0];
  }

  // ------------------------------------------------------------------ feeding the log

  const SELECT_WORD: Bytes := [83, 69, 76, 69, 67, 84]
  const TS: Bytes := [84, 83, 58]

  /**
   One propagated command: its database, its arguments and the clock. Or the server forgets which database it selected
   last, as it does before every rewrite and when it is started anew.
   */
  datatype Feed = Feed(db: nat, argv: Argv, now: nat) | Reset(stamp: nat)

  /** `aof_selected_db` and `aof_cur_timestamp`. */
  datatype Tracker = Tracker(selected: int, stamp: nat)

  function SelectArgv(db: nat): Argv { [SELECT_WORD, Decimal(db)] }

  predicate Stamps(enabled: bool, t: Tracker, now: nat) { enabled && t.stamp < now }

  /** The entries one call of `feedAppendOnlyFile` writes, and what it remembers. */
  function FeedEntries(enabled: bool, t: Tracker, f: Feed): seq<Entry> {
    if f.Reset? then []
    else
      (if Stamps(enabled, t, f.now) then [Note(TS + Decimal(f.now))] else [])
      + (if f.db != t.selected then [Cmd(SelectArgv(f.db))] else [])
      + [Cmd(f.argv)]
  }

  function FeedTracker(enabled: bool, t: Tracker, f: Feed): Tracker {
    if f.Reset? then Tracker(-1, f.stamp) else Tracker(f.db, if Stamps(enabled, t, f.now) then f.now else t.stamp)
  }

  function Track(enabled: bool, t: Tracker, fs: seq<Feed>): Tracker {
    if |fs| == 0 then t else FeedTracker(enabled, Track(enabled, t, fs[..|fs| - 1]), fs[|fs| - 1])
  }

  function LogOf(enabled: bool, t: Tracker, fs: seq<Feed>): seq<Entry> {
    if |fs| == 0 then []
    else LogOf(enabled, t, fs[..|fs| - 1]) + FeedEntries(enabled, Track(enabled, t, fs[..|fs| - 1]), fs[|fs| - 1])
  }

  function MeantBy(f: Feed): seq<(nat, Argv)> {
    if f.Reset? || IsMulti(f.argv) || IsExec(f.argv) then [] else [(f.db, f.argv)]
  }

  /** The commands that were meant to run, each in its database; MULTI and EXEC only bracket them. */
  function Meant(fs: seq<Feed>): seq<(nat, Argv)> {
    if |fs| == 0 then [] else Meant(fs[..|fs| - 1]) + MeantBy(fs[|fs| - 1])
  }

  predicate OpenAfter(open: bool, f: Feed) {
    if f.Feed? && IsMulti(f.argv) then true else if f.Feed? && IsExec(f.argv) then false else open
  }

  /** The last MULTI has no EXEC yet; `open` is how it was before. */
  predicate OpenFrom(open: bool, fs: seq<Feed>) {
    if |fs| == 0 then open else OpenAfter(OpenFrom(open, fs[..|fs| - 1]), fs[|fs| - 1])
  }

  predicate Open(fs: seq<Feed>) { OpenFrom(false, fs) }

  /** The longest beginning that leaves no transaction open: what is really run when no more follows. */
  function Closed(fs: seq<Feed>): (r: seq<Feed>)
    ensures r <= fs && !Open(r)
  {
    if Open(fs) then Closed(fs[..|fs| - 1]) else fs
  }

  /** What has run in the end, `done` having run and `heading` being to run if a transaction is open at the start. */
  function Ran(done: seq<(nat, Argv)>, heading: seq<(nat, Argv)>, open: bool, fs: seq<Feed>): seq<(nat, Argv)> {
    if !OpenFrom(open, fs) then heading + Meant(fs)
    else if |fs| == 0 then done
    else Ran(done, heading, open, fs[..|fs| - 1])
  }

  predicate EndsOne(f: Feed) { f.Feed? && IsExec(f.argv) }

  predicate HasExec(fs: seq<Feed>) { exists f | f in fs :: EndsOne(f) }

  lemma {:induction false} RanBehindClosed(done: seq<(nat, Argv)>, fs: seq<Feed>)
    ensures Ran(done, done, false, fs) == done + Meant(Closed(fs))
  {
    hide Meant, OpenAfter;
    if |fs| > 0 && Open(fs) { RanBehindClosed(done, fs[..|fs| - 1]); }
  }

  /** Without an EXEC an open transaction stays open, and nothing is run. */
  lemma {:induction false} NothingRan(done: seq<(nat, Argv)>, heading: seq<(nat, Argv)>, fs: seq<Feed>)
    requires !HasExec(fs)
    ensures OpenFrom(true, fs) && Ran(done, heading, true, fs) == done
  {
    hide Meant, Named;
    if |fs| > 0 {
      assert fs[|fs| - 1] in fs;
      assert forall f | f in fs[..|fs| - 1] :: f in fs;
      NothingRan(done, heading, fs[..|fs| - 1]);
    }
  }

  /** Once there was an EXEC it does not matter how things were before. */
  lemma {:induction false} ExecDecides(fs: seq<Feed>)
    requires HasExec(fs)
    ensures OpenFrom(true, fs) == OpenFrom(false, fs)
  {
    hide Named;
    var front, f := fs[..|fs| - 1], fs[|fs| - 1];
    assert fs == front + [f];
    if EndsOne(f) { NamesDiffer(f.argv); } else { ExecDecides(front); }
  }

  /** With one, what was queued is run along with what follows. */
  lemma {:induction false} AllRan(done: seq<(nat, Argv)>, heading: seq<(nat, Argv)>, fs: seq<Feed>)
    requires HasExec(fs)
    ensures Ran(done, heading, true, fs) == heading + Meant(Closed(fs))
  {
    hide Meant, Named;
    ExecDecides(fs);
    if Open(fs) {
      var front, f := fs[..|fs| - 1], fs[|fs| - 1];
      assert fs == front + [f];
      if EndsOne(f) { NamesDiffer(f.argv); }
      AllRan(done, heading, front);
    }
  }

  lemma SameBefore(a: seq<(nat, Argv)>, b: seq<(nat, Argv)>, x: seq<(nat, Argv)>)
    ensures a + x == b + x <==> a == b
  {
    assert a == (a + x)[..|a|] && b == (b + x)[..|b|];
  }

  lemma NothingAdded(a: seq<(nat, Argv)>, x: seq<(nat, Argv)>)
    ensures a + x == a <==> x == []
  {
  }

  /**
   What is fed behind an open transaction is run, and nothing else, if and only if it closes the transaction and nothing
   was queued in it, or it does not close it and there was nothing to run.
   */
  lemma RanIff(done: seq<(nat, Argv)>, heading: seq<(nat, Argv)>, fs: seq<Feed>)
    ensures Ran(done, heading, true, fs) == done + Meant(Closed(fs)) <==>
      if HasExec(fs) then heading == done else Meant(Closed(fs)) == []
  {
    hide Ran, Closed, Meant, HasExec;
    if HasExec(fs) {
      AllRan(done, heading, fs);
      SameBefore(heading, done, Meant(Closed(fs)));
    } else {
      NothingRan(done, heading, fs);
      NothingAdded(done, Meant(Closed(fs)));
    }
  }

  /** What is propagated: a known command other than SELECT, for an existing database. */
  ghost predicate Feedable(cfg: Config, f: Feed) {
    f.Feed? ==>
    && f.db < cfg.dbnum && Readable(|Decimal(f.db)|) && |Decimal(f.now)| < LINE_MAX - 10
    && ReadableArgv(f.argv) && cfg.known(f.argv) && !IsSelect(f.argv) && cfg.known(SelectArgv(f.db))
  }

  lemma SelectIsSelect(db: nat)
    ensures IsSelect(SelectArgv(db)) && Lower(SELECT_WORD) == SELECT
  {
    assert Lower(SELECT_WORD) == SELECT;
  }

  lemma SelectRuns(cfg: Config, e: Effect, db: nat)
    requires db < cfg.dbnum
    ensures RunOne(cfg, e, SelectArgv(db)) == e.(db := db)
  {
    SelectIsSelect(db);
    AtoiDecimal(db, []);
    assert Decimal(db) + [] == Decimal(db);
  }

  /** The state the loader is heading for: what has run and then what is queued. */
  function Heading(cfg: Config, st: Loader): Effect { RunAll(cfg, st.effect, st.queue) }

  ghost predicate Tidy(st: Loader) { !st.multi ==> st.queue == [] }

  /** Reading any command moves the heading as if the command had run at once. */
  lemma StepHeads(cfg: Config, st: Loader, argv: Argv, used: nat)
    requires Tidy(st)
    ensures var st' := Step(cfg, st, argv, used);
      && Tidy(st') && Heading(cfg, st') == RunOne(cfg, Heading(cfg, st), argv)
      && st'.multi == (if IsMulti(argv) then true else if IsExec(argv) then false else st.multi)
  {
    hide Named, RunOne, RunAll;
    NamesDiffer(argv);
    if !IsSelect(argv) { NoEffect(cfg, Heading(cfg, st), argv); }
    RunNone(cfg, st.effect);
    RunNone(cfg, Heading(cfg, st));
    RunAllGrows(cfg, st.effect, st.queue, argv);
    RunNone(cfg, RunOne(cfg, st.effect, argv));
  }

  lemma NoEffect(cfg: Config, e: Effect, argv: Argv)
    requires !IsSelect(argv)
    ensures RunOne(cfg, e, argv) == if IsMulti(argv) || IsExec(argv) then e else e.(ran := e.ran + [(e.db, argv)])
  {
  }

  lemma EnterHeads(cfg: Config, st: Loader, argv: Argv)
    requires Tidy(st)
    ensures var st' := EnterAll(cfg, st, [Cmd(argv)]);
      && Tidy(st') && Heading(cfg, st') == RunOne(cfg, Heading(cfg, st), argv)
      && st'.multi == (if IsMulti(argv) then true else if IsExec(argv) then false else st.multi)
  {
    hide Step, Encode, RunOne, RunAll, Named;
    assert EnterAll(cfg, st, [Cmd(argv)][..0]) == st;
    assert EnterAll(cfg, st, [Cmd(argv)]) == Step(cfg, st, argv, |Encode(argv)|);
    StepHeads(cfg, st, argv, |Encode(argv)|);
  }

  lemma {:induction false} EnterConcat(cfg: Config, st: Loader, a: seq<Entry>, b: seq<Entry>)
    ensures EnterAll(cfg, st, a + b) == EnterAll(cfg, EnterAll(cfg, st, a), b)
  {
    hide Enter;
    if |b| == 0 {
      assert a + b == a;
    } else {
      EnterConcat(cfg, st, a, b[..|b| - 1]);
      assert (a + b)[..|a + b| - 1] == a + b[..|b| - 1];
    }
  }

  /** The SELECT last written, if any, is the database the loader will be in. */
  ghost predicate Follows(cfg: Config, st: Loader, t: Tracker) {
    Tidy(st) && (t.selected == -1 || Heading(cfg, st).db == t.selected)
  }

  lemma EnterNote(cfg: Config, st: Loader, text: Bytes)
    ensures EnterAll(cfg, st, [Note(text)]) == st.(pos := st.pos + |text| + 3)
  {
    assert EnterAll(cfg, st, [Note(text)][..0]) == st;
  }

  lemma EnterNothing(cfg: Config, st: Loader)
    ensures EnterAll(cfg, st, []) == st
  {
  }

  lemma FeedHeads(cfg: Config, enabled: bool, st: Loader, t: Tracker, f: Feed)
    requires Follows(cfg, st, t) && Feedable(cfg, f)
    ensures var st' := EnterAll(cfg, st, FeedEntries(enabled, t, f));
      && Follows(cfg, st', FeedTracker(enabled, t, f))
      && Heading(cfg, st').ran == Heading(cfg, st).ran + MeantBy(f)
      && st'.multi == OpenAfter(st.multi, f)
  {
    hide RunAll, RunOne, EnterAll, Named, ReadableArgv;
    if f.Reset? {
      EnterNothing(cfg, st);
      return;
    }
    var note := if Stamps(enabled, t, f.now) then [Note(TS + Decimal(f.now))] else [];
    var sel := if f.db != t.selected then [Cmd(SelectArgv(f.db))] else [];
    var st1 := EnterAll(cfg, st, note);
    EnterNothing(cfg, st);
    EnterNote(cfg, st, TS + Decimal(f.now));
    assert st1 == st.(pos := st1.pos);
    var st2 := EnterAll(cfg, st1, sel);
    EnterNothing(cfg, st1);
    EnterHeads(cfg, st1, SelectArgv(f.db));
    SelectIsSelect(f.db);
    NamesDiffer(SelectArgv(f.db));
    SelectRuns(cfg, Heading(cfg, st1), f.db);
    assert Heading(cfg, st2) == Heading(cfg, st).(db := f.db) && st2.multi == st.multi && Tidy(st2);
    EnterHeads(cfg, st2, f.argv);
    NoEffect(cfg, Heading(cfg, st2), f.argv);
    EnterConcat(cfg, st, note, sel);
    EnterConcat(cfg, st, note + sel, [Cmd(f.argv)]);
  }

  ghost predicate AllFeedable(cfg: Config, fs: seq<Feed>) { forall f | f in fs :: Feedable(cfg, f) }

  /** Whatever is fed to a log, with a transaction open in it or not. */
  lemma {:induction false} FeedsHead(cfg: Config, enabled: bool, st: Loader, t: Tracker, fs: seq<Feed>)
    requires AllFeedable(cfg, fs) && Follows(cfg, st, t)
    ensures var st' := EnterAll(cfg, st, LogOf(enabled, t, fs)); var heading := Heading(cfg, st).ran;
      && Follows(cfg, st', Track(enabled, t, fs)) && st'.multi == OpenFrom(st.multi, fs)
      && Heading(cfg, st').ran == heading + Meant(fs) && st'.effect.ran == Ran(st.effect.ran, heading, st.multi, fs)
  {
    hide Feedable, FeedEntries, FeedTracker, EnterAll, RunAll, Named, OpenAfter, MeantBy;
    if |fs| == 0 {
      EnterNothing(cfg, st);
      RunNone(cfg, st.effect);
    } else {
      var front, f := fs[..|fs| - 1], fs[|fs| - 1];
      FeedsHead(cfg, enabled, st, t, front);
      var st1, t1 := EnterAll(cfg, st, LogOf(enabled, t, front)), Track(enabled, t, front);
      FeedHeads(cfg, enabled, st1, t1, f);
      EnterConcat(cfg, st, LogOf(enabled, t, front), FeedEntries(enabled, t1, f));
      var st' := EnterAll(cfg, st1, FeedEntries(enabled, t1, f));
      if st'.multi { OpenRunsNothing(cfg, enabled, t1, f, st1); } else { RunNone(cfg, st'.effect); }
      assert Heading(cfg, st).ran + Meant(front) + MeantBy(f) == Heading(cfg, st).ran + Meant(fs);
    }
  }

  lemma FeedWritable(cfg: Config, enabled: bool, t: Tracker, f: Feed)
    requires Feedable(cfg, f)
    ensures AllWritable(cfg, FeedEntries(enabled, t, f))
  {
    if f.Reset? { return; }
    var sel := SelectArgv(f.db);
    assert sel[0] == SELECT_WORD && sel[1] == Decimal(f.db);
    assert |Decimal(2)| == 1 && |Decimal(6)| == 1;
    assert ReadableArgv(sel);
    assert LF !in TS + Decimal(f.now) by {
      forall i | 0 <= i < |TS + Decimal(f.now)| ensures (TS + Decimal(f.now))[i] != LF {
        if i >= 3 { assert IsDigit(Decimal(f.now)[i - 3]); }
      }
    }
  }

  lemma {:induction false} LogWritable(cfg: Config, enabled: bool, t: Tracker, fs: seq<Feed>)
    requires AllFeedable(cfg, fs)
    ensures AllWritable(cfg, LogOf(enabled, t, fs))
  {
    hide Feedable, FeedEntries, FeedTracker, Writable;
    if |fs| > 0 {
      LogWritable(cfg, enabled, t, fs[..|fs| - 1]);
      FeedWritable(cfg, enabled, Track(enabled, t, fs[..|fs| - 1]), fs[|fs| - 1]);
    }
  }

  /**
   The log round trip: whatever is fed after `aof_selected_db` was reset to -1, and however often it is reset again,
   the loader starting in database 0 runs exactly those commands, in order, each in its own database.
   */
  lemma FedLogLoads(cfg: Config, enabled: bool, stamp: nat, fs: seq<Feed>)
    requires AllFeedable(cfg, fs) && !Open(fs)
    ensures var r := Load(cfg, EncodeLog(LogOf(enabled, Tracker(-1, stamp), fs)), START);
      r.status == Ok && r.effect.ran == Meant(fs)
  {
    hide *;
    FedLogRuns(cfg, enabled, stamp, fs);
  }

  /** With a transaction left open or not. */
  lemma FedLogRuns(cfg: Config, enabled: bool, stamp: nat, fs: seq<Feed>)
    requires AllFeedable(cfg, fs)
    ensures var r := Load(cfg, EncodeLog(LogOf(enabled, Tracker(-1, stamp), fs)), START);
      (r.status == Ok <==> !Open(fs)) && r.effect.ran == Meant(Closed(fs)) && (!Open(fs) ==> r.effect.ran == Meant(fs))
  {
    hide Load, EnterAll, LogOf, AllFeedable, AllWritable, Meant, OpenFrom, EncodeLog, RunAll, Track, Follows, Closed, Ran;
    var t := Tracker(-1, stamp);
    LogWritable(cfg, enabled, t, fs);
    StartFollows(cfg, stamp);
    FeedsHead(cfg, enabled, START, t, fs);
    WholeLogLoads(cfg, LogOf(enabled, t, fs));
    RunNone(cfg, START.effect);
    RanBehindClosed([], fs);
    if !Open(fs) { ClosedAll(fs); }
    assert [] + Meant(Closed(fs)) == Meant(Closed(fs));
  }

  lemma {:induction false} WholeConcat(a: seq<Entry>, b: seq<Entry>, n: nat)
    requires |EncodeLog(a)| <= n
    ensures Whole(a + b, n) == |a| + Whole(b, n - |EncodeLog(a)|)
    decreases |b|
  {
    hide EncodeLog;
    EncodeConcat(a, b);
    if |b| == 0 {
      EncodeNothing(b);
      assert a + b == a;
    } else {
      WholeConcat(a, b[..|b| - 1], n);
      assert (a + b)[..|a + b| - 1] == a + b[..|b| - 1];
    }
  }

  lemma StartFollows(cfg: Config, stamp: nat)
    ensures Follows(cfg, START, Tracker(-1, stamp))
  {
  }

  lemma ClosedAll(fs: seq<Feed>)
    requires !Open(fs)
    ensures Closed(fs) == fs
  {
  }

  /** The annotation and the SELECT before a command run nothing, in a transaction or not. */
  lemma PartFeedRunsNothing(cfg: Config, enabled: bool, t: Tracker, f: Feed, j: nat, st: Loader)
    requires Feedable(cfg, f) && j < |FeedEntries(enabled, t, f)|
    ensures var st' := EnterAll(cfg, st, FeedEntries(enabled, t, f)[..j]); st'.multi == st.multi && st'.effect.ran == st.effect.ran
  {
    hide EnterAll, Named, ReadableArgv, RunOne, RunAll;
    var note, sel := Note(TS + Decimal(f.now)), Cmd(SelectArgv(f.db));
    var st1 := if Stamps(enabled, t, f.now) then EnterAll(cfg, st, [note]) else st;
    EnterNote(cfg, st, TS + Decimal(f.now));
    EnterNothing(cfg, st);
    EnterSelect(cfg, st1, f.db);
    EnterConcat(cfg, st, [note], [sel]);
    var part := FeedEntries(enabled, t, f)[..j];
    assert part == [] || part == [note] || part == [sel] || part == [note] + [sel];
  }

  lemma EnterSelect(cfg: Config, st: Loader, db: nat)
    requires db < cfg.dbnum
    ensures var st' := EnterAll(cfg, st, [Cmd(SelectArgv(db))]); st'.multi == st.multi && st'.effect.ran == st.effect.ran
  {
    hide Named, RunOne, RunAll, Encode;
    var argv := SelectArgv(db);
    EnterOne(cfg, st, argv);
    SelectIsSelect(db);
    NamesDiffer(argv);
    SelectRuns(cfg, st.effect, db);
  }

  lemma EnterOne(cfg: Config, st: Loader, argv: Argv)
    ensures EnterAll(cfg, st, [Cmd(argv)]) == Step(cfg, st, argv, |Encode(argv)|)
  {
    hide Step, Encode;
    assert EnterAll(cfg, st, [Cmd(argv)][..0]) == st;
  }

  /** A feed that leaves a transaction open runs nothing. */
  lemma OpenRunsNothing(cfg: Config, enabled: bool, t: Tracker, f: Feed, st: Loader)
    requires Feedable(cfg, f) && EnterAll(cfg, st, FeedEntries(enabled, t, f)).multi
    ensures EnterAll(cfg, st, FeedEntries(enabled, t, f)).effect.ran == st.effect.ran
  {
    hide EnterAll, Named, ReadableArgv, RunOne, RunAll, Feedable, Encode;
    var es := FeedEntries(enabled, t, f);
    if |es| == 0 {
      EnterNothing(cfg, st);
    } else {
      var j := |es| - 1;
      PartFeedRunsNothing(cfg, enabled, t, f, j, st);
      EnterConcat(cfg, st, es[..j], [Cmd(f.argv)]);
      assert es == es[..j] + [Cmd(f.argv)];
      EnterOne(cfg, EnterAll(cfg, st, es[..j]), f.argv);
    }
  }

  /** How many feeds lie wholly within the first `n` bytes written for them. */
  function FeedsIn(enabled: bool, t: Tracker, fs: seq<Feed>, n: nat): (k: nat)
    ensures k <= |fs|
  {
    if |fs| == 0 || |EncodeLog(LogOf(enabled, t, fs))| <= n then |fs| else FeedsIn(enabled, t, fs[..|fs| - 1], n)
  }

  lemma WholeFront(a: seq<Entry>, b: seq<Entry>, n: nat)
    requires n < |EncodeLog(a)|
    ensures Whole(a + b, n) == Whole(a, n)
    decreases |b|
  {
    hide EncodeLog;
    EncodeConcat(a, b);
    if |b| == 0 {
      assert a + b == a;
    } else {
      WholeFront(a, b[..|b| - 1], n);
      assert (a + b)[..|a + b| - 1] == a + b[..|b| - 1];
    }
  }

  /** A log which the tracker follows; a transaction may be open in it. */
  ghost predicate Ready(cfg: Config, es: seq<Entry>, t: Tracker) {
    AllWritable(cfg, es) && Follows(cfg, EnterAll(cfg, START, es), t)
  }

  /** What has run when `fs` are read behind the log, and whether a transaction is open then. */
  function RanBehind(cfg: Config, es: seq<Entry>, fs: seq<Feed>): seq<(nat, Argv)> {
    var st := EnterAll(cfg, START, es);
    Ran(st.effect.ran, Heading(cfg, st).ran, st.multi, fs)
  }

  predicate OpenBehind(cfg: Config, es: seq<Entry>, fs: seq<Feed>) { OpenFrom(EnterAll(cfg, START, es).multi, fs) }

  /** Where the loader stands at any cut of what was fed to a log. */
  lemma {:induction false} TornStands(cfg: Config, enabled: bool, es: seq<Entry>, t: Tracker, fs: seq<Feed>, n: nat)
    requires Ready(cfg, es, t) && AllFeedable(cfg, fs) && n <= |EncodeLog(LogOf(enabled, t, fs))|
    ensures var all := es + LogOf(enabled, t, fs); var k := FeedsIn(enabled, t, fs, n);
      var st := EnterAll(cfg, START, all[..Whole(all, |EncodeLog(es)| + n)]);
      st.effect.ran == RanBehind(cfg, es, fs[..k]) && st.multi == OpenBehind(cfg, es, fs[..k])
    decreases |fs|
  {
    hide Feedable, FeedEntries, EncodeLog, EnterAll, Whole, Meant, OpenFrom, Ran, RunAll, Track, AllWritable, Follows;
    var log, st0 := LogOf(enabled, t, fs), EnterAll(cfg, START, es);
    EncodeConcat(es, log);
    EnterConcat(cfg, START, es, log);
    if n == |EncodeLog(log)| {
      FeedsHead(cfg, enabled, st0, t, fs);
      WholeAll(es + log);
      assert (es + log)[..|es + log|] == es + log && fs[..|fs|] == fs;
    } else {
      LogOfNothing(enabled, t, fs);
      var front, f := fs[..|fs| - 1], fs[|fs| - 1];
      var a, b := LogOf(enabled, t, front), FeedEntries(enabled, Track(enabled, t, front), f);
      EncodeConcat(a, b);
      EncodeConcat(es, a);
      assert es + log == (es + a) + b && fs[..|fs|] == fs;
      if n < |EncodeLog(a)| {
        WholeFront(es + a, b, |EncodeLog(es)| + n);
        TornStands(cfg, enabled, es, t, front, n);
        var w := Whole(es + a, |EncodeLog(es)| + n);
        assert (es + log)[..w] == (es + a)[..w];
        assert forall k | 0 <= k <= |front| :: front[..k] == fs[..k];
      } else {
        TornInside(cfg, enabled, es, t, front, f, n);
        assert front[..|front|] == front == fs[..|front|];
        FeedsInFront(enabled, t, fs, n);
      }
    }
  }

  lemma WholeAll(es: seq<Entry>)
    ensures Whole(es, |EncodeLog(es)|) == |es|
  {
  }

  lemma LogOfNothing(enabled: bool, t: Tracker, fs: seq<Feed>)
    ensures |fs| == 0 ==> |EncodeLog(LogOf(enabled, t, fs))| == 0
  {
  }

  lemma FeedsInFront(enabled: bool, t: Tracker, fs: seq<Feed>, n: nat)
    requires |fs| > 0 && |EncodeLog(LogOf(enabled, t, fs[..|fs| - 1]))| <= n < |EncodeLog(LogOf(enabled, t, fs))|
    ensures FeedsIn(enabled, t, fs, n) == |fs| - 1
  {
    hide EncodeLog, LogOf;
  }

  /** The cut inside the last feed. */
  lemma TornInside(cfg: Config, enabled: bool, es: seq<Entry>, t: Tracker, front: seq<Feed>, f: Feed, n: nat)
    requires Ready(cfg, es, t) && AllFeedable(cfg, front) && Feedable(cfg, f)
    requires var a, b := LogOf(enabled, t, front), FeedEntries(enabled, Track(enabled, t, front), f);
      |EncodeLog(a)| <= n < |EncodeLog(a + b)|
    ensures var all := es + LogOf(enabled, t, front) + FeedEntries(enabled, Track(enabled, t, front), f);
      var st := EnterAll(cfg, START, all[..Whole(all, |EncodeLog(es)| + n)]);
      st.effect.ran == RanBehind(cfg, es, front) && st.multi == OpenBehind(cfg, es, front)
  {
    hide Feedable, FeedEntries, EncodeLog, EnterAll, Whole, Meant, OpenFrom, Ran, RunAll, Track, AllWritable, Follows, LogOf;
    var a, b := LogOf(enabled, t, front), FeedEntries(enabled, Track(enabled, t, front), f);
    EncodeConcat(a, b);
    EncodeConcat(es, a);
    WholeConcat(es + a, b, |EncodeLog(es)| + n);
    var j := Whole(b, n - |EncodeLog(a)|);
    CutShort(b, n - |EncodeLog(a)|);
    FeedsHead(cfg, enabled, EnterAll(cfg, START, es), t, front);
    EnterConcat(cfg, START, es, a);
    var st := EnterAll(cfg, START, es + a);
    PartFeedRunsNothing(cfg, enabled, Track(enabled, t, front), f, j, st);
    EnterConcat(cfg, START, es + a, b[..j]);
    assert (es + a + b)[..|es + a| + j] == (es + a) + b[..j];
  }

  /** A log with what is fed behind it, and the feeds of which a file holds every byte. */
  function Fed(enabled: bool, es: seq<Entry>, t: Tracker, fs: seq<Feed>): seq<Entry> { es + LogOf(enabled, t, fs) }

  function InFull(enabled: bool, es: seq<Entry>, t: Tracker, fs: seq<Feed>, p: Bytes): seq<Feed>
    requires |EncodeLog(es)| <= |p|
  {
    fs[..FeedsIn(enabled, t, fs, |p| - |EncodeLog(es)|)]
  }

  /**
   A crash in the middle of a write: the file loads to what reading the feeds written in full behind it has run. It loads
   as whole if and only if no transaction is open and it ends between two entries or inside an annotation; otherwise it
   is cut, or refused if the server is not to load a cut log.
   */
  lemma TornFeedLoads(cfg: Config, enabled: bool, es: seq<Entry>, t: Tracker, fs: seq<Feed>, p: Bytes)
    requires Ready(cfg, es, t) && AllFeedable(cfg, fs) && |EncodeLog(es)| <= |p| && p <= EncodeLog(Fed(enabled, es, t, fs))
    ensures var whole := InFull(enabled, es, t, fs, p); var r := Load(cfg, p, START);
      && r.effect.ran == RanBehind(cfg, es, whole)
      && (r.status.Ok? <==> !OpenBehind(cfg, es, whole) && EndsCleanly(Fed(enabled, es, t, fs), p))
      && (!r.status.Ok? ==> if cfg.loadTruncated then r.status.Truncated? else r.status.Failed?)
  {
    hide *;
    FedWritable(cfg, enabled, es, t, fs);
    TornIs(cfg, enabled, es, t, fs, p);
    CutStatus(cfg, Fed(enabled, es, t, fs), p);
  }

  lemma FedWritable(cfg: Config, enabled: bool, es: seq<Entry>, t: Tracker, fs: seq<Feed>)
    requires Ready(cfg, es, t) && AllFeedable(cfg, fs)
    ensures AllWritable(cfg, Fed(enabled, es, t, fs))
  {
    hide AllWritable, LogOf, AllFeedable, Follows, EnterAll;
    LogWritable(cfg, enabled, t, fs);
    WritableBoth(cfg, es, LogOf(enabled, t, fs));
  }

  lemma TornIs(cfg: Config, enabled: bool, es: seq<Entry>, t: Tracker, fs: seq<Feed>, p: Bytes)
    requires Ready(cfg, es, t) && AllFeedable(cfg, fs) && |EncodeLog(es)| <= |p| && p <= EncodeLog(Fed(enabled, es, t, fs))
    ensures var st := StandAt(cfg, Fed(enabled, es, t, fs), p); var whole := InFull(enabled, es, t, fs, p);
      st.effect.ran == RanBehind(cfg, es, whole) && st.multi == OpenBehind(cfg, es, whole)
  {
    hide Ready, AllFeedable, EncodeLog, LogOf, EnterAll, Whole, RanBehind, OpenBehind, FeedsIn;
    EncodeConcat(es, LogOf(enabled, t, fs));
    TornStands(cfg, enabled, es, t, fs, |p| - |EncodeLog(es)|);
  }

  lemma WritableBoth(cfg: Config, a: seq<Entry>, b: seq<Entry>)
    requires AllWritable(cfg, a) && AllWritable(cfg, b)
    ensures AllWritable(cfg, a + b)
  {
    hide Writable;
  }

  /** How a cut log loads: as whole, cut, or refused. */
  lemma CutStatus(cfg: Config, es: seq<Entry>, p: Bytes)
    requires AllWritable(cfg, es) && p <= EncodeLog(es)
    ensures var st := StandAt(cfg, es, p); var r := Load(cfg, p, START);
      && r.effect == st.effect && (r.status.Ok? <==> !st.multi && EndsCleanly(es, p))
      && (!r.status.Ok? ==> if cfg.loadTruncated then r.status.Truncated? else r.status.Failed?)
  {
    hide Load, EncodeLog, EnterAll, Whole, AllWritable, EndsCleanly, StandAt;
    CutLogLoads(cfg, es, p);
  }

  lemma CutShort(es: seq<Entry>, n: nat)
    requires n < |EncodeLog(es)|
    ensures Whole(es, n) < |es|
  {
    hide EncodeEntry;
    if |es| > 0 { assert Whole(es, n) == Whole(es[..|es| - 1], n); }
  }

  datatype AofState = AofOff | AofOn | AofWaitRewrite

  /** The part of the server that `feedAppendOnlyFile` changes. */
  class Feeder {
    const timestampEnabled: bool
    const dbnum: nat
    var state: AofState
    var childIsAof: bool
    var buf: Bytes
    var selected: int
    var stamp: nat

    constructor (timestampEnabled: bool, dbnum: nat, state: AofState, childIsAof: bool)
      ensures this.timestampEnabled == timestampEnabled && this.dbnum == dbnum
      ensures this.state == state && this.childIsAof == childIsAof
      ensures buf == [] && selected == -1 && stamp == 0
    {
      this.timestampEnabled, this.dbnum, this.state, this.childIsAof := timestampEnabled, dbnum, state, childIsAof;
      buf, selected, stamp := [], -1, 0;
    }

    /** `feedAppendOnlyFile` */
    method FeedAppendOnlyFile(dictid: nat, argv: Argv, unixtime: nat)
      requires dictid < dbnum
      modifies this`buf, this`selected, this`stamp
      ensures var f := Feed(dictid, argv, unixtime); var t := Tracker(old(selected), old(stamp));
        && Tracker(selected, stamp) == FeedTracker(timestampEnabled, t, f)
        && buf == old(buf) + (if state == AofOn || (state == AofWaitRewrite && childIsAof) then EncodeLog(FeedEntries(timestampEnabled, t, f)) else [])
    {
      hide EncodeLog, Decimal, Encode;
      ghost var t := Tracker(selected, stamp);
      var text := [];
      ghost var es: seq<Entry> := [];
      EncodeNothing(es);
      if timestampEnabled && stamp < unixtime {
        stamp := unixtime;
        text := text + ([HASH] + TS + Decimal(stamp) + CRLF);
        EncodeOneMore(es, Note(TS + Decimal(unixtime)));
        assert [HASH] + TS + Decimal(unixtime) + CRLF == [HASH] + (TS + Decimal(unixtime)) + CRLF;
        es := es + [Note(TS + Decimal(unixtime))];
      }
      if dictid != selected {
        var seldb := Decimal(dictid);
        text := text + ([STAR, 50, CR, LF, DOLLAR, 54, CR, LF] + SELECT_WORD + [CR, LF, DOLLAR] + Decimal(|seldb|) + CRLF + seldb + CRLF);
        selected := dictid;
        SelectText(dictid);
        EncodeOneMore(es, Cmd(SelectArgv(dictid)));
        es := es + [Cmd(SelectArgv(dictid))];
      }
      text := CatAppendOnlyGenericCommand(text, argv);
      EncodeOneMore(es, Cmd(argv));
      es := es + [Cmd(argv)];
      assert es == FeedEntries(timestampEnabled, t, Feed(dictid, argv, unixtime));
      if state == AofOn || (state == AofWaitRewrite && childIsAof) {
        buf := buf + text;
      }
    }
  }

  /**
   A server from its start on, with whatever is fed to it and however often the selected database is forgotten. With the
   log on, or a rewrite awaited with its child at work, the buffer loads to exactly the commands fed, each in its
   database; a transaction left open is left out. Otherwise nothing is ever buffered.
   */
  method FeedAll(cfg: Config, enabled: bool, state: AofState, childIsAof: bool, fs: seq<Feed>) returns (buf: Bytes)
    requires AllFeedable(cfg, fs)
    ensures state == AofOff || (state == AofWaitRewrite && !childIsAof) ==> buf == []
    ensures state == AofOn || (state == AofWaitRewrite && childIsAof) ==>
      var r := Load(cfg, buf, START); (r.status == Ok <==> !Open(fs)) && r.effect.ran == Meant(Closed(fs)) && (!Open(fs) ==> r.effect.ran == Meant(fs))
  {
    hide *;
    var feeder := new Feeder(enabled, cfg.dbnum, state, childIsAof);
    ghost var t := Tracker(-1, 0);
    NothingFed(enabled, t);
    for i := 0 to |fs|
      invariant feeder.timestampEnabled == enabled && feeder.dbnum == cfg.dbnum && feeder.state == state && feeder.childIsAof == childIsAof
      invariant Tracker(feeder.selected, feeder.stamp) == Track(enabled, t, fs[..i])
      invariant state == AofOff || (state == AofWaitRewrite && !childIsAof) ==> feeder.buf == []
      invariant state == AofOn || (state == AofWaitRewrite && childIsAof) ==> feeder.buf == EncodeLog(LogOf(enabled, t, fs[..i]))
    {
      assert fs[..i + 1] == fs[..i] + [fs[i]];
      FeedExtendsLog(enabled, t, fs[..i], fs[i]);
      FeedIs(cfg, enabled, Track(enabled, t, fs[..i]), fs, i);
      match fs[i]
      case Feed(db, argv, now) => feeder.FeedAppendOnlyFile(db, argv, now);
      case Reset(stamp) => feeder.selected, feeder.stamp := -1, stamp;
    }
    assert fs[..|fs|] == fs;
    buf := feeder.buf;
    FedLogRuns(cfg, enabled, 0, fs);
  }

  lemma NothingFed(enabled: bool, t: Tracker)
    ensures Track(enabled, t, []) == t && EncodeLog(LogOf(enabled, t, [])) == []
  {
  }

  lemma FeedIs(cfg: Config, enabled: bool, t: Tracker, fs: seq<Feed>, i: nat)
    requires AllFeedable(cfg, fs) && i < |fs|
    ensures fs[i].Feed? ==> fs[i].db < cfg.dbnum
    ensures fs[i].Reset? ==> FeedTracker(enabled, t, fs[i]) == Tracker(-1, fs[i].stamp) && EncodeLog(FeedEntries(enabled, t, fs[i])) == []
  {
    assert Feedable(cfg, fs[i]);
  }

  /** Without MULTI and EXEC, what is meant is what is fed, one by one. */
  lemma {:induction false} PlainFeedsMeant(fs: seq<Feed>)
    requires forall f | f in fs :: f.Feed? && !IsMulti(f.argv) && !IsExec(f.argv)
    ensures !Open(fs) && |Meant(fs)| == |fs| && forall i | 0 <= i < |fs| :: Meant(fs)[i] == (fs[i].db, fs[i].argv)
  {
    hide IsMulti, IsExec;
    if |fs| > 0 {
      PlainFeedsMeant(fs[..|fs| - 1]);
      assert fs[|fs| - 1] in fs;
    }
  }

  lemma EncodeOneMore(es: seq<Entry>, e: Entry)
    ensures EncodeLog(es + [e]) == EncodeLog(es) + EncodeEntry(e)
  {
    hide EncodeEntry;
    assert (es + [e])[..|es|] == es;
  }

  lemma Assoc(a: Bytes, b: Bytes, c: Bytes)
    ensures a + (b + c) == (a + b) + c
  {
  }

  lemma {:induction false} EncodeConcat(a: seq<Entry>, b: seq<Entry>)
    ensures EncodeLog(a + b) == EncodeLog(a) + EncodeLog(b)
  {
    hide EncodeEntry;
    if |b| == 0 {
      assert a + b == a;
    } else {
      EncodeConcat(a, b[..|b| - 1]);
      assert (a + b)[..|a + b| - 1] == a + b[..|b| - 1];
    }
  }

  /** So a buffer that holds the log of `fs` holds the log of one feed more after the call. */
  lemma FeedExtendsLog(enabled: bool, t: Tracker, fs: seq<Feed>, f: Feed)
    ensures EncodeLog(LogOf(enabled, t, fs + [f]))
      == EncodeLog(LogOf(enabled, t, fs)) + EncodeLog(FeedEntries(enabled, Track(enabled, t, fs), f))
    ensures Track(enabled, t, fs + [f]) == FeedTracker(enabled, Track(enabled, t, fs), f)
  {
    hide EncodeLog, FeedEntries;
    assert (fs + [f])[..|fs|] == fs;
    EncodeConcat(LogOf(enabled, t, fs), FeedEntries(enabled, Track(enabled, t, fs), f));
  }

  /** The SELECT text printed by hand is the command's encoding. */
  lemma SelectText(db: nat)
    ensures [STAR, 50, CR, LF, DOLLAR, 54, CR, LF] + SELECT_WORD + [CR, LF, DOLLAR] + Decimal(|Decimal(db)|) + CRLF + Decimal(db) + CRLF
      == Encode(SelectArgv(db))
  {
    hide Decimal, Bulks, Bulk, Header;
    var d := Decimal(db);
    SelectParts();
    TwoBulks(SELECT_WORD, d);
    BulkIs(d);
    SplitText([STAR, 50, CR, LF], [DOLLAR, 54, CR, LF], SELECT_WORD, Decimal(|d|), d);
  }

  lemma SplitText(h: Bytes, b: Bytes, w: Bytes, n: Bytes, d: Bytes)
    ensures h + b + w + [CR, LF, DOLLAR] + n + CRLF + d + CRLF == h + ((b + w + CRLF) + ([DOLLAR] + n + CRLF + d + CRLF))
  {
  }

  lemma SelectParts()
    ensures Header(2) == [STAR, 50, CR, LF] && Bulk(SELECT_WORD) == [DOLLAR, 54, CR, LF] + SELECT_WORD + CRLF
  {
    assert Decimal(2) == [50] && Decimal(6) == [54];
  }

  lemma BulkIs(d: Bytes)
    ensures Bulk(d) == [DOLLAR] + Decimal(|d|) + CRLF + d + CRLF
  {
  }

  lemma TwoBulks(a: Bytes, b: Bytes)
    ensures Bulks([a, b]) == Bulk(a) + Bulk(b)
  {
    hide Bulk;
    assert [a, b][1..] == [b] && [b][1..] == [];
    assert Bulks([b]) == Bulk(b) + Bulks([b][1..]);
  }
}
