/** The format of the append-only log and the commands in it, letter by letter (aof.c). */
module AofFormat {
  import opened AofLog
  import opened Options
  import R = AofRewrite

  predicate IsAscii(s: string) { forall i | 0 <= i < |s| :: s[i] as int < 256 }

  /** The bytes of a text. */
  function Ascii(s: string): Bytes
    requires IsAscii(s)
  {
    seq(|s|, i requires 0 <= i < |s| => s[i] as int)
  }

  lemma AsciiConcat(a: string, b: string)
    requires IsAscii(a) && IsAscii(b)
    ensures IsAscii(a + b) && Ascii(a + b) == Ascii(a) + Ascii(b)
  {
  }

  // ------------------------------------------------------------------ the log

  function Digit(n: nat): string
    requires n < 10
  {
    ["0123456789"[n]]
  }

  lemma DigitText(n: nat)
    requires n < 10
    ensures IsAscii(Digit(n)) && Ascii(Digit(n)) == Decimal(n)
  {
  }

  lemma Marks()
    ensures IsAscii("*") && IsAscii("$") && IsAscii("\r\n") && IsAscii("#TS:")
    ensures Ascii("*") == [STAR] && Ascii("$") == [DOLLAR] && Ascii("\r\n") == CRLF && Ascii("#TS:") == [HASH] + TS
  {
  }

  /** An argument of up to nine bytes. */
  function Arg(s: string): string
    requires |s| < 10
  {
    "$" + Digit(|s|) + "\r\n" + s + "\r\n"
  }

  lemma ArgText(s: string)
    requires IsAscii(s) && |s| < 10
    ensures IsAscii(Arg(s)) && Bulk(Ascii(s)) == Ascii(Arg(s))
  {
    Marks();
    DigitText(|s|);
    assert |Ascii(s)| == |s|;
    hide Ascii, Digit, Decimal, IsAscii;
    AsciiConcat("$", Digit(|s|));
    AsciiConcat("$" + Digit(|s|), "\r\n");
    AsciiConcat("$" + Digit(|s|) + "\r\n", s);
    AsciiConcat("$" + Digit(|s|) + "\r\n" + s, "\r\n");
  }

  lemma HeaderText(n: nat)
    requires n < 10
    ensures IsAscii("*" + Digit(n) + "\r\n") && Header(n) == Ascii("*" + Digit(n) + "\r\n")
  {
    Marks();
    DigitText(n);
    hide Ascii, Digit, Decimal, IsAscii;
    AsciiConcat("*", Digit(n));
    AsciiConcat("*" + Digit(n), "\r\n");
  }

  lemma BulksOne(a: Bytes)
    ensures Bulks([a]) == Bulk(a)
  {
    hide Bulk;
    BulksNone([a][1..]);
    assert Bulk(a) + [] == Bulk(a);
  }

  lemma BulksOfThree(a: Bytes, b: Bytes, c: Bytes)
    ensures Bulks([a, b, c]) == Bulk(a) + Bulk(b) + Bulk(c) && Bulks([a, b]) == Bulk(a) + Bulk(b)
  {
    hide Bulk, Bulks;
    BulksOne(a);
    BulksOne(b);
    BulksOne(c);
    BulksConcat([a], [b]);
    BulksConcat([a, b], [c]);
    assert [a] + [b] == [a, b] && [a, b] + [c] == [a, b, c];
  }

  /** A command of three short words. */
  lemma CommandText(a: string, b: string, c: string)
    requires IsAscii(a) && IsAscii(b) && IsAscii(c) && |a| < 10 && |b| < 10 && |c| < 10
    ensures var text := "*" + "3" + "\r\n" + (Arg(a) + Arg(b) + Arg(c)); IsAscii(text) && Encode([Ascii(a), Ascii(b), Ascii(c)]) == Ascii(text)
  {
    HeaderText(3);
    ArgText(a);
    ArgText(b);
    ArgText(c);
    BulksOfThree(Ascii(a), Ascii(b), Ascii(c));
    assert Digit(3) == "3";
    hide *;
    EncodeIs([Ascii(a), Ascii(b), Ascii(c)]);
    AsciiConcat(Arg(a), Arg(b));
    AsciiConcat(Arg(a) + Arg(b), Arg(c));
    AsciiConcat("*" + "3" + "\r\n", Arg(a) + Arg(b) + Arg(c));
  }

  lemma EncodeIs(argv: Argv)
    ensures Encode(argv) == Header(|argv|) + Bulks(argv)
  {
  }

  /** The pieces of any feed: an annotation if the second is new and annotations are on, a SELECT if the database is not the selected one. */
  lemma FeedShape(enabled: bool, t: Tracker, db: nat, argv: Argv, now: nat)
    ensures EncodeLog(FeedEntries(enabled, t, Feed(db, argv, now))) ==
      (if enabled && t.stamp < now then [HASH] + (TS + Decimal(now)) + CRLF else [])
      + (if db != t.selected then Encode([SELECT_WORD, Decimal(db)]) else []) + Encode(argv)
  {
    var note := if enabled && t.stamp < now then [Note(TS + Decimal(now))] else [];
    var select := if db != t.selected then [Cmd(SelectArgv(db))] else [];
    FeedIsThree(enabled, t, db, argv, now);
    OneOrNone(enabled && t.stamp < now, Note(TS + Decimal(now)));
    OneOrNone(db != t.selected, Cmd(SelectArgv(db)));
    OneOrNone(true, Cmd(argv));
    EntryBytes(now, db, argv);
    hide *;
    EncodeConcat(note, select);
    EncodeConcat(note + select, [Cmd(argv)]);
  }

  lemma FeedIsThree(enabled: bool, t: Tracker, db: nat, argv: Argv, now: nat)
    ensures FeedEntries(enabled, t, Feed(db, argv, now)) ==
      (if enabled && t.stamp < now then [Note(TS + Decimal(now))] else []) + (if db != t.selected then [Cmd(SelectArgv(db))] else []) + [Cmd(argv)]
  {
    hide Decimal;
  }

  lemma OneOrNone(there: bool, e: Entry)
    ensures EncodeLog(if there then [e] else []) == if there then EncodeEntry(e) else []
  {
    hide EncodeEntry;
    assert [e][..0] == [];
  }

  lemma EntryBytes(now: nat, db: nat, argv: Argv)
    ensures EncodeEntry(Note(TS + Decimal(now))) == [HASH] + (TS + Decimal(now)) + CRLF
    ensures EncodeEntry(Cmd(SelectArgv(db))) == Encode([SELECT_WORD, Decimal(db)]) && EncodeEntry(Cmd(argv)) == Encode(argv)
  {
    hide Decimal, Encode;
  }

  /** What is fed first to a log with timestamps on, in database 3 at second 7. */
  lemma FeedText(argv: Argv)
    ensures IsAscii("#TS:7\r\n") && IsAscii("*" + "2" + "\r\n" + (Arg("SELECT") + Arg("3")))
    ensures EncodeLog(FeedEntries(true, Tracker(-1, 0), Feed(3, argv, 7)))
      == Ascii("#TS:7\r\n") + Ascii("*" + "2" + "\r\n" + (Arg("SELECT") + Arg("3"))) + Encode(argv)
  {
    NoteText();
    SelectLetters();
    FeedParts(argv);
    hide *;
  }

  lemma NoteText()
    ensures IsAscii("#TS:7\r\n") && EncodeEntry(Note(TS + Decimal(7))) == Ascii("#TS:7\r\n")
  {
  }

  lemma SelectLetters()
    ensures IsAscii("*" + "2" + "\r\n" + (Arg("SELECT") + Arg("3"))) && IsAscii("SELECT")
    ensures EncodeEntry(Cmd(SelectArgv(3))) == Ascii("*" + "2" + "\r\n" + (Arg("SELECT") + Arg("3")))
  {
    HeaderText(2);
    ArgText("SELECT");
    ArgText("3");
    DigitText(3);
    assert Digit(2) == "2" && Digit(3) == "3";
    SelectWord();
    BulksOfThree(Ascii("SELECT"), Ascii("3"), []);
    EncodeIs(SelectArgv(3));
    hide Ascii, Digit, Decimal, IsAscii, Bulks, Bulk, Header, Arg, Encode;
    AsciiConcat(Arg("SELECT"), Arg("3"));
    AsciiConcat("*" + "2" + "\r\n", Arg("SELECT") + Arg("3"));
  }

  lemma SelectWord()
    ensures IsAscii("SELECT") && Ascii("SELECT") == SELECT_WORD
  {
  }

  lemma FeedParts(argv: Argv)
    ensures EncodeLog(FeedEntries(true, Tracker(-1, 0), Feed(3, argv, 7)))
      == EncodeEntry(Note(TS + Decimal(7))) + EncodeEntry(Cmd(SelectArgv(3))) + Encode(argv)
  {
    hide Decimal, Encode, EncodeLog;
    var note, select := Note(TS + Decimal(7)), Cmd(SelectArgv(3));
    assert FeedEntries(true, Tracker(-1, 0), Feed(3, argv, 7)) == [] + [note] + [select] + [Cmd(argv)];
    EncodeNothing([]);
    EncodeOneMore([], note);
    EncodeOneMore([] + [note], select);
    EncodeOneMore([] + [note] + [select], Cmd(argv));
    assert [] + EncodeEntry(note) == EncodeEntry(note);
  }

  /** The words that bracket a transaction and change the database, in any case. */
  lemma WordsRead(args: Argv)
    ensures IsAscii("MULTI") && IsAscii("Exec") && IsAscii("select") && IsAscii("multix")
    ensures IsMulti([Ascii("MULTI")] + args) && IsExec([Ascii("Exec")] + args) && IsSelect([Ascii("select")] + args)
    ensures !IsMulti([Ascii("multix")] + args) && !IsMulti([Ascii("Exec")] + args) && !IsExec([Ascii("MULTI")] + args)
  {
    assert Lower(Ascii("MULTI")) == MULTI && Lower(Ascii("Exec")) == EXEC && Lower(Ascii("select")) == SELECT;
    assert |Lower(Ascii("multix"))| == 6;
  }

  // ------------------------------------------------------------------ what the commands of a rewritten log mean

  /** SET replaces whatever is there and takes an expire time away; PEXPIREAT sets one. */
  lemma SetMeans(d: R.Doubles, db: R.Db, key: Bytes, value: Bytes, ms: nat)
    ensures IsAscii("SET") && R.Apply(d, db, [Ascii("SET"), key, value]) == db[key := R.Slot(R.Str(value), -1)]
    ensures IsAscii("PEXPIREAT") && key in db ==>
      R.Apply(d, db, [Ascii("PEXPIREAT"), key, Decimal(ms)]) == db[key := db[key].(expire := ms)]
  {
    hide Decimal, Atoi;
    assert Lower(Ascii("SET")) == R.SET_NAME;
    assert Lower(Ascii("PEXPIREAT")) == R.PEXPIREAT_NAME;
    assert R.SET_NAME[0] != R.PEXPIREAT_NAME[0];
    AtoiDecimal(ms, []);
    assert Decimal(ms) + [] == Decimal(ms);
  }

  /** Every command of a batch carries at least one and at most 64 items, and all but the last exactly 64. */
  lemma {:induction false} BatchSizes(k: R.Kind, word: Bytes, key: Bytes, items: seq<Argv>, i: nat)
    requires R.AllOf(k, items) && i < |R.Batches(word, key, items)|
    ensures var cmd := R.Batches(word, key, items)[i];
      && |cmd| >= 2 && cmd[0] == word && cmd[1] == key
      && 1 <= (|cmd| - 2) / R.Arity(k) <= 64 && (|cmd| - 2) % R.Arity(k) == 0
      && (i < |R.Batches(word, key, items)| - 1 ==> (|cmd| - 2) / R.Arity(k) == 64)
    decreases |items|
  {
    hide R.Flatten;
    var m := R.FullPart(|items|);
    var full, last := items[..m], items[m..];
    var before := R.Batches(word, key, full);
    R.FlattenItems(k, last);
    if i < |before| {
      BatchSizes(k, word, key, full, i);
      if i == |before| - 1 { LastIsFull(k, word, key, full); }
    }
  }

  lemma LastIsFull(k: R.Kind, word: Bytes, key: Bytes, items: seq<Argv>)
    requires R.AllOf(k, items) && |items| % 64 == 0 && |items| > 0
    ensures var all := R.Batches(word, key, items); |all| > 0 && |all[|all| - 1]| >= 2 && (|all[|all| - 1]| - 2) / R.Arity(k) == 64
  {
    hide R.Flatten;
    var m := R.FullPart(|items|);
    R.FlattenItems(k, items[m..]);
  }

  lemma KindsRead(args: Argv)
    ensures IsAscii("RPUSH") && IsAscii("SADD") && IsAscii("ZADD") && IsAscii("HMSET")
    ensures R.IsKind([Ascii("RPUSH")] + args, R.KList) && R.IsKind([Ascii("SADD")] + args, R.KSet)
    ensures R.IsKind([Ascii("ZADD")] + args, R.KZSet) && R.IsKind([Ascii("HMSET")] + args, R.KHash)
  {
    assert Lower(Ascii("RPUSH")) == R.Name(R.KList);
    assert Lower(Ascii("SADD")) == R.Name(R.KSet);
    assert Lower(Ascii("ZADD")) == R.Name(R.KZSet);
    assert Lower(Ascii("HMSET")) == R.Name(R.KHash);
  }

  /** RPUSH puts its arguments at the end of the list, in their order; a key that is missing is created. */
  lemma PushMeans(d: R.Doubles, db: R.Db, key: Bytes, items: Argv)
    requires |items| > 0
    ensures IsAscii("RPUSH")
    ensures key !in db ==> R.Apply(d, db, [Ascii("RPUSH"), key] + items) == db[key := R.Slot(R.List(items), -1)]
    ensures key in db && db[key].value.List? ==>
      R.Apply(d, db, [Ascii("RPUSH"), key] + items) == db[key := R.Slot(R.List(db[key].value.items + items), db[key].expire)]
  {
    KindsRead([key] + items);
    var argv := [Ascii("RPUSH"), key] + items;
    assert argv == [Ascii("RPUSH")] + ([key] + items) && argv[2..] == items;
    hide *;
    R.ApplyKind(d, R.KList, db, argv);
    AddedItems(d, db, key, items);
  }

  lemma AddedItems(d: R.Doubles, db: R.Db, key: Bytes, items: Argv)
    requires |items| > 0
    ensures key !in db ==> R.Add(d, R.KList, db, key, items) == db[key := R.Slot(R.List(items), -1)]
    ensures key in db && db[key].value.List? ==>
      R.Add(d, R.KList, db, key, items) == db[key := R.Slot(R.List(db[key].value.items + items), db[key].expire)]
  {
    hide R.GrowAll, R.Items;
    Pushed(d, [], items);
    assert [] + items == items;
    if key in db && db[key].value.List? { Pushed(d, db[key].value.items, items); }
  }

  lemma {:induction false} Pushed(d: R.Doubles, l: seq<Bytes>, items: Argv)
    ensures |items| % R.Arity(R.KList) == 0 && R.GrowAll(d, R.KList, R.List(l), R.Items(R.KList, items)) == R.List(l + items)
  {
    hide R.GrowAll, R.Items;
    if |items| > 0 {
      var front, last := items[..|items| - 1], items[|items| - 1];
      Pushed(d, l, front);
      ItemsLast(items);
      GrowLast(d, R.List(l), R.Items(R.KList, front), [last]);
      assert l + front + [last] == l + items;
    } else {
      NothingPushed(d, l, items);
    }
  }

  lemma NothingPushed(d: R.Doubles, l: seq<Bytes>, items: Argv)
    requires items == []
    ensures R.GrowAll(d, R.KList, R.List(l), R.Items(R.KList, items)) == R.List(l + items)
  {
    assert l + items == l;
  }

  lemma ItemsLast(items: Argv)
    requires |items| > 0
    ensures R.Items(R.KList, items) == R.Items(R.KList, items[..|items| - 1]) + [[items[|items| - 1]]]
  {
    assert items[|items| - 1..] == [items[|items| - 1]];
  }

  lemma GrowLast(d: R.Doubles, v: R.Value, items: seq<Argv>, item: Argv)
    requires R.Fits(R.KList, v) && R.AllOf(R.KList, items) && |item| == 1
    ensures R.AllOf(R.KList, items + [item]) && R.GrowAll(d, R.KList, v, items + [item]) == R.Grow(d, R.KList, R.GrowAll(d, R.KList, v, items), item)
  {
    assert (items + [item])[..|items|] == items;
  }

  /** A command that adds one item to an aggregate. */
  lemma AddMeans(d: R.Doubles, k: R.Kind, word: Bytes, db: R.Db, key: Bytes, item: Argv)
    requires R.IsKind([word, key] + item, k) && |item| == R.Arity(k)
    ensures key !in db ==> R.Apply(d, db, [word, key] + item) == db[key := R.Slot(R.Grow(d, k, R.Empty(k), item), -1)]
    ensures key in db && R.Fits(k, db[key].value) ==>
      R.Apply(d, db, [word, key] + item) == db[key := R.Slot(R.Grow(d, k, db[key].value, item), db[key].expire)]
  {
    hide R.Apply, R.IsKind, R.GrowAll, R.Items, R.Grow, R.Empty, R.Fits;
    var argv := [word, key] + item;
    assert argv[2..] == item;
    R.ApplyKind(d, k, db, argv);
    OneItem(d, k, R.Empty(k), item);
    if key in db && R.Fits(k, db[key].value) { OneItem(d, k, db[key].value, item); }
  }

  /** SADD adds a member. */
  lemma SaddMeans(d: R.Doubles, db: R.Db, key: Bytes, x: Bytes)
    ensures IsAscii("SADD")
    ensures key !in db ==> R.Apply(d, db, [Ascii("SADD"), key] + [x]) == db[key := R.Slot(R.Set({x}), -1)]
    ensures key in db && db[key].value.Set? ==>
      R.Apply(d, db, [Ascii("SADD"), key] + [x]) == db[key := R.Slot(R.Set(db[key].value.members + {x}), db[key].expire)]
  {
    KindsRead([key, x]);
    assert [Ascii("SADD"), key] + [x] == [Ascii("SADD")] + [key, x];
    hide Ascii, R.Apply, R.IsKind;
    AddMeans(d, R.KSet, Ascii("SADD"), db, key, [x]);
    assert R.Set({}).members + {x} == {x};
  }

  /** ZADD adds a member, which stands behind its score. */
  lemma ZaddMeans(d: R.Doubles, db: R.Db, key: Bytes, score: Bytes, x: Bytes)
    ensures IsAscii("ZADD")
    ensures key !in db ==> R.Apply(d, db, [Ascii("ZADD"), key] + [score, x]) == db[key := R.Slot(R.ZSet(map[x := d.parse(score)]), -1)]
    ensures key in db && db[key].value.ZSet? ==>
      R.Apply(d, db, [Ascii("ZADD"), key] + [score, x]) == db[key := R.Slot(R.ZSet(db[key].value.scores[x := d.parse(score)]), db[key].expire)]
  {
    KindsRead([key, score, x]);
    assert [Ascii("ZADD"), key] + [score, x] == [Ascii("ZADD")] + [key, score, x];
    hide Ascii, R.Apply, R.IsKind;
    AddMeans(d, R.KZSet, Ascii("ZADD"), db, key, [score, x]);
  }

  /** HMSET sets a field, which stands before its value. */
  lemma HmsetMeans(d: R.Doubles, db: R.Db, key: Bytes, field: Bytes, x: Bytes)
    ensures IsAscii("HMSET")
    ensures key !in db ==> R.Apply(d, db, [Ascii("HMSET"), key] + [field, x]) == db[key := R.Slot(R.Hash(map[field := x]), -1)]
    ensures key in db && db[key].value.Hash? ==>
      R.Apply(d, db, [Ascii("HMSET"), key] + [field, x]) == db[key := R.Slot(R.Hash(db[key].value.fields[field := x]), db[key].expire)]
  {
    KindsRead([key, field, x]);
    assert [Ascii("HMSET"), key] + [field, x] == [Ascii("HMSET")] + [key, field, x];
    hide Ascii, R.Apply, R.IsKind;
    AddMeans(d, R.KHash, Ascii("HMSET"), db, key, [field, x]);
  }

  lemma OneItem(d: R.Doubles, k: R.Kind, v: R.Value, item: Argv)
    requires R.Fits(k, v) && |item| == R.Arity(k)
    ensures |item| % R.Arity(k) == 0 && R.GrowAll(d, k, v, R.Items(k, item)) == R.Grow(d, k, v, item)
  {
    hide R.Grow;
    assert item[..0] == [] && item[0..] == item;
    assert R.Items(k, item) == [item];
    assert [item][..0] == [];
  }

  // ------------------------------------------------------------------ what the loader refuses

  /** Anything behind whole entries that starts neither a command nor an annotation, and a command nobody knows. */
  lemma GarbageRefused(cfg: Config, es: seq<Entry>, tail: Bytes)
    requires AllWritable(cfg, es) && |tail| > 0 && tail[0] != 42 && tail[0] != 35
    ensures var r := Load(cfg, EncodeLog(es) + tail, START); r.status == Failed && r.effect == EnterAll(cfg, START, es).effect
  {
    hide EnterAll, EncodeLog, AllWritable;
    LogLoads(cfg, es, tail, START);
  }

  lemma UnknownRefused(cfg: Config, es: seq<Entry>, argv: Argv, tail: Bytes)
    requires AllWritable(cfg, es) && ReadableArgv(argv) && !cfg.known(argv)
    ensures var r := Load(cfg, EncodeLog(es) + (Encode(argv) + tail), START); r.status == Failed && r.effect == EnterAll(cfg, START, es).effect
  {
    hide EnterAll, EncodeLog, AllWritable, Encode, ReadableArgv, NextItem;
    LogLoads(cfg, es, Encode(argv) + tail, START);
    CommandRead(argv, tail);
  }
}
