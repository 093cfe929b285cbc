/**
 The log rewriter (aof.c): a dataset written out as the commands that rebuild it, aggregates in batches of at most
 64 items whose header is written before the items.
 */
module AofRewrite {
  import opened AofLog

  /** AOF_REWRITE_ITEMS_PER_CMD */
  const ITEMS_PER_CMD := 64

  // ------------------------------------------------------------------ datasets

  /** A score is the bit pattern of a double. */
  type Score = int

  datatype Value =
    | Str(s: Bytes)
    | List(items: seq<Bytes>)
    | Set(members: set<Bytes>)
    | ZSet(scores: map<Bytes, Score>)
    | Hash(fields: map<Bytes, Bytes>)

  /** A value with its expire time in milliseconds, -1 for none. */
  datatype Slot = Slot(value: Value, expire: int)

  type Db = map<Bytes, Slot>

  /** How doubles are printed with 17 digits and parsed. */
  datatype Doubles = Doubles(show: Score -> Bytes, parse: Bytes -> Score)

  /** What is printed for the score is parsed as the score. */
  predicate Exact(d: Doubles, x: Score) { d.parse(d.show(x)) == x }

  // ------------------------------------------------------------------ what the commands do

  /** The aggregates that are rebuilt item by item. */
  datatype Kind = KList | KSet | KZSet | KHash

  function Arity(k: Kind): nat { if k.KList? || k.KSet? then 1 else 2 }

  const SET_NAME: Bytes := [115, 101, 116]
  const PEXPIREAT_NAME: Bytes := [112, 101, 120, 112, 105, 114, 101, 97, 116]

  function Name(k: Kind): Bytes {
    match k
    case KList => [114, 112, 117, 115, 104]
    case KSet => [115, 97, 100, 100]
    case KZSet => [122, 97, 100, 100]
    case KHash => [104, 109, 115, 101, 116]
  }

  predicate Fits(k: Kind, v: Value) {
    match k
    case KList => v.List?
    case KSet => v.Set?
    case KZSet => v.ZSet?
    case KHash => v.Hash?
  }

  function Empty(k: Kind): (v: Value)
    ensures Fits(k, v)
  {
    match k
    case KList => List([])
    case KSet => Set({})
    case KZSet => ZSet(map[])
    case KHash => Hash(map[])
  }

  /** RPUSH, SADD, ZADD or HMSET of one item. */
  function Grow(d: Doubles, k: Kind, v: Value, item: Argv): (r: Value)
    requires Fits(k, v) && |item| == Arity(k)
    ensures Fits(k, r)
  {
    match k
    case KList => List(v.items + [item[0]])
    case KSet => Set(v.members + {item[0]})
    case KZSet => ZSet(v.scores[item[1] := d.parse(item[0])])
    case KHash => Hash(v.fields[item[0] := item[1]])
  }

  ghost predicate AllOf(k: Kind, items: seq<Argv>) { forall i | 0 <= i < |items| :: |items[i]| == Arity(k) }

  function GrowAll(d: Doubles, k: Kind, v: Value, items: seq<Argv>): (r: Value)
    requires Fits(k, v) && AllOf(k, items)
    ensures Fits(k, r)
  {
    if |items| == 0 then v else Grow(d, k, GrowAll(d, k, v, items[..|items| - 1]), items[|items| - 1])
  }

  /** The arguments after the key, cut into items. */
  function Items(k: Kind, args: Argv): (r: seq<Argv>)
    requires |args| % Arity(k) == 0
    ensures AllOf(k, r)
  {
    if |args| == 0 then []
    else
      var n := |args| - Arity(k);
      assert n % Arity(k) == 0;
      Items(k, args[..n]) + [args[n..]]
  }

  predicate IsKind(argv: Argv, k: Kind) { Named(argv, Name(k)) }

  function Add(d: Doubles, k: Kind, db: Db, key: Bytes, args: Argv): Db {
    if |args| == 0 || |args| % Arity(k) != 0 then db
    else if key !in db then db[key := Slot(GrowAll(d, k, Empty(k), Items(k, args)), -1)]
    else if !Fits(k, db[key].value) then db
    else db[key := Slot(GrowAll(d, k, db[key].value, Items(k, args)), db[key].expire)]
  }

  /** One command on one database; a command of the wrong shape or type changes nothing. */
  function Apply(d: Doubles, db: Db, argv: Argv): Db {
    if |argv| < 3 then db
    else if Named(argv, SET_NAME) then (if |argv| == 3 then db[argv[1] := Slot(Str(argv[2]), -1)] else db)
    else if Named(argv, PEXPIREAT_NAME) then
      (if |argv| == 3 && argv[1] in db then db[argv[1] := db[argv[1]].(expire := Atoi(argv[2]))] else db)
    else if IsKind(argv, KList) then Add(d, KList, db, argv[1], argv[2..])
    else if IsKind(argv, KSet) then Add(d, KSet, db, argv[1], argv[2..])
    else if IsKind(argv, KZSet) then Add(d, KZSet, db, argv[1], argv[2..])
    else if IsKind(argv, KHash) then Add(d, KHash, db, argv[1], argv[2..])
    else db
  }

  /** All databases after the commands that ran, each in its database. */
  function Replay(d: Doubles, n: nat, ran: seq<(nat, Argv)>): (r: seq<Db>)
    ensures |r| == n
  {
    if |ran| == 0 then seq(n, _ => map[])
    else
      var r := Replay(d, n, ran[..|ran| - 1]);
      var (db, argv) := ran[|ran| - 1];
      if db < n then r[db := Apply(d, r[db], argv)] else r
  }

  // ------------------------------------------------------------------ batches

  function Flatten(items: seq<Argv>): Argv {
    if |items| == 0 then [] else Flatten(items[..|items| - 1]) + items[|items| - 1]
  }

  lemma {:induction false} FlattenItems(k: Kind, items: seq<Argv>)
    requires AllOf(k, items)
    ensures |Flatten(items)| == Arity(k) * |items| && |Flatten(items)| % Arity(k) == 0
    ensures Items(k, Flatten(items)) == items
  {
    if |items| > 0 {
      var front, last := items[..|items| - 1], items[|items| - 1];
      FlattenItems(k, front);
      assert (Flatten(front) + last)[..|Flatten(front)|] == Flatten(front);
      assert (Flatten(front) + last)[|Flatten(front)|..] == last;
    }
  }

  lemma {:induction false} GrowConcat(d: Doubles, k: Kind, v: Value, a: seq<Argv>, b: seq<Argv>)
    requires Fits(k, v) && AllOf(k, a) && AllOf(k, b)
    ensures AllOf(k, a + b) && GrowAll(d, k, v, a + b) == GrowAll(d, k, GrowAll(d, k, v, a), b)
  {
    hide Grow, Fits;
    if |b| == 0 {
      assert a + b == a;
    } else {
      GrowConcat(d, k, v, a, b[..|b| - 1]);
      assert (a + b)[..|a + b| - 1] == a + b[..|b| - 1];
    }
  }

  /** The items before the last batch. */
  function FullPart(n: nat): (m: nat)
    ensures m <= n && m % ITEMS_PER_CMD == 0 && (n > 0 ==> 0 < n - m <= ITEMS_PER_CMD)
  {
    if n == 0 then 0 else if n % ITEMS_PER_CMD == 0 then n - ITEMS_PER_CMD else n - n % ITEMS_PER_CMD
  }

  function Batch(word: Bytes, key: Bytes, items: seq<Argv>): Argv { [word, key] + Flatten(items) }

  function Batches(word: Bytes, key: Bytes, items: seq<Argv>): seq<Argv> {
    if |items| == 0 then []
    else
      var m := FullPart(|items|);
      Batches(word, key, items[..m]) + [Batch(word, key, items[m..])]
  }

  function ApplyAll(d: Doubles, db: Db, cmds: seq<Argv>): Db {
    if |cmds| == 0 then db else Apply(d, ApplyAll(d, db, cmds[..|cmds| - 1]), cmds[|cmds| - 1])
  }

  predicate Says(word: Bytes, k: Kind) { Lower(word) == Name(k) }

  lemma NamesApart(k: Kind, k': Kind)
    ensures Name(k) != SET_NAME && Name(k) != PEXPIREAT_NAME
    ensures k != k' ==> Name(k) != Name(k')
  {
    assert |Name(k)| != 3 && |Name(k)| != 9;
    assert Name(KSet)[0] == 115 && Name(KZSet)[0] == 122 && Name(KHash)[0] == 104 && Name(KList)[0] == 114;
  }

  lemma ApplyKind(d: Doubles, k: Kind, db: Db, argv: Argv)
    requires IsKind(argv, k) && |argv| >= 3
    ensures Apply(d, db, argv) == Add(d, k, db, argv[1], argv[2..])
  {
    hide Add, Name, Lower;
    NamesApart(k, KList);
    NamesApart(k, KSet);
    NamesApart(k, KZSet);
    NamesApart(k, KHash);
  }

  lemma ApplyBatch(d: Doubles, k: Kind, word: Bytes, key: Bytes, db: Db, items: seq<Argv>)
    requires Says(word, k) && AllOf(k, items) && |items| > 0
    ensures Apply(d, db, Batch(word, key, items)) == Add(d, k, db, key, Flatten(items))
  {
    hide Add, Flatten, Apply, Name, Lower;
    FlattenItems(k, items);
    var argv := Batch(word, key, items);
    assert argv[2..] == Flatten(items);
    ApplyKind(d, k, db, argv);
  }

  lemma AddFirst(d: Doubles, k: Kind, db: Db, key: Bytes, items: seq<Argv>)
    requires AllOf(k, items) && |items| > 0 && key !in db
    ensures Add(d, k, db, key, Flatten(items)) == db[key := Slot(GrowAll(d, k, Empty(k), items), -1)]
  {
    hide Flatten, GrowAll, Empty;
    FlattenItems(k, items);
  }

  lemma AddMore(d: Doubles, k: Kind, db: Db, key: Bytes, v: Value, items: seq<Argv>)
    requires AllOf(k, items) && |items| > 0 && Fits(k, v)
    ensures Add(d, k, db[key := Slot(v, -1)], key, Flatten(items)) == db[key := Slot(GrowAll(d, k, v, items), -1)]
  {
    hide Flatten, GrowAll, Empty, Fits;
    FlattenItems(k, items);
  }

  lemma ApplyLast(d: Doubles, db: Db, cmds: seq<Argv>, cmd: Argv)
    ensures ApplyAll(d, db, cmds + [cmd]) == Apply(d, ApplyAll(d, db, cmds), cmd)
  {
    hide Apply;
    assert (cmds + [cmd])[..|cmds|] == cmds;
  }

  /** The batches of one key, replayed where the key is missing, give all its items in order. */
  lemma {:induction false} BatchesRebuild(d: Doubles, k: Kind, word: Bytes, key: Bytes, db: Db, items: seq<Argv>)
    requires Says(word, k) && AllOf(k, items) && key !in db
    ensures ApplyAll(d, db, Batches(word, key, items)) ==
      if |items| == 0 then db else db[key := Slot(GrowAll(d, k, Empty(k), items), -1)]
    decreases |items|
  {
    hide Apply, Add, Batch, GrowAll, Says, Empty, ApplyAll, Flatten;
    if |items| == 0 {
      NothingApplied(d, db);
    } else {
      var m := FullPart(|items|);
      var full, last := items[..m], items[m..];
      assert full + last == items;
      BatchesRebuild(d, k, word, key, db, full);
      ApplyLast(d, db, Batches(word, key, full), Batch(word, key, last));
      if m == 0 {
        assert last == items;
        ApplyBatch(d, k, word, key, db, last);
        AddFirst(d, k, db, key, last);
      } else {
        var v := GrowAll(d, k, Empty(k), full);
        ApplyBatch(d, k, word, key, db[key := Slot(v, -1)], last);
        AddMore(d, k, db, key, v, last);
        GrowConcat(d, k, Empty(k), full, last);
      }
    }
  }

  lemma NothingApplied(d: Doubles, db: Db)
    ensures ApplyAll(d, db, []) == db
  {
  }

  // ------------------------------------------------------------------ a value spelled out as items

  function Word(k: Kind): Bytes {
    match k
    case KList => [82, 80, 85, 83, 72]
    case KSet => [83, 65, 68, 68]
    case KZSet => [90, 65, 68, 68]
    case KHash => [72, 77, 83, 69, 84]
  }

  lemma WordSays(k: Kind)
    ensures Says(Word(k), k)
  {
    assert Lower(Word(k)) == Name(k);
  }

  /** The lengths are machine words, so that their text fits a line. */
  predicate Small(b: Bytes) { Readable(|b|) }

  ghost predicate SmallItem(item: Argv) { forall i | 0 <= i < |item| :: Small(item[i]) }

  /** Every part is short, and every score is printed exactly. */
  ghost predicate Printable(d: Doubles, v: Value) {
    match v
    case Str(s) => Small(s)
    case List(items) => forall x | x in items :: Small(x)
    case Set(members) => forall x | x in members :: Small(x)
    case ZSet(scores) => forall x | x in scores :: Small(x) && Small(d.show(scores[x])) && Exact(d, scores[x])
    case Hash(fields) => forall x | x in fields :: Small(x) && Small(fields[x])
  }

  /** The items, added one by one to nothing, give the value. */
  ghost predicate Spells(d: Doubles, k: Kind, v: Value, items: seq<Argv>) {
    && AllOf(k, items) && GrowAll(d, k, Empty(k), items) == v
    && forall i | 0 <= i < |items| :: SmallItem(items[i])
  }

  lemma SpellsMore(d: Doubles, k: Kind, v: Value, items: seq<Argv>, item: Argv)
    requires Spells(d, k, v, items) && |item| == Arity(k) && SmallItem(item)
    ensures Fits(k, v) && Spells(d, k, Grow(d, k, v, item), items + [item])
  {
    hide Grow, SmallItem;
    assert (items + [item])[..|items|] == items;
  }

  lemma ItemSpelled(d: Doubles, list: seq<Bytes>, i: nat, done: seq<Argv>)
    requires i < |list| && Printable(d, List(list)) && Spells(d, KList, List(list[..i]), done)
    ensures Spells(d, KList, List(list[..i + 1]), done + [[list[i]]])
  {
    hide Spells;
    SpellsMore(d, KList, List(list[..i]), done, [list[i]]);
    assert list[..i] + [list[i]] == list[..i + 1];
  }

  lemma MemberSpelled(d: Doubles, members: set<Bytes>, rest: set<Bytes>, x: Bytes, done: seq<Argv>)
    requires x in rest && rest <= members && Printable(d, Set(members)) && Spells(d, KSet, Set(members - rest), done)
    ensures Spells(d, KSet, Set(members - (rest - {x})), done + [[x]])
  {
    hide Spells;
    SpellsMore(d, KSet, Set(members - rest), done, [x]);
    assert members - rest + {x} == members - (rest - {x});
  }

  lemma ScoreSpelled(d: Doubles, scores: map<Bytes, Score>, rest: set<Bytes>, x: Bytes, done: seq<Argv>)
    requires x in rest && rest <= scores.Keys && Printable(d, ZSet(scores)) && Spells(d, KZSet, ZSet(scores - rest), done)
    ensures Spells(d, KZSet, ZSet(scores - (rest - {x})), done + [[d.show(scores[x]), x]])
  {
    hide Spells;
    SpellsMore(d, KZSet, ZSet(scores - rest), done, [d.show(scores[x]), x]);
    assert d.parse(d.show(scores[x])) == scores[x];
    assert (scores - rest)[x := scores[x]] == scores - (rest - {x});
  }

  lemma FieldSpelled(d: Doubles, fields: map<Bytes, Bytes>, rest: set<Bytes>, x: Bytes, done: seq<Argv>)
    requires x in rest && rest <= fields.Keys && Printable(d, Hash(fields)) && Spells(d, KHash, Hash(fields - rest), done)
    ensures Spells(d, KHash, Hash(fields - (rest - {x})), done + [[x, fields[x]]])
  {
    hide Spells;
    SpellsMore(d, KHash, Hash(fields - rest), done, [x, fields[x]]);
    assert (fields - rest)[x := fields[x]] == fields - (rest - {x});
  }

  /** What is written so far, when `rest` is still to come. */
  ghost predicate LeftFields(d: Doubles, fields: map<Bytes, Bytes>, rest: set<Bytes>, done: seq<Argv>) {
    Spells(d, KHash, Hash(fields - rest), done)
  }

  lemma LeftFieldsStart(d: Doubles, fields: map<Bytes, Bytes>)
    ensures LeftFields(d, fields, fields.Keys, [])
  {
    hide Spells;
    SpellsNone(d, KHash);
    assert fields - fields.Keys == map[];
  }

  lemma LeftFieldsStep(d: Doubles, fields: map<Bytes, Bytes>, rest: set<Bytes>, x: Bytes, done: seq<Argv>)
    requires x in rest && rest <= fields.Keys && Printable(d, Hash(fields)) && LeftFields(d, fields, rest, done)
    ensures AllOf(KHash, done) && LeftFields(d, fields, rest - {x}, done + [[x, fields[x]]])
  {
    hide Spells;
    SpellsAllOf(d, KHash, done);
    FieldSpelled(d, fields, rest, x, done);
  }

  lemma LeftFieldsEnd(d: Doubles, fields: map<Bytes, Bytes>, done: seq<Argv>)
    requires LeftFields(d, fields, {}, done)
    ensures AllOf(KHash, done) && Spells(d, KHash, Hash(fields), done)
  {
    hide Spells;
    assert fields - {} == fields;
    SpellsAllOf(d, KHash, done);
  }

  /** What is written so far, when `rest` is still to come. */
  ghost predicate LeftScores(d: Doubles, scores: map<Bytes, Score>, rest: set<Bytes>, done: seq<Argv>) {
    Spells(d, KZSet, ZSet(scores - rest), done)
  }

  lemma LeftScoresStart(d: Doubles, scores: map<Bytes, Score>)
    ensures LeftScores(d, scores, scores.Keys, [])
  {
    hide Spells;
    SpellsNone(d, KZSet);
    assert scores - scores.Keys == map[];
  }

  lemma LeftScoresStep(d: Doubles, scores: map<Bytes, Score>, rest: set<Bytes>, x: Bytes, done: seq<Argv>)
    requires x in rest && rest <= scores.Keys && Printable(d, ZSet(scores)) && LeftScores(d, scores, rest, done)
    ensures AllOf(KZSet, done) && LeftScores(d, scores, rest - {x}, done + [[d.show(scores[x]), x]])
  {
    hide Spells;
    SpellsAllOf(d, KZSet, done);
    ScoreSpelled(d, scores, rest, x, done);
  }

  lemma LeftScoresEnd(d: Doubles, scores: map<Bytes, Score>, done: seq<Argv>)
    requires LeftScores(d, scores, {}, done)
    ensures AllOf(KZSet, done) && Spells(d, KZSet, ZSet(scores), done)
  {
    hide Spells;
    assert scores - {} == scores;
    SpellsAllOf(d, KZSet, done);
  }

  lemma SpellsAllOf(d: Doubles, k: Kind, items: seq<Argv>)
    ensures forall v :: Spells(d, k, v, items) ==> AllOf(k, items)
  {
  }

  lemma SpellsNone(d: Doubles, k: Kind)
    ensures Spells(d, k, Empty(k), [])
  {
  }

  // ------------------------------------------------------------------ the bytes of a batch

  function Cmds(cs: seq<Argv>): seq<Entry> { seq(|cs|, i requires 0 <= i < |cs| => Cmd(cs[i])) }

  /** The bytes written for the batches of `cs`. */
  function Text(cs: seq<Argv>): Bytes { EncodeLog(Cmds(cs)) }

  lemma TextGrows(cs: seq<Argv>, c: Argv)
    ensures Text(cs + [c]) == Text(cs) + Encode(c)
  {
    hide EncodeLog, Encode;
    assert Cmds(cs + [c]) == Cmds(cs) + [Cmd(c)];
    EncodeOneMore(Cmds(cs), Cmd(c));
  }

  function Min(a: nat, b: nat): nat { if a <= b then a else b }

  /** What is in the file when `done` of `total` items are written: whole batches, then a header and some items. */
  function Partial(k: Kind, word: Bytes, key: Bytes, done: seq<Argv>, total: nat): Bytes
    requires |done| <= total
  {
    var c := |done| % ITEMS_PER_CMD;
    var m := |done| - c;
    Text(Batches(word, key, done[..m])) +
    if c == 0 then []
    else Header(2 + Arity(k) * Min(ITEMS_PER_CMD, total - m)) + Bulks(Batch(word, key, done[m..]))
  }

  lemma FlattenGrows(items: seq<Argv>, item: Argv)
    ensures Flatten(items + [item]) == Flatten(items) + item
  {
    assert (items + [item])[..|items|] == items;
  }

  lemma BatchGrows(word: Bytes, key: Bytes, items: seq<Argv>, item: Argv)
    ensures Bulks(Batch(word, key, items + [item])) == Bulks(Batch(word, key, items)) + Bulks(item)
  {
    hide Bulks, Flatten;
    FlattenGrows(items, item);
    assert [word, key] + (Flatten(items) + item) == [word, key] + Flatten(items) + item;
    BulksConcat([word, key] + Flatten(items), item);
  }

  lemma EncodeBatch(k: Kind, word: Bytes, key: Bytes, items: seq<Argv>)
    requires AllOf(k, items)
    ensures Encode(Batch(word, key, items)) == Header(2 + Arity(k) * |items|) + Bulks(Batch(word, key, items))
  {
    hide Bulks, Header, Flatten;
    FlattenItems(k, items);
  }

  /** The last batch, complete. */
  lemma BatchDone(k: Kind, word: Bytes, key: Bytes, full: seq<Argv>, last: seq<Argv>)
    requires AllOf(k, last) && |full| % ITEMS_PER_CMD == 0 && 0 < |last| <= ITEMS_PER_CMD
    ensures Text(Batches(word, key, full + last)) ==
      Text(Batches(word, key, full)) + (Header(2 + Arity(k) * |last|) + Bulks(Batch(word, key, last)))
  {
    hide Bulks, Header, Batch, Text, Encode;
    var items := full + last;
    assert FullPart(|items|) == |full|;
    assert items[..|full|] == full && items[|full|..] == last;
    TextGrows(Batches(word, key, full), Batch(word, key, last));
    EncodeBatch(k, word, key, last);
  }

  /** A running batch: its header and the items written so far. */
  function Running(k: Kind, word: Bytes, key: Bytes, tail: seq<Argv>, left: nat): Bytes {
    if |tail| == 0 then [] else Header(2 + Arity(k) * Min(ITEMS_PER_CMD, left)) + Bulks(Batch(word, key, tail))
  }

  lemma Remainder(full: nat, tail: nat)
    requires full % ITEMS_PER_CMD == 0 && tail <= ITEMS_PER_CMD
    ensures (full + tail) % ITEMS_PER_CMD == if tail == ITEMS_PER_CMD then 0 else tail
  {
  }

  lemma PartialSplit(k: Kind, word: Bytes, key: Bytes, full: seq<Argv>, tail: seq<Argv>, total: nat)
    requires AllOf(k, tail) && |full| % ITEMS_PER_CMD == 0 && |tail| <= ITEMS_PER_CMD && |full| + |tail| <= total
    ensures Partial(k, word, key, full + tail, total)
      == Text(Batches(word, key, full)) + Running(k, word, key, tail, total - |full|)
  {
    hide Bulks, Header, Batch, Text, Batches, Arity;
    var done := full + tail;
    Remainder(|full|, |tail|);
    if |tail| == ITEMS_PER_CMD {
      assert done[..|done|] == done;
      BatchDone(k, word, key, full, tail);
      assert Text(Batches(word, key, done)) + [] == Text(Batches(word, key, done));
    } else {
      assert done[..|full|] == full && done[|full|..] == tail;
    }
  }

  /** What one item adds: the header first when a batch begins, with the count of what is still to come. */
  function Added(k: Kind, word: Bytes, key: Bytes, begins: bool, left: nat, item: Argv): Bytes {
    (if begins then Header(2 + Arity(k) * Min(ITEMS_PER_CMD, left)) + Bulks([word, key]) else []) + Bulks(item)
  }

  lemma RunningGrows(k: Kind, word: Bytes, key: Bytes, tail: seq<Argv>, item: Argv, left: nat)
    ensures Running(k, word, key, tail + [item], left)
      == Running(k, word, key, tail, left) + Added(k, word, key, |tail| == 0, left, item)
  {
    hide Bulks, Header, Batch;
    BatchGrows(word, key, tail, item);
    if |tail| == 0 { BatchEmpty(word, key, tail); }
  }

  lemma PartialGrows(k: Kind, word: Bytes, key: Bytes, done: seq<Argv>, item: Argv, total: nat)
    requires AllOf(k, done) && |item| == Arity(k) && |done| < total
    ensures Partial(k, word, key, done + [item], total)
      == Partial(k, word, key, done, total) + Added(k, word, key, |done| % ITEMS_PER_CMD == 0, total - |done|, item)
  {
    hide *;
    Rounds(|done|);
    var m := |done| - |done| % ITEMS_PER_CMD;
    var full, tail := done[..m], done[m..];
    assert full + tail == done && full + (tail + [item]) == done + [item];
    PiecesOf(k, done, item, m);
    PartialSplit(k, word, key, full, tail, total);
    PartialSplit(k, word, key, full, tail + [item], total);
    RunningGrows(k, word, key, tail, item, total - m);
    AddedEarly(k, word, key, |tail| == 0, total - m, total - |done|, item);
    Assoc(Text(Batches(word, key, full)), Running(k, word, key, tail, total - m), Added(k, word, key, |tail| == 0, total - m, item));
  }

  lemma Rounds(n: nat)
    ensures var c := n % ITEMS_PER_CMD; 0 <= c < ITEMS_PER_CMD && c <= n && (n - c) % ITEMS_PER_CMD == 0
  {
  }

  lemma PiecesOf(k: Kind, done: seq<Argv>, item: Argv, m: nat)
    requires AllOf(k, done) && |item| == Arity(k) && m <= |done|
    ensures AllOf(k, done[m..]) && AllOf(k, done[m..] + [item])
  {
  }

  lemma AddedEarly(k: Kind, word: Bytes, key: Bytes, begins: bool, left: nat, left': nat, item: Argv)
    requires begins ==> left == left'
    ensures Added(k, word, key, begins, left, item) == Added(k, word, key, begins, left', item)
  {
  }

  lemma BatchEmpty(word: Bytes, key: Bytes, none: seq<Argv>)
    requires |none| == 0
    ensures Batch(word, key, none) == [word, key]
  {
  }

  lemma PartialNone(k: Kind, word: Bytes, key: Bytes, total: nat)
    ensures Partial(k, word, key, [], total) == []
  {
  }

  /** When all items are written, every header has been met by exactly its number of items. */
  lemma PartialAll(k: Kind, word: Bytes, key: Bytes, done: seq<Argv>)
    requires AllOf(k, done)
    ensures Partial(k, word, key, done, |done|) == Text(Batches(word, key, done))
  {
    hide *;
    Rounds(|done|);
    var m := |done| - |done| % ITEMS_PER_CMD;
    var full, tail := done[..m], done[m..];
    assert full + tail == done && AllOf(k, tail) by { hide *; AllOfTail(k, done, m); }
    PartialSplit(k, word, key, full, tail, |done|);
    RunningAll(k, word, key, tail);
    if |tail| == 0 { assert full == done; } else { BatchDone(k, word, key, full, tail); }
  }

  lemma AllOfTail(k: Kind, done: seq<Argv>, m: nat)
    requires AllOf(k, done) && m <= |done|
    ensures AllOf(k, done[m..])
  {
  }

  lemma RunningAll(k: Kind, word: Bytes, key: Bytes, tail: seq<Argv>)
    requires |tail| <= ITEMS_PER_CMD
    ensures Running(k, word, key, tail, |tail|) ==
      if |tail| == 0 then [] else Header(2 + Arity(k) * |tail|) + Bulks(Batch(word, key, tail))
  {
    hide Bulks, Header, Batch;
  }

  /** The file being written. */
  class Rio {
    var out: Bytes

    constructor ()
      ensures out == []
    {
      out := [];
    }

    method WriteBulkCount(n: nat)
      modifies this
      ensures out == old(out) + Header(n)
    {
      out := out + Header(n);
    }

    method WriteBulkString(b: Bytes)
      modifies this
      ensures out == old(out) + Bulk(b)
    {
      out := out + Bulk(b);
    }

    /** The body of the four batch loops: count the items of the running command, write its header when it begins. */
    method WriteItem(k: Kind, word: Bytes, key: Bytes, item: Argv, count: nat, items: nat, ghost done: seq<Argv>, ghost base: Bytes)
      returns (count': nat)
      requires AllOf(k, done) && |item| == Arity(k) && items > 0
      requires count == |done| % ITEMS_PER_CMD && out == base + Partial(k, word, key, done, |done| + items)
      modifies this
      ensures count' == (|done| + 1) % ITEMS_PER_CMD
      ensures out == base + Partial(k, word, key, done + [item], |done| + items)
    {
      hide Bulk, Bulks, Header, Partial, AllOf, Added;
      ghost var before := Partial(k, word, key, done, |done| + items);
      WriteParts(k, word, key, item, count == 0, items);
      count' := if count + 1 == ITEMS_PER_CMD then 0 else count + 1;
      PartialGrows(k, word, key, done, item, |done| + items);
      Assoc(base, before, Added(k, word, key, count == 0, items, item));
    }

    /** The header if a command begins, and the item. */
    method WriteParts(k: Kind, word: Bytes, key: Bytes, item: Argv, first: bool, items: nat)
      requires |item| == Arity(k)
      modifies this
      ensures out == old(out) + Added(k, word, key, first, items, item)
    {
      hide Bulk, Bulks, Header, Arity;
      ghost var out0 := out;
      if first { WriteHead(2 + Arity(k) * (if items > ITEMS_PER_CMD then ITEMS_PER_CMD else items), word, key); }
      WriteArgs(k, item);
      if first {
        Assoc(out0, Header(2 + Arity(k) * Min(ITEMS_PER_CMD, items)) + Bulks([word, key]), Bulks(item));
      } else {
        assert [] + Bulks(item) == Bulks(item);
      }
    }

    method WriteHead(n: nat, word: Bytes, key: Bytes)
      modifies this
      ensures out == old(out) + (Header(n) + Bulks([word, key]))
    {
      hide Bulk, Bulks, Header;
      ghost var out0 := out;
      WriteBulkCount(n);
      WriteBulkString(word);
      WriteBulkString(key);
      TwoBulks(word, key);
      Assoc(out0 + Header(n), Bulk(word), Bulk(key));
      Assoc(out0, Header(n), Bulks([word, key]));
    }

    method WriteArgs(k: Kind, item: Argv)
      requires |item| == Arity(k)
      modifies this
      ensures out == old(out) + Bulks(item)
    {
      hide Bulk, Bulks;
      ghost var out0 := out;
      WriteBulkString(item[0]);
      if Arity(k) == 2 {
        WriteBulkString(item[1]);
        Assoc(out0, Bulk(item[0]), Bulk(item[1]));
      }
      BulksOfItem(k, item);
    }

    /** `rewriteListObject`: the items from the head. */
    method RewriteListObject(key: Bytes, list: seq<Bytes>, ghost d: Doubles) returns (ghost done: seq<Argv>)
      requires Printable(d, List(list))
      modifies this
      ensures out == old(out) + Text(Batches(Word(KList), key, done)) && |done| == |list|
      ensures Spells(d, KList, List(list), done)
    {
      hide Partial, Text, Batches, Word, Spells, Small, Printable, LeftFields, LeftScores;
      ghost var base := out;
      done := [];
      var count, items := 0, |list|;
      PartialNone(KList, Word(KList), key, items);
      SpellsNone(d, KList);
      for i := 0 to |list|
        invariant |done| == i && items == |list| - i && count == i % ITEMS_PER_CMD
        invariant out == base + Partial(KList, Word(KList), key, done, |list|)
        invariant Spells(d, KList, List(list[..i]), done)
      {
        var item := [list[i]];
        ItemSpelled(d, list, i, done);
        SpellsAllOf(d, KList, done);
        count := WriteItem(KList, Word(KList), key, item, count, items, done, base);
        items := items - 1;
        done := done + [item];
      }
      assert list[..|list|] == list;
      SpellsAllOf(d, KList, done);
      PartialAll(KList, Word(KList), key, done);
    }

    /** `rewriteSetObject`: the members in any order. */
    method RewriteSetObject(key: Bytes, members: set<Bytes>, ghost d: Doubles) returns (ghost done: seq<Argv>)
      requires Printable(d, Set(members))
      modifies this
      ensures out == old(out) + Text(Batches(Word(KSet), key, done)) && |done| == |members|
      ensures Spells(d, KSet, Set(members), done)
    {
      hide Partial, Text, Batches, Word, Spells, Small, Printable, LeftFields, LeftScores;
      ghost var base := out;
      done := [];
      var count, items, rest := 0, |members|, members;
      PartialNone(KSet, Word(KSet), key, items);
      SpellsNone(d, KSet);
      assert members - rest == {};
      while rest != {}
        invariant rest <= members && items == |rest| && |done| + items == |members| && count == |done| % ITEMS_PER_CMD
        invariant out == base + Partial(KSet, Word(KSet), key, done, |members|)
        invariant Spells(d, KSet, Set(members - rest), done)
        decreases |rest|
      {
        var x :| x in rest;
        var item := [x];
        MemberSpelled(d, members, rest, x, done);
        SpellsAllOf(d, KSet, done);
        count := WriteItem(KSet, Word(KSet), key, item, count, items, done, base);
        items := items - 1;
        rest := rest - {x};
        done := done + [item];
      }
      assert members - {} == members;
      SpellsAllOf(d, KSet, done);
      PartialAll(KSet, Word(KSet), key, done);
    }

    /** `rewriteSortedSetObject`: score and member, in any order. */
    method RewriteSortedSetObject(key: Bytes, scores: map<Bytes, Score>, d: Doubles) returns (ghost done: seq<Argv>)
      requires Printable(d, ZSet(scores))
      modifies this
      ensures out == old(out) + Text(Batches(Word(KZSet), key, done)) && |done| == |scores|
      ensures Spells(d, KZSet, ZSet(scores), done)
    {
      hide Partial, Text, Batches, Word, Spells, Small, Printable, LeftFields, LeftScores;
      ghost var base := out;
      done := [];
      var count, items, rest := 0, |scores.Keys|, scores.Keys;
      ghost var total := items;
      PartialNone(KZSet, Word(KZSet), key, items);
      LeftScoresStart(d, scores);
      while rest != {}
        invariant rest <= scores.Keys && items == |rest| && |done| + items == total && count == |done| % ITEMS_PER_CMD
        invariant out == base + Partial(KZSet, Word(KZSet), key, done, total)
        invariant LeftScores(d, scores, rest, done)
        decreases |rest|
      {
        var x :| x in rest;
        var item := [d.show(scores[x]), x];
        LeftScoresStep(d, scores, rest, x, done);
        count := WriteItem(KZSet, Word(KZSet), key, item, count, items, done, base);
        items := items - 1;
        rest := rest - {x};
        done := done + [item];
      }
      LeftScoresEnd(d, scores, done);
      PartialAll(KZSet, Word(KZSet), key, done);
    }

    /** `rewriteHashObject`: field and value, in any order. */
    method RewriteHashObject(key: Bytes, fields: map<Bytes, Bytes>, ghost d: Doubles) returns (ghost done: seq<Argv>)
      requires Printable(d, Hash(fields))
      modifies this
      ensures out == old(out) + Text(Batches(Word(KHash), key, done)) && |done| == |fields|
      ensures Spells(d, KHash, Hash(fields), done)
    {
      hide Partial, Text, Batches, Word, Spells, Small, Printable, LeftFields, LeftScores;
      ghost var base := out;
      done := [];
      var count, items, rest := 0, |fields.Keys|, fields.Keys;
      ghost var total := items;
      PartialNone(KHash, Word(KHash), key, items);
      LeftFieldsStart(d, fields);
      while rest != {}
        invariant rest <= fields.Keys && items == |rest| && |done| + items == total && count == |done| % ITEMS_PER_CMD
        invariant out == base + Partial(KHash, Word(KHash), key, done, total)
        invariant LeftFields(d, fields, rest, done)
        decreases |rest|
      {
        var x :| x in rest;
        var item := [x, fields[x]];
        LeftFieldsStep(d, fields, rest, x, done);
        count := WriteItem(KHash, Word(KHash), key, item, count, items, done, base);
        items := items - 1;
        rest := rest - {x};
        done := done + [item];
      }
      LeftFieldsEnd(d, fields, done);
      PartialAll(KHash, Word(KHash), key, done);
    }

    method WriteSet(key: Bytes, str: Bytes)
      modifies this
      ensures out == old(out) + Encode([SET_WORD, key, str])
    {
      hide Encode, Bulk;
      out := out + SET_TEXT;
      WriteBulkString(key);
      WriteBulkString(str);
      SetText(key, str);
      assert out == old(out) + (SET_TEXT + Bulk(key) + Bulk(str));
    }

    method WriteExpire(key: Bytes, expire: nat)
      modifies this
      ensures out == old(out) + Encode([PEXPIREAT_WORD, key, Decimal(expire)])
    {
      hide Encode, Bulk, Decimal;
      out := out + PEXPIREAT_TEXT;
      WriteBulkString(key);
      WriteBulkString(Decimal(expire));
      ExpireText(key, Decimal(expire));
      assert out == old(out) + (PEXPIREAT_TEXT + Bulk(key) + Bulk(Decimal(expire)));
    }

    /** The value of one key, dispatched on its type. */
    method RewriteValue(cfg: Config, key: Bytes, value: Value, d: Doubles, ghost db: Db) returns (ghost cmds: seq<Argv>)
      requires Knows(cfg) && Small(key) && Printable(d, value) && Full(value) && key !in db
      modifies this
      ensures out == old(out) + Text(cmds) && AllPlain(cfg, cmds)
      ensures ApplyAll(d, db, cmds) == db[key := Slot(value, -1)]
    {
      hide Text, Batches, Word, Spells, ApplyAll, AllPlain, Knows, Encode, Printable;
      match value {
        case Str(str) =>
          WriteSet(key, str);
          cmds := [[SET_WORD, key, str]];
          TextOne([SET_WORD, key, str]);
          SmallStr(d, value);
          SetRebuilds(cfg, d, db, key, str);
        case List(list) =>
          ghost var done := RewriteListObject(key, list, d);
          cmds := Batches(Word(KList), key, done);
          AggregateRebuilds(cfg, d, KList, db, key, value, done);
        case Set(members) =>
          ghost var done := RewriteSetObject(key, members, d);
          cmds := Batches(Word(KSet), key, done);
          AggregateRebuilds(cfg, d, KSet, db, key, value, done);
        case ZSet(scores) =>
          ghost var done := RewriteSortedSetObject(key, scores, d);
          cmds := Batches(Word(KZSet), key, done);
          AggregateRebuilds(cfg, d, KZSet, db, key, value, done);
        case Hash(fields) =>
          ghost var done := RewriteHashObject(key, fields, d);
          cmds := Batches(Word(KHash), key, done);
          AggregateRebuilds(cfg, d, KHash, db, key, value, done);
      }
    }

    /** The entry of one key in `rewriteAppendOnlyFileRio`: its value, then its expire time. */
    method RewriteKey(cfg: Config, key: Bytes, slot: Slot, d: Doubles, ghost db: Db) returns (ghost cmds: seq<Argv>)
      requires Knows(cfg) && Keepable(d, key, slot) && key !in db
      modifies this
      ensures out == old(out) + Text(cmds) && AllPlain(cfg, cmds)
      ensures ApplyAll(d, db, cmds) == db[key := slot]
    {
      hide Text, ApplyAll, Plain, Knows, Encode, Printable, Apply, Full;
      cmds := RewriteValue(cfg, key, slot.value, d, db);
      if slot.expire != -1 {
        WriteExpire(key, slot.expire);
        ghost var cmd := [PEXPIREAT_WORD, key, Decimal(slot.expire)];
        Assoc(old(out), Text(cmds), Encode(cmd));
        TextGrows(cmds, cmd);
        ApplyLast(d, db, cmds, cmd);
        ExpireRebuilds(cfg, d, db, key, slot);
        cmds := cmds + [cmd];
      }
    }
  }

  lemma SmallStr(d: Doubles, v: Value)
    requires v.Str? && Printable(d, v)
    ensures Small(v.s)
  {
  }

  const SET_WORD: Bytes := [83, 69, 84]
  const PEXPIREAT_WORD: Bytes := [80, 69, 88, 80, 73, 82, 69, 65, 84]
  const SET_TEXT: Bytes := [STAR, 51, CR, LF, DOLLAR, 51, CR, LF] + SET_WORD + CRLF
  const PEXPIREAT_TEXT: Bytes := [STAR, 51, CR, LF, DOLLAR, 57, CR, LF] + PEXPIREAT_WORD + CRLF

  /** The commands the rewriter uses exist. */
  ghost predicate Knows(cfg: Config) {
    forall argv: Argv | |argv| > 0 && argv[0] in [SET_WORD, PEXPIREAT_WORD, SELECT_WORD, Word(KList), Word(KSet), Word(KZSet), Word(KHash)] ::
      cfg.known(argv)
  }

  /** Aggregates are never empty, and lengths are machine words. */
  ghost predicate Keepable(d: Doubles, key: Bytes, slot: Slot) {
    && Small(key) && Printable(d, slot.value) && slot.expire >= -1
    && (slot.expire >= 0 ==> Small(Decimal(slot.expire)))
    && Full(slot.value)
  }

  predicate Full(v: Value) {
    match v
    case Str(_) => true
    case List(items) => |items| > 0
    case Set(members) => |members| > 0
    case ZSet(scores) => |scores| > 0
    case Hash(fields) => |fields| > 0
  }

  /** A command the loader reads back and runs at once in the selected database. */
  ghost predicate Plain(cfg: Config, argv: Argv) {
    ReadableArgv(argv) && cfg.known(argv) && !IsSelect(argv) && !IsMulti(argv) && !IsExec(argv)
  }

  ghost predicate AllPlain(cfg: Config, cmds: seq<Argv>) { forall i | 0 <= i < |cmds| :: Plain(cfg, cmds[i]) }

  lemma TextOne(c: Argv)
    ensures Text([c]) == Encode(c)
  {
    hide EncodeLog, Encode;
    TextGrows([], c);
    assert Cmds([]) == [];
    EncodeNothing([]);
    assert [] + [c] == [c];
    assert [] + Encode(c) == Encode(c);
  }

  lemma ThreeBulks(a: Bytes, b: Bytes, c: Bytes)
    ensures Encode([a, b, c]) == Header(3) + Bulk(a) + Bulk(b) + Bulk(c)
  {
    hide Bulk, Header;
    assert [a, b, c][1..] == [b, c];
    TwoBulks(b, c);
    assert Bulks([a, b, c]) == Bulk(a) + (Bulk(b) + Bulk(c));
  }

  lemma SetText(key: Bytes, str: Bytes)
    ensures SET_TEXT + Bulk(key) + Bulk(str) == Encode([SET_WORD, key, str])
  {
    hide Bulk, Encode, Decimal;
    ThreeBulks(SET_WORD, key, str);
    SetHead();
  }

  lemma SetHead()
    ensures SET_TEXT == Header(3) + Bulk(SET_WORD)
  {
    assert Decimal(3) == [51];
  }

  lemma ExpireText(key: Bytes, t: Bytes)
    ensures PEXPIREAT_TEXT + Bulk(key) + Bulk(t) == Encode([PEXPIREAT_WORD, key, t])
  {
    hide Bulk, Encode, Decimal;
    ThreeBulks(PEXPIREAT_WORD, key, t);
    ExpireHead();
  }

  lemma ExpireHead()
    ensures PEXPIREAT_TEXT == Header(3) + Bulk(PEXPIREAT_WORD)
  {
    assert Decimal(3) == [51] && Decimal(9) == [57];
  }

  lemma ShortCount(n: nat)
    requires n < 1000
    ensures Readable(n)
  {
    assert Power10(3) == 10 * Power10(2) && Power10(2) == 10 * Power10(1) && Power10(1) == 10 * Power10(0);
    DecimalIsShort(n, 3);
  }

  /** The first letter tells a command of the rewriter from SELECT, MULTI and EXEC. */
  lemma PlainWord(cfg: Config, argv: Argv)
    requires |argv| > 0 && cfg.known(argv) && ReadableArgv(argv)
    requires argv[0] in [SET_WORD, PEXPIREAT_WORD, Word(KList), Word(KSet), Word(KZSet), Word(KHash)]
    ensures Plain(cfg, argv)
  {
    hide ReadableArgv;
    assert |Lower(argv[0])| == |argv[0]|;
    assert argv[0] == Word(KHash) ==> Lower(argv[0])[0] == 104 && MULTI[0] == 109;
    assert argv[0] == Word(KList) ==> Lower(argv[0])[0] == 114;
    assert argv[0] == Word(KSet) ==> Lower(argv[0])[0] == 115 && EXEC[0] == 101;
    assert argv[0] == Word(KZSet) ==> Lower(argv[0])[0] == 122;
  }

  lemma SetRebuilds(cfg: Config, d: Doubles, db: Db, key: Bytes, str: Bytes)
    requires Knows(cfg) && Small(key) && Small(str)
    ensures AllPlain(cfg, [[SET_WORD, key, str]])
    ensures ApplyAll(d, db, [[SET_WORD, key, str]]) == db[key := Slot(Str(str), -1)]
  {
    hide Plain, Decimal, Readable, Add, Name, Named, Apply, ApplyAll, ReadableArgv;
    var cmd := [SET_WORD, key, str];
    SetIsReadable(cmd);
    PlainWord(cfg, cmd);
    SetApplies(d, db, cmd);
    ApplyLast(d, db, [], cmd);
    ApplyNone(d, db);
    assert [] + [cmd] == [cmd];
  }

  lemma ApplyNone(d: Doubles, db: Db)
    ensures ApplyAll(d, db, []) == db
  {
  }

  lemma SetApplies(d: Doubles, db: Db, cmd: Argv)
    requires |cmd| == 3 && cmd[0] == SET_WORD
    ensures Apply(d, db, cmd) == db[cmd[1] := Slot(Str(cmd[2]), -1)]
  {
    assert Lower(SET_WORD) == SET_NAME;
  }

  lemma SetIsReadable(cmd: Argv)
    requires |cmd| == 3 && (cmd[0] == SET_WORD || cmd[0] == PEXPIREAT_WORD) && Small(cmd[1]) && Small(cmd[2])
    ensures ReadableArgv(cmd)
  {
    hide Decimal, Readable;
    ShortCount(3);
    ShortCount(9);
  }

  lemma ExpireRebuilds(cfg: Config, d: Doubles, db: Db, key: Bytes, slot: Slot)
    requires Knows(cfg) && Small(key) && slot.expire >= 0 && Small(Decimal(slot.expire))
    ensures var cmd := [PEXPIREAT_WORD, key, Decimal(slot.expire)];
      Plain(cfg, cmd) && Apply(d, db[key := Slot(slot.value, -1)], cmd) == db[key := slot]
  {
    hide Plain, Decimal, Readable, Add, Name, Named, Apply, ReadableArgv, Atoi;
    var cmd := [PEXPIREAT_WORD, key, Decimal(slot.expire)];
    SetIsReadable(cmd);
    PlainWord(cfg, cmd);
    ExpireApplies(d, db[key := Slot(slot.value, -1)], cmd);
    AtoiDecimal(slot.expire, []);
    assert Decimal(slot.expire) + [] == Decimal(slot.expire);
  }

  lemma ExpireApplies(d: Doubles, db: Db, cmd: Argv)
    requires |cmd| == 3 && cmd[0] == PEXPIREAT_WORD && cmd[1] in db
    ensures Apply(d, db, cmd) == db[cmd[1] := db[cmd[1]].(expire := Atoi(cmd[2]))]
  {
    hide Add, Named, Name, Atoi;
    ExpireNamed(cmd);
  }

  lemma ExpireNamed(cmd: Argv)
    requires |cmd| > 0 && cmd[0] == PEXPIREAT_WORD
    ensures Named(cmd, PEXPIREAT_NAME) && !Named(cmd, SET_NAME)
  {
    assert Lower(PEXPIREAT_WORD) == PEXPIREAT_NAME;
    assert |SET_NAME| == 3;
  }

  lemma {:induction false} FlattenSmall(items: seq<Argv>)
    requires forall i | 0 <= i < |items| :: SmallItem(items[i])
    ensures SmallItem(Flatten(items))
  {
    if |items| > 0 { FlattenSmall(items[..|items| - 1]); }
  }

  lemma BatchPlain(cfg: Config, k: Kind, key: Bytes, items: seq<Argv>)
    requires Knows(cfg) && Small(key) && AllOf(k, items) && 0 < |items| <= ITEMS_PER_CMD
    requires forall i | 0 <= i < |items| :: SmallItem(items[i])
    ensures Plain(cfg, Batch(Word(k), key, items))
  {
    hide Plain, Decimal, Readable, Flatten;
    var cmd := Batch(Word(k), key, items);
    FlattenSmall(items);
    FlattenItems(k, items);
    ShortCount(|cmd|);
    ShortCount(|Word(k)|);
    assert forall a | a in cmd :: a == Word(k) || a == key || a in Flatten(items);
    PlainWord(cfg, cmd);
  }

  lemma {:induction false} BatchesPlain(cfg: Config, k: Kind, key: Bytes, items: seq<Argv>)
    requires Knows(cfg) && Small(key) && AllOf(k, items)
    requires forall i | 0 <= i < |items| :: SmallItem(items[i])
    ensures AllPlain(cfg, Batches(Word(k), key, items))
    decreases |items|
  {
    hide Plain, Knows, Batch, SmallItem, Word;
    if |items| > 0 {
      var m := FullPart(|items|);
      BatchesPlain(cfg, k, key, items[..m]);
      BatchPlain(cfg, k, key, items[m..]);
    }
  }

  lemma AggregateRebuilds(cfg: Config, d: Doubles, k: Kind, db: Db, key: Bytes, v: Value, items: seq<Argv>)
    requires Knows(cfg) && Small(key) && Spells(d, k, v, items) && |items| > 0 && key !in db
    ensures AllPlain(cfg, Batches(Word(k), key, items))
    ensures ApplyAll(d, db, Batches(Word(k), key, items)) == db[key := Slot(v, -1)]
  {
    hide Plain, Knows, Batches, SmallItem, Word, Says, ApplyAll;
    WordSays(k);
    BatchesPlain(cfg, k, key, items);
    BatchesRebuild(d, k, Word(k), key, db, items);
  }

  lemma BulksOfItem(k: Kind, item: Argv)
    requires |item| == Arity(k)
    ensures Bulks(item) == if Arity(k) == 1 then Bulk(item[0]) else Bulk(item[0]) + Bulk(item[1])
  {
    hide Bulk;
    if Arity(k) == 1 {
      assert item[1..] == [];
      assert Bulks(item) == Bulk(item[0]) + [];
    } else {
      assert item == [item[0], item[1]];
      TwoBulks(item[0], item[1]);
    }
  }

  // ------------------------------------------------------------------ whole datasets

  /** A log that the loader reads through, ending in database `db` with the databases `r`. */
  ghost predicate Stands(cfg: Config, d: Doubles, es: seq<Entry>, db: nat, r: seq<Db>) {
    var st := EnterAll(cfg, START, es);
    AllWritable(cfg, es) && !st.multi && st.queue == [] && st.effect.db == db && Replay(d, cfg.dbnum, st.effect.ran) == r
  }

  lemma ReplayLast(d: Doubles, n: nat, ran: seq<(nat, Argv)>, db: nat, argv: Argv)
    requires db < n
    ensures Replay(d, n, ran + [(db, argv)]) == Replay(d, n, ran)[db := Apply(d, Replay(d, n, ran)[db], argv)]
  {
    hide Apply;
    assert (ran + [(db, argv)])[..|ran|] == ran;
  }

  lemma RunsAtOnce(cfg: Config, st: Loader, argv: Argv)
    requires !st.multi && st.queue == [] && !IsMulti(argv) && !IsExec(argv)
    ensures var st' := Enter(cfg, st, Cmd(argv)); !st'.multi && st'.queue == [] && st'.effect == RunOne(cfg, st.effect, argv)
  {
    hide Encode, RunOne;
  }

  lemma EmitOne(cfg: Config, d: Doubles, es: seq<Entry>, db: nat, r: seq<Db>, argv: Argv)
    requires Stands(cfg, d, es, db, r) && db < cfg.dbnum && Plain(cfg, argv)
    ensures |r| == cfg.dbnum && Stands(cfg, d, es + [Cmd(argv)], db, r[db := Apply(d, r[db], argv)])
  {
    hide Apply, EnterAll, Enter, RunOne, Replay, Named, ReadableArgv;
    var st := EnterAll(cfg, START, es);
    EnterLast(cfg, es, Cmd(argv));
    RunsAtOnce(cfg, st, argv);
    NoEffect(cfg, st.effect, argv);
    ReplayLast(d, cfg.dbnum, st.effect.ran, db, argv);
    WritableCmd(cfg, argv);
  }

  lemma {:induction false} EmitMany(cfg: Config, d: Doubles, es: seq<Entry>, db: nat, r: seq<Db>, cmds: seq<Argv>)
    requires Stands(cfg, d, es, db, r) && db < cfg.dbnum && |r| == cfg.dbnum && AllPlain(cfg, cmds)
    ensures Stands(cfg, d, es + Cmds(cmds), db, r[db := ApplyAll(d, r[db], cmds)])
  {
    hide Stands, Apply, Plain;
    if |cmds| == 0 {
      assert es + Cmds(cmds) == es;
      assert r[db := r[db]] == r;
    } else {
      var front, last := cmds[..|cmds| - 1], cmds[|cmds| - 1];
      EmitMany(cfg, d, es, db, r, front);
      var r1 := r[db := ApplyAll(d, r[db], front)];
      EmitOne(cfg, d, es + Cmds(front), db, r1, last);
      assert es + Cmds(cmds) == es + Cmds(front) + [Cmd(last)];
      assert r1[db := Apply(d, r1[db], last)] == r[db := Apply(d, r1[db], last)];
    }
  }

  lemma EmitSelect(cfg: Config, d: Doubles, es: seq<Entry>, db: nat, r: seq<Db>, j: nat)
    requires Stands(cfg, d, es, db, r) && j < cfg.dbnum && Knows(cfg) && Small(Decimal(j))
    ensures Stands(cfg, d, es + [Cmd(SelectArgv(j))], j, r)
  {
    hide EnterAll, Enter, RunOne, Replay, Named, ReadableArgv, Decimal;
    var argv := SelectArgv(j);
    EnterLast(cfg, es, Cmd(argv));
    SelectIsSelect(j);
    NamesDiffer(argv);
    RunsAtOnce(cfg, EnterAll(cfg, START, es), argv);
    SelectRuns(cfg, EnterAll(cfg, START, es).effect, j);
    SelectReadable(j);
    WritableCmd(cfg, argv);
  }

  lemma SelectReadable(j: nat)
    requires Small(Decimal(j))
    ensures ReadableArgv(SelectArgv(j))
  {
    hide Readable, Decimal;
    ShortCount(2);
    ShortCount(6);
  }

  /** The databases below `j` rebuilt, the others still empty. */
  function Built(dbs: seq<Db>, j: nat): seq<Db> {
    seq(|dbs|, i requires 0 <= i < |dbs| => if i < j then dbs[i] else map[])
  }

  ghost predicate KeepableDbs(cfg: Config, d: Doubles, dbs: seq<Db>) {
    && |dbs| == cfg.dbnum
    && forall j | 0 <= j < |dbs| :: Small(Decimal(j)) && forall key | key in dbs[j] :: Keepable(d, key, dbs[j][key])
  }

  lemma StandsAtStart(cfg: Config, d: Doubles, dbs: seq<Db>, es: seq<Entry>)
    requires |dbs| == cfg.dbnum && |es| <= 1 && (|es| == 1 ==> es[0].Note? && Writable(cfg, es[0]))
    ensures Stands(cfg, d, es, 0, Built(dbs, 0))
  {
    if |es| == 1 {
      assert es == [Note(es[0].text)];
      EnterNote(cfg, START, es[0].text);
    }
    assert Replay(d, cfg.dbnum, []) == Built(dbs, 0);
  }

  lemma NoteWritable(cfg: Config, now: nat)
    requires |Decimal(now)| < LINE_MAX - 10
    ensures Writable(cfg, Note(TS + Decimal(now)))
  {
    hide Decimal;
    forall i | 0 <= i < |TS + Decimal(now)| ensures (TS + Decimal(now))[i] != LF {
      if i >= 3 { assert IsDigit(Decimal(now)[i - 3]); }
    }
  }

  /** The loop over the keys of one database. */
  method RewriteDb(rio: Rio, cfg: Config, d: Doubles, dbs: seq<Db>, j: nat, ghost es0: seq<Entry>, ghost db0: nat)
    returns (ghost es: seq<Entry>)
    requires Knows(cfg) && KeepableDbs(cfg, d, dbs) && j < |dbs|
    requires rio.out == EncodeLog(es0) && Stands(cfg, d, es0, db0, Built(dbs, j))
    modifies rio
    ensures rio.out == EncodeLog(es) && Stands(cfg, d, es, j, Built(dbs, j + 1))
  {
    hide Knows, Stands, EncodeLog, Keepable, Bulk, Bulks, AllPlain, ApplyAll, Text, Decimal, Header;
    var blank := Built(dbs, j);
    rio.WriteBulkCount(2);
    rio.WriteBulkString(SELECT_WORD);
    rio.WriteBulkString(Decimal(j));
    es := es0 + [Cmd(SelectArgv(j))];
    SelectWritten(es0, j, rio.out);
    EmitSelect(cfg, d, es0, db0, blank, j);
    var rest := dbs[j].Keys;
    assert dbs[j] - rest == map[];
    assert blank[j := dbs[j] - rest] == blank;
    while rest != {}
      invariant rest <= dbs[j].Keys && rio.out == EncodeLog(es)
      invariant Stands(cfg, d, es, j, blank[j := dbs[j] - rest])
      decreases |rest|
    {
      var key :| key in rest;
      ghost var now := dbs[j] - rest;
      ghost var r := blank[j := now];
      KeyAdded(dbs[j], rest, key);
      ghost var cmds := rio.RewriteKey(cfg, key, dbs[j][key], d, now);
      EmitMany(cfg, d, es, j, r, cmds);
      assert r[j := dbs[j] - (rest - {key})] == blank[j := dbs[j] - (rest - {key})];
      TextJoins(es, cmds);
      es := es + Cmds(cmds);
      rest := rest - {key};
    }
    assert dbs[j] - {} == dbs[j];
    assert blank[j := dbs[j]] == Built(dbs, j + 1);
  }

  lemma KeyAdded(db: Db, rest: set<Bytes>, key: Bytes)
    requires key in rest && rest <= db.Keys
    ensures (db - rest)[key := db[key]] == db - (rest - {key}) && key !in db - rest
  {
  }

  lemma TextJoins(es: seq<Entry>, cmds: seq<Argv>)
    ensures EncodeLog(es + Cmds(cmds)) == EncodeLog(es) + Text(cmds)
  {
    hide EncodeLog, Cmds;
    EncodeConcat(es, Cmds(cmds));
  }

  lemma SelectWritten(es: seq<Entry>, j: nat, out: Bytes)
    requires out == EncodeLog(es) + Header(2) + Bulk(SELECT_WORD) + Bulk(Decimal(j))
    ensures out == EncodeLog(es + [Cmd(SelectArgv(j))])
  {
    hide EncodeLog, Header, Bulk, Bulks, Decimal;
    EncodeOneMore(es, Cmd(SelectArgv(j)));
    TwoBulks(SELECT_WORD, Decimal(j));
    EncodeIs(SelectArgv(j));
    FourParts(EncodeLog(es), Header(2), Bulk(SELECT_WORD), Bulk(Decimal(j)));
  }

  lemma FourParts(a: Bytes, b: Bytes, c: Bytes, e: Bytes)
    ensures a + b + c + e == a + (b + (c + e))
  {
  }

  /**
   `rewriteAppendOnlyFileRio`. Whatever order the dictionaries are walked in, the loader accepts the file, and the
   commands it runs rebuild every database exactly: all values, the order of lists, and expire times.
   */
  method RewriteAppendOnlyFileRio(cfg: Config, d: Doubles, dbs: seq<Db>, timestamped: bool, now: nat) returns (out: Bytes)
    requires Knows(cfg) && KeepableDbs(cfg, d, dbs) && |Decimal(now)| < LINE_MAX - 10
    ensures Load(cfg, out, START).status == Ok
    ensures Replay(d, cfg.dbnum, Load(cfg, out, START).effect.ran) == dbs
  {
    hide Knows, Stands, EncodeLog, Keepable, Load, Replay, Decimal, Writable;
    var rio := new Rio();
    ghost var es: seq<Entry> := [];
    ghost var db := 0;
    EncodeNothing(es);
    if timestamped {
      rio.out := [HASH] + TS + Decimal(now) + CRLF;
      NoteWritable(cfg, now);
      EncodeOneMore(es, Note(TS + Decimal(now)));
      assert [HASH] + TS + Decimal(now) + CRLF == [] + ([HASH] + (TS + Decimal(now)) + CRLF);
      es := es + [Note(TS + Decimal(now))];
    }
    StandsAtStart(cfg, d, dbs, es);
    for j := 0 to cfg.dbnum
      invariant rio.out == EncodeLog(es) && Stands(cfg, d, es, db, Built(dbs, j))
    {
      if |dbs[j]| == 0 {
        assert dbs[j] == map[];
        assert Built(dbs, j + 1) == Built(dbs, j);
        continue;
      }
      es := RewriteDb(rio, cfg, d, dbs, j, es, db);
      db := j;
    }
    assert Built(dbs, cfg.dbnum) == dbs;
    out := rio.out;
    StandsLoads(cfg, d, es, db, dbs);
  }

  lemma StandsLoads(cfg: Config, d: Doubles, es: seq<Entry>, db: nat, r: seq<Db>)
    requires Stands(cfg, d, es, db, r)
    ensures var o := Load(cfg, EncodeLog(es), START); o.status == Ok && Replay(d, cfg.dbnum, o.effect.ran) == r
  {
    hide Load, EncodeLog, EnterAll, Replay, AllWritable;
    WholeLogLoads(cfg, es);
  }
}
